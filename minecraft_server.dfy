/** The instance lifecycle: registering a server in the table, creating its
    directory and systemd unit files, deleting it again, sending it a console
    command, and the unit jobs that start, restart and stop it. */
module MinecraftServer {
  import opened Js
  import opened Text
  import opened Results
  import opened Host

  /** The environment the server process reads. `MINECRAFT_USER_ID` and
      `MINECRAFT_GROUP_ID` appear here already converted to numbers. */
  datatype Env = Env(minecraftPath: string, systemdPath: string, userName: string, userId: int, groupId: int)

  /** `getServiceName(dir)`. */
  function ServiceName(dir: string): string
  {
    "minecraft-server-" + dir
  }

  /** Distinct directories get distinct service names. */
  lemma ServiceNameInjective(d1: string, d2: string)
    ensures ServiceName(d1) == ServiceName(d2) <==> d1 == d2
  {
    if ServiceName(d1) == ServiceName(d2) {
      var p := "minecraft-server-";
      assert d1 == ServiceName(d1)[|p|..];
      assert d2 == ServiceName(d2)[|p|..];
    }
  }

  // ---------------------------------------------------------------------------
  // Paths

  /** `path.join(a, b)` for plain segments: exactly one `/` between them. */
  function JoinPath(a: string, b: string): string
  {
    if b == "" then a
    else if a == "" then b
    else if Last(a) == '/' then a + b
    else a + "/" + b
  }

  /** Where `create` writes the unit files. */
  function ServiceFile(env: Env, dir: string): string { JoinPath(env.systemdPath, ServiceName(dir) + ".service") }
  function SocketFile(env: Env, dir: string): string { JoinPath(env.systemdPath, ServiceName(dir) + ".socket") }

  /** What `_delete` removes: the unit file names appended to `SYSTEMD_PATH`
      without a separator. */
  function DeletedServiceFile(env: Env, dir: string): string { env.systemdPath + ServiceName(dir) + ".service" }
  function DeletedSocketFile(env: Env, dir: string): string { env.systemdPath + ServiceName(dir) + ".socket" }

  /** The instance directory. */
  function InstanceDir(env: Env, dir: string): string { JoinPath(env.minecraftPath, dir) }

  /** `create` and `_delete` name the same unit files exactly when
      `SYSTEMD_PATH` is empty or ends in `/`. */
  lemma UnitPathsAgree(env: Env, dir: string)
    ensures ServiceFile(env, dir) == DeletedServiceFile(env, dir) <==> env.systemdPath == "" || Last(env.systemdPath) == '/'
    ensures SocketFile(env, dir) == DeletedSocketFile(env, dir) <==> env.systemdPath == "" || Last(env.systemdPath) == '/'
  {
    var a := env.systemdPath;
    var sn := ServiceName(dir);
    if a != "" && Last(a) != '/' {
      assert (a + "/" + (sn + ".service"))[|a|] == '/';
      assert (a + sn + ".service")[|a|] == 'm';
      assert (a + "/" + (sn + ".socket"))[|a|] == '/';
      assert (a + sn + ".socket")[|a|] == 'm';
    } else {
      assert a + sn + ".service" == a + (sn + ".service");
      assert a + sn + ".socket" == a + (sn + ".socket");
    }
  }

  // ---------------------------------------------------------------------------
  // Unit files

  /** The lines of the service unit, each later followed by a newline. */
  function ServiceLines(name: string, dir: string, serviceName: string, user: string): seq<string>
  {
    [ "[Unit]",
      "Description=Minecraft Server (" + name + ")",
      "",
      "[Service]   ",
      "Type=simple",
      "WorkingDirectory=" + dir + " ",
      "ExecStart=bash " + dir + "/run.sh",
      "User=" + user,
      "Restart=on-failure",
      "Sockets=" + serviceName + ".socket",
      "StandardInput=socket",
      "StandardOutput=journal",
      "StandardError=journal",
      "",
      "[Install]",
      "WantedBy=multi-user.target" ]
  }

  /** The lines of the socket unit. */
  function SocketLines(serviceName: string): seq<string>
  {
    [ "[Unit]",
      "PartOf=" + serviceName + ".service",
      "",
      "[Socket]",
      "ListenFIFO=%t/" + serviceName + ".stdin" ]
  }

  function ServiceUnit(name: string, dir: string, serviceName: string, user: string): string
  {
    Terminated(ServiceLines(name, dir, serviceName, user))
  }

  function SocketUnit(serviceName: string): string
  {
    Terminated(SocketLines(serviceName))
  }

  /** systemd's `%t` specifier: the runtime directory. */
  function ExpandRuntime(value: string, runtimeDir: string): string
  {
    if |value| >= 2 && value[..2] == "%t" then runtimeDir + value[2..] else value
  }

  /** The FIFO `run` writes to. */
  function FifoPath(dir: string): string
  {
    "/run/" + ServiceName(dir) + ".stdin"
  }

  /** When the substituted values hold no newline, the service unit reads
      back line by line as written, and it names the instance's socket unit. */
  lemma ServiceUnitFrames(name: string, path: string, serviceName: string, user: string)
    requires '\n' !in name && '\n' !in path && '\n' !in serviceName && '\n' !in user
    ensures CompleteLines(ServiceUnit(name, path, serviceName, user)) == ServiceLines(name, path, serviceName, user)
    ensures Rest(ServiceUnit(name, path, serviceName, user)) == ""
    ensures ServiceLines(name, path, serviceName, user)[9] == "Sockets=" + serviceName + ".socket"
  {
    var ls := ServiceLines(name, path, serviceName, user);
    forall i | 0 <= i < |ls| ensures '\n' !in ls[i] {
      NoNewlineConcat(ls, i, name, path, serviceName, user);
    }
    TerminatedFrames(ls);
  }

  /** The socket unit reads back line by line, names the instance's service
      unit, and listens on the FIFO `run` writes to once `%t` is `/run`. */
  lemma SocketUnitFrames(dir: string)
    requires '\n' !in dir
    ensures CompleteLines(SocketUnit(ServiceName(dir))) == SocketLines(ServiceName(dir))
    ensures SocketLines(ServiceName(dir))[1] == "PartOf=" + ServiceName(dir) + ".service"
    ensures SocketLines(ServiceName(dir))[4] == "ListenFIFO=" + ListenValue(dir)
    ensures ExpandRuntime(ListenValue(dir), "/run") == FifoPath(dir)
  {
    var sn := ServiceName(dir);
    assert '\n' !in sn;
    var ks := SocketLines(sn);
    forall i | 0 <= i < |ks| ensures '\n' !in ks[i] {
      assert '\n' !in ks[1] by { assert ks[1] == "PartOf=" + sn + ".service"; }
      assert '\n' !in ks[4] by { assert ks[4] == "ListenFIFO=%t/" + sn + ".stdin"; }
    }
    TerminatedFrames(ks);
    var v := ListenValue(dir);
    assert v[..2] == "%t" && v[2..] == "/" + sn + ".stdin";
  }

  /** The value of the socket's `ListenFIFO=` line. */
  function ListenValue(dir: string): string
  {
    "%t/" + ServiceName(dir) + ".stdin"
  }

  lemma NoNewlineConcat(ls: seq<string>, i: nat, name: string, path: string, sn: string, user: string)
    requires ls == ServiceLines(name, path, sn, user) && i < |ls|
    requires '\n' !in name && '\n' !in path && '\n' !in sn && '\n' !in user
    ensures '\n' !in ls[i]
  {
    if i == 1 { assert ls[i] == "Description=Minecraft Server (" + name + ")"; }
    else if i == 5 { assert ls[i] == "WorkingDirectory=" + path + " "; }
    else if i == 6 { assert ls[i] == "ExecStart=bash " + path + "/run.sh"; }
    else if i == 7 { assert ls[i] == "User=" + user; }
    else if i == 9 { assert ls[i] == "Sockets=" + sn + ".socket"; }
  }

  // ---------------------------------------------------------------------------
  // Reading a UNIQUE-constraint failure

  const ConstraintPrefix := "UNIQUE constraint failed: minecraft-servers."

  /** The characters `.` does not match. */
  predicate IsLineTerminator(c: char) {
    c == '\n' || c == '\r' || c == '\U{2028}' || c == '\U{2029}'
  }

  /** What a greedy `(.+)` takes: everything up to the first line terminator. */
  function LineHead(s: string): (r: string)
    ensures |r| <= |s| && r == s[..|r|]
    ensures forall i :: 0 <= i < |r| ==> !IsLineTerminator(r[i])
    ensures |r| < |s| ==> IsLineTerminator(s[|r|])
    decreases |s|
  {
    if s == [] || IsLineTerminator(s[0]) then [] else [s[0]] + LineHead(s[1..])
  }

  /** The literal part of the pattern occurs in `m` at position `i`. */
  predicate PrefixAt(m: string, i: nat) {
    i + |ConstraintPrefix| <= |m| && m[i..i + |ConstraintPrefix|] == ConstraintPrefix
  }

  /** The unanchored match of `/UNIQUE constraint failed: minecraft-servers\.(.+)/`
      on `m`, trying start positions from `from` on: the captured column of
      the leftmost match, which is never empty. */
  function MatchFrom(m: string, from: nat): (r: Option<string>)
    ensures r.Some? ==> r.value != []
    decreases |m| - from
  {
    if from + |ConstraintPrefix| >= |m| then None
    else if PrefixAt(m, from) && !IsLineTerminator(m[from + |ConstraintPrefix|])
    then Some(LineHead(m[from + |ConstraintPrefix|..]))
    else MatchFrom(m, from + 1)
  }

  /** The key named in the error: `Name`, `Directory`, or the column itself. */
  function KeyName(column: string): (r: string)
    ensures column == "name" ==> r == "Name"
    ensures column == "dir" ==> r == "Directory"
    ensures column != "name" && column != "dir" ==> r == column
  {
    if column == "name" then "Name" else if column == "dir" then "Directory" else column
  }

  /** The key of a UNIQUE-constraint failure, or nothing for any other error. */
  function UniqueKey(e: Exception): Option<string>
  {
    if e.LibsqlError? && e.code == UniqueViolation then
      match MatchFrom(e.message, 0)
      case Some(column) => Some(KeyName(column))
      case None => None
    else None
  }

  /** The table's own failure for a column is read back as that column. */
  lemma MatchesConstraintFailure(column: string)
    requires column != [] && forall i :: 0 <= i < |column| ==> !IsLineTerminator(column[i])
    ensures MatchFrom(ConstraintFailure(column).message, 0) == Some(column)
    ensures UniqueKey(ConstraintFailure(column)) == Some(KeyName(column))
  {
    var m := ConstraintFailure(column).message;
    assert m == ConstraintPrefix + column;
    assert PrefixAt(m, 0) by { assert m[0..|ConstraintPrefix|] == ConstraintPrefix; }
    assert m[|ConstraintPrefix|] == column[0];
    assert m[|ConstraintPrefix|..] == column;
    var h := LineHead(column);
    assert |h| == |column|;
    assert h == column;
  }

  /** A message without the prefix never matches, so its error is rethrown. */
  lemma {:induction false} NoPrefixNoMatch(m: string, from: nat)
    requires forall i: nat :: from <= i ==> !PrefixAt(m, i)
    ensures MatchFrom(m, from) == None
    decreases |m| - from
  {
    if from + |ConstraintPrefix| < |m| {
      NoPrefixNoMatch(m, from + 1);
    }
  }

  // ---------------------------------------------------------------------------
  // create and _import

  /** Failures of the foreign calls `create` makes, beyond those the stores
      determine. */
  datatype CreateFaults = CreateFaults(
    insert: Option<Exception>, mkdir: Option<Exception>, rollback: Option<Exception>,
    chown: Option<Exception>, writeService: Option<Exception>, writeSocket: Option<Exception>)

  const NoCreateFaults := CreateFaults(None, None, None, None, None, None)

  /** The two rendered unit files. */
  datatype UnitTexts = UnitTexts(service: string, socket: string)

  function RenderUnits(env: Env, name: string, dir: string): UnitTexts
  {
    UnitTexts(ServiceUnit(name, InstanceDir(env, dir), ServiceName(dir), env.userName), SocketUnit(ServiceName(dir)))
  }

  /** `create(name, _dir, createDir)`, step by step, for unit files rendered
      as `texts` (in `create` itself, `RenderUnits(env, name, dir)`). */
  function CreateEffect(s: Stores, env: Env, name: string, dir: string, createDir: bool, texts: UnitTexts, f: CreateFaults): Outcome<Result<(), string>>
  {
    var inserted := InsertRow(s, name, dir, f.insert);
    match inserted.value
    case Throw(e) =>
      (match UniqueKey(e)
       case Some(key) => Outcome(Normal(Err(key + " already exists")), inserted.after)
       case None => Outcome(Throw(e), inserted.after))
    case Normal(_) => AfterInsert(inserted.after, env, dir, createDir, texts, f)
  }

  /** Everything after the row was inserted: the directory, then the units. */
  function AfterInsert(s: Stores, env: Env, dir: string, createDir: bool, texts: UnitTexts, f: CreateFaults): Outcome<Result<(), string>>
  {
    if !createDir then WriteUnits(s, env, dir, texts, f)
    else
      var made := Mkdir(s, InstanceDir(env, dir), f.mkdir);
      match made.value
      case Throw(e) =>
        if e.HasCode("EEXIST") then RollBack(made.after, dir, f.rollback)
        else Outcome(Throw(e), made.after)
      case Normal(_) =>
        var owned := Chown(made.after, InstanceDir(env, dir), env.userId, env.groupId, f.chown);
        if owned.value.Throw? then Outcome(Throw(owned.value.exc), owned.after)
        else WriteUnits(owned.after, env, dir, texts, f)
  }

  /** The only rollback: the inserted row is deleted again when the
      directory already existed. */
  function RollBack(s: Stores, dir: string, fault: Option<Exception>): Outcome<Result<(), string>>
  {
    var removed := DeleteRows(s, dir, fault);
    if removed.value.Throw? then Outcome(Throw(removed.value.exc), removed.after)
    else Outcome(Normal(Err("Directory already exists")), removed.after)
  }

  /** Writing the service unit, then the socket unit. */
  function WriteUnits(s: Stores, env: Env, dir: string, texts: UnitTexts, f: CreateFaults): Outcome<Result<(), string>>
  {
    var w1 := WriteFile(s, ServiceFile(env, dir), texts.service, f.writeService);
    if w1.value.Throw? then Outcome(Throw(w1.value.exc), w1.after)
    else
      var w2 := WriteFile(w1.after, SocketFile(env, dir), texts.socket, f.writeSocket);
      if w2.value.Throw? then Outcome(Throw(w2.value.exc), w2.after)
      else Outcome(Normal(Ok(())), w2.after)
  }

  /** `create`: insert the row (a UNIQUE conflict becomes an `Err`), create
      and chown the directory when asked (an existing one rolls the row back),
      then write both unit files. */
  method Create(m: Machine, env: Env, name: string, dir: string, createDir: bool, f: CreateFaults)
    returns (c: Completion<Result<(), string>>)
    modifies m
    ensures Outcome(c, m.Snapshot()) == CreateEffect(old(m.Snapshot()), env, name, dir, createDir, RenderUnits(env, name, dir), f)
  {
    ghost var s0 := m.Snapshot();
    var texts := RenderUnits(env, name, dir);
    var inserted := m.Insert(name, dir, f.insert);
    if inserted.Throw? {
      match UniqueKey(inserted.exc) {
        case Some(key) => return Normal(Err(key + " already exists"));
        case None => return Throw(inserted.exc);
      }
    }
    ghost var s1 := m.Snapshot();
    assert CreateEffect(s0, env, name, dir, createDir, texts, f) == AfterInsert(s1, env, dir, createDir, texts, f);
    var path := InstanceDir(env, dir);
    if createDir {
      var made := m.MakeDirectory(path, f.mkdir);
      if made.Throw? {
        if made.exc.HasCode("EEXIST") {
          var removed := m.DeleteWhereDir(dir, f.rollback);
          if removed.Throw? {
            return Throw(removed.exc);
          }
          return Normal(Err("Directory already exists"));
        }
        return Throw(made.exc);
      }
      var owned := m.ChangeOwner(path, env.userId, env.groupId, f.chown);
      if owned.Throw? {
        return Throw(owned.exc);
      }
    }
    ghost var s2 := m.Snapshot();
    assert AfterInsert(s1, env, dir, createDir, texts, f) == WriteUnits(s2, env, dir, texts, f);
    var written := m.Write(ServiceFile(env, dir), texts.service, f.writeService);
    if written.Throw? {
      return Throw(written.exc);
    }
    written := m.Write(SocketFile(env, dir), texts.socket, f.writeSocket);
    if written.Throw? {
      return Throw(written.exc);
    }
    c := Normal(Ok(()));
  }

  /** `_import(dir, name)`: `create` without creating a directory. */
  method Import(m: Machine, env: Env, dir: string, name: string, f: CreateFaults)
    returns (c: Completion<Result<(), string>>)
    modifies m
    ensures Outcome(c, m.Snapshot()) == CreateEffect(old(m.Snapshot()), env, name, dir, false, RenderUnits(env, name, dir), f)
  {
    c := Create(m, env, name, dir, false, f);
  }

  /** A name already registered: `Err("Name already exists")` and all three
      stores unchanged, whether or not the directory is taken too. */
  lemma CreateNameTaken(s: Stores, env: Env, name: string, dir: string, createDir: bool, texts: UnitTexts, f: CreateFaults)
    requires f.insert.None? && HasName(s.rows, name)
    ensures CreateEffect(s, env, name, dir, createDir, texts, f) == Outcome(Normal(Err("Name already exists")), s)
  {
    var e := ConstraintFailure("name");
    assert InsertRow(s, name, dir, f.insert) == Outcome(Throw(e), s);
    NameConflictKey();
    assert CreateEffect(s, env, name, dir, createDir, texts, f) == Outcome(Normal(Err("Name" + " already exists")), s);
    assert "Name" + " already exists" == "Name already exists";
  }

  /** A directory already registered under another name:
      `Err("Directory already exists")` and all three stores unchanged. */
  lemma CreateDirTaken(s: Stores, env: Env, name: string, dir: string, createDir: bool, texts: UnitTexts, f: CreateFaults)
    requires f.insert.None? && !HasName(s.rows, name) && HasDir(s.rows, dir)
    ensures CreateEffect(s, env, name, dir, createDir, texts, f) == Outcome(Normal(Err("Directory already exists")), s)
  {
    var e := ConstraintFailure("dir");
    assert InsertRow(s, name, dir, f.insert) == Outcome(Throw(e), s);
    DirConflictKey();
    assert CreateEffect(s, env, name, dir, createDir, texts, f) == Outcome(Normal(Err("Directory" + " already exists")), s);
    assert "Directory" + " already exists" == "Directory already exists";
  }

  /** A duplicate name reads back as the key `Name`. */
  lemma NameConflictKey()
    ensures UniqueKey(ConstraintFailure("name")) == Some("Name")
  {
    MatchesConstraintFailure("name");
  }

  /** A duplicate directory reads back as the key `Directory`. */
  lemma DirConflictKey()
    ensures UniqueKey(ConstraintFailure("dir")) == Some("Directory")
  {
    MatchesConstraintFailure("dir");
  }

  /** Any other insert failure is rethrown, with the stores unchanged. */
  lemma CreateRethrows(s: Stores, env: Env, name: string, dir: string, createDir: bool, texts: UnitTexts, f: CreateFaults)
    requires f.insert.Some? && UniqueKey(f.insert.value).None?
    ensures CreateEffect(s, env, name, dir, createDir, texts, f) == Outcome(Throw(f.insert.value), s)
  {
  }

  /** An existing directory: the inserted row is deleted again, no unit file
      is written, and the result is `Err("Directory already exists")`; the
      stores end as they began. */
  lemma CreateRollsBack(s: Stores, env: Env, name: string, dir: string, texts: UnitTexts, f: CreateFaults)
    requires f.insert.None? && f.rollback.None?
    requires !HasName(s.rows, name) && !HasDir(s.rows, dir)
    requires InstanceDir(env, dir) in s.fs
    ensures CreateEffect(s, env, name, dir, true, texts, f) == Outcome(Normal(Err("Directory already exists")), s)
  {
    WithoutAbsent(s.rows, dir);
    WithoutAppend(s.rows, Row(name, dir));
  }

  lemma WithoutAppend(rows: seq<Row>, r: Row)
    ensures Without(rows + [r], r.dir) == Without(rows, r.dir)
  {
    assert (rows + [r])[..|rows|] == rows;
  }

  /** Without failures and with the directory and unit paths free, `create`
      returns `Ok()` and leaves the row, the owned directory (when asked) and
      both unit files in place. */
  lemma CreateSucceeds(s: Stores, env: Env, name: string, dir: string, createDir: bool, texts: UnitTexts)
    requires !HasName(s.rows, name) && !HasDir(s.rows, dir)
    requires createDir ==> InstanceDir(env, dir) !in s.fs
    requires ServiceFile(env, dir) != InstanceDir(env, dir) && SocketFile(env, dir) != InstanceDir(env, dir)
    requires ServiceFile(env, dir) in s.fs ==> !s.fs[ServiceFile(env, dir)].Directory?
    requires SocketFile(env, dir) in s.fs ==> !s.fs[SocketFile(env, dir)].Directory?
    ensures var o := CreateEffect(s, env, name, dir, createDir, texts, NoCreateFaults);
      && o.value == Normal(Ok(()))
      && o.after.rows == s.rows + [Row(name, dir)]
      && o.after.calls == s.calls
      && (createDir ==> o.after.fs[InstanceDir(env, dir)] == Directory(Some((env.userId, env.groupId))))
      && o.after.fs[ServiceFile(env, dir)] == File(texts.service)
      && o.after.fs[SocketFile(env, dir)] == File(texts.socket)
  {
  }

  /** `_import` never creates or changes a directory: the only paths it
      touches are the two unit files. */
  lemma ImportLeavesDirectories(s: Stores, env: Env, name: string, dir: string, texts: UnitTexts, f: CreateFaults)
    ensures var o := CreateEffect(s, env, name, dir, false, texts, f);
      forall p :: p != ServiceFile(env, dir) && p != SocketFile(env, dir) ==>
        (p in o.after.fs <==> p in s.fs) && (p in s.fs ==> o.after.fs[p] == s.fs[p])
  {
  }

  /** Only EEXIST rolls the row back: after any other `mkdir` failure, or a
      failure of chown or of a unit file, the inserted row stays, and a
      directory `mkdir` made stays a directory. */
  lemma NoRollbackAfterDirectory(s: Stores, env: Env, name: string, dir: string, createDir: bool, texts: UnitTexts, f: CreateFaults)
    requires InsertRow(s, name, dir, f.insert).value.Normal?
    requires createDir ==>
      var made := Mkdir(InsertRow(s, name, dir, f.insert).after, InstanceDir(env, dir), f.mkdir);
      !(made.value.Throw? && made.value.exc.HasCode("EEXIST"))
    ensures var o := CreateEffect(s, env, name, dir, createDir, texts, f);
      && o.after.rows == s.rows + [Row(name, dir)]
      && (createDir && Mkdir(InsertRow(s, name, dir, f.insert).after, InstanceDir(env, dir), f.mkdir).value.Normal? ==>
            InstanceDir(env, dir) in o.after.fs && o.after.fs[InstanceDir(env, dir)].Directory?)
  {
    var inserted := InsertRow(s, name, dir, f.insert);
    assert inserted.after.rows == s.rows + [Row(name, dir)];
    var o := AfterInsert(inserted.after, env, dir, createDir, texts, f);
    assert CreateEffect(s, env, name, dir, createDir, texts, f) == o;
    if !createDir {
      WriteUnitsRows(inserted.after, env, dir, texts, f);
    } else {
      var path := InstanceDir(env, dir);
      var made := Mkdir(inserted.after, path, f.mkdir);
      if made.value.Normal? {
        var owned := Chown(made.after, path, env.userId, env.groupId, f.chown);
        assert owned.after.rows == inserted.after.rows;
        assert path in owned.after.fs && owned.after.fs[path].Directory?;
        WriteUnitsRows(owned.after, env, dir, texts, f);
        WriteUnitsKeepsDirectory(owned.after, env, dir, texts, f, path);
      }
    }
  }

  /** Writing the unit files never replaces a directory. */
  lemma WriteUnitsKeepsDirectory(s: Stores, env: Env, dir: string, texts: UnitTexts, f: CreateFaults, p: string)
    requires p in s.fs && s.fs[p].Directory?
    ensures var w := WriteUnits(s, env, dir, texts, f);
      p in w.after.fs && w.after.fs[p].Directory?
  {
  }

  /** `create` keeps both columns unique. */
  lemma CreateKeepsUnique(s: Stores, env: Env, name: string, dir: string, createDir: bool, texts: UnitTexts, f: CreateFaults)
    requires UniqueRows(s.rows)
    ensures UniqueRows(CreateEffect(s, env, name, dir, createDir, texts, f).after.rows)
  {
    InsertUnique(s, name, dir, f.insert);
    var inserted := InsertRow(s, name, dir, f.insert);
    WithoutUnique(inserted.after.rows, dir);
    if inserted.value.Normal? {
      AfterInsertRows(inserted.after, env, dir, createDir, texts, f);
    }
  }

  /** After the insert, the rows change only by the rollback's deletion. */
  lemma AfterInsertRows(s: Stores, env: Env, dir: string, createDir: bool, texts: UnitTexts, f: CreateFaults)
    ensures var rows := AfterInsert(s, env, dir, createDir, texts, f).after.rows;
      rows == s.rows || rows == Without(s.rows, dir)
  {
    if createDir {
      var made := Mkdir(s, InstanceDir(env, dir), f.mkdir);
      if made.value.Normal? {
        var owned := Chown(made.after, InstanceDir(env, dir), env.userId, env.groupId, f.chown);
        assert owned.after.rows == s.rows;
        WriteUnitsRows(owned.after, env, dir, texts, f);
      }
    } else {
      WriteUnitsRows(s, env, dir, texts, f);
    }
  }

  lemma WriteUnitsRows(s: Stores, env: Env, dir: string, texts: UnitTexts, f: CreateFaults)
    ensures WriteUnits(s, env, dir, texts, f).after.rows == s.rows
    ensures WriteUnits(s, env, dir, texts, f).after.calls == s.calls
  {
  }

  // ---------------------------------------------------------------------------
  // _delete

  /** `tryRm(...)`: `fs.rm`, ignoring only a missing path. */
  function TryRm(s: Stores, path: string, recursive: bool, force: bool, fault: Option<Exception>): (o: Outcome<()>)
  {
    var removed := Rm(s, path, recursive, force, fault);
    if removed.value.Throw? && removed.value.exc.HasCode("ENOENT") then Outcome(Normal(()), removed.after)
    else removed
  }

  /** `tryRm` completes normally exactly when `fs.rm` does or fails with
      `ENOENT`, rethrows every other error, and changes the file system as
      `fs.rm` does. */
  lemma TryRmSwallowsOnlyEnoent(s: Stores, path: string, recursive: bool, force: bool, fault: Option<Exception>)
    ensures var r := Rm(s, path, recursive, force, fault);
      var t := TryRm(s, path, recursive, force, fault);
      && t.after == r.after
      && (t.value.Normal? <==> r.value.Normal? || r.value.exc.HasCode("ENOENT"))
      && (t.value.Throw? ==> t.value == r.value)
      && (path !in s.fs ==> t == Outcome(Normal(()), s))
  {
  }

  /** Failures of the foreign calls `_delete` makes. */
  datatype DeleteFaults = DeleteFaults(
    deleteRow: Option<Exception>, stop: Option<Exception>,
    rmService: Option<Exception>, rmSocket: Option<Exception>, rmDir: Option<Exception>)

  const NoDeleteFaults := DeleteFaults(None, None, None, None, None)

  /** `_delete(dir, {removeFiles})`, step by step. */
  function DeleteEffect(s: Stores, env: Env, dir: string, removeFiles: bool, f: DeleteFaults): Outcome<()>
  {
    var deleted := DeleteRows(s, dir, f.deleteRow);
    if deleted.value.Throw? then deleted
    else
      var stopped := UnitJob(deleted.after, StopUnit(ServiceName(dir) + ".service", "replace"), f.stop);
      if stopped.value.Throw? then stopped
      else
        var r1 := TryRm(stopped.after, DeletedServiceFile(env, dir), false, false, f.rmService);
        if r1.value.Throw? then r1
        else
          var r2 := TryRm(r1.after, DeletedSocketFile(env, dir), false, false, f.rmSocket);
          if r2.value.Throw? || !removeFiles then r2
          else TryRm(r2.after, InstanceDir(env, dir), true, true, f.rmDir)
  }

  /** `_delete`: remove the row, stop the service (unguarded), then remove
      both unit files and, when asked, the instance directory tree. */
  method Delete(m: Machine, env: Env, dir: string, removeFiles: bool, f: DeleteFaults) returns (c: Completion<()>)
    modifies m
    ensures Outcome(c, m.Snapshot()) == DeleteEffect(old(m.Snapshot()), env, dir, removeFiles, f)
  {
    c := m.DeleteWhereDir(dir, f.deleteRow);
    if c.Throw? {
      return;
    }
    c := Stop(m, dir, f.stop);
    if c.Throw? {
      return;
    }
    c := TryRemove(m, DeletedServiceFile(env, dir), false, false, f.rmService);
    if c.Throw? {
      return;
    }
    c := TryRemove(m, DeletedSocketFile(env, dir), false, false, f.rmSocket);
    if c.Throw? || !removeFiles {
      return;
    }
    c := TryRemove(m, InstanceDir(env, dir), true, true, f.rmDir);
  }

  method TryRemove(m: Machine, path: string, recursive: bool, force: bool, fault: Option<Exception>) returns (c: Completion<()>)
    modifies m
    ensures Outcome(c, m.Snapshot()) == TryRm(old(m.Snapshot()), path, recursive, force, fault)
  {
    c := m.Remove(path, recursive, force, fault);
    if c.Throw? && c.exc.HasCode("ENOENT") {
      c := Normal(());
    }
  }

  /** The order of `_delete`: a failing row deletion changes nothing; a
      failing stop leaves the row gone but every file in place; otherwise
      both unit files are gone, and with `removeFiles` the whole instance
      directory tree too. */
  lemma DeleteOrder(s: Stores, env: Env, dir: string, removeFiles: bool, f: DeleteFaults)
    ensures f.deleteRow.Some? ==> DeleteEffect(s, env, dir, removeFiles, f) == Outcome(Throw(f.deleteRow.value), s)
    ensures f.deleteRow.None? && f.stop.Some? ==>
      DeleteEffect(s, env, dir, removeFiles, f) == Outcome(Throw(f.stop.value), s.(rows := Without(s.rows, dir)))
    ensures f.deleteRow.None? && f.stop.None? ==>
      var o := DeleteEffect(s, env, dir, removeFiles, f);
      && o.after.rows == Without(s.rows, dir)
      && o.after.calls == s.calls + [StopUnit(ServiceName(dir) + ".service", "replace")]
      && (o.value.Normal? && f.rmService.None? && f.rmSocket.None? ==>
            DeletedServiceFile(env, dir) !in o.after.fs && DeletedSocketFile(env, dir) !in o.after.fs)
      && (o.value.Normal? && f.rmDir.None? && removeFiles ==> InstanceDir(env, dir) !in o.after.fs)
      && (o.value.Normal? && f.rmDir.None? && removeFiles && InstanceDir(env, dir) in s.fs
          && InstanceDir(env, dir) != DeletedServiceFile(env, dir) && InstanceDir(env, dir) != DeletedSocketFile(env, dir) ==>
            forall p :: p in o.after.fs ==> !Under(p, InstanceDir(env, dir)))
  {
    if f.deleteRow.None? && f.stop.None? {
      var deleted := DeleteRows(s, dir, f.deleteRow);
      var stopped := UnitJob(deleted.after, StopUnit(ServiceName(dir) + ".service", "replace"), f.stop);
      var r1 := TryRm(stopped.after, DeletedServiceFile(env, dir), false, false, f.rmService);
      TryRmRemoves(stopped.after, DeletedServiceFile(env, dir), false, false, f.rmService);
      if r1.value.Normal? {
        var r2 := TryRm(r1.after, DeletedSocketFile(env, dir), false, false, f.rmSocket);
        TryRmRemoves(r1.after, DeletedSocketFile(env, dir), false, false, f.rmSocket);
        if r2.value.Normal? && removeFiles {
          TryRmRemoves(r2.after, InstanceDir(env, dir), true, true, f.rmDir);
        }
      }
    }
  }

  /** A `tryRm` whose `fs.rm` did not fail for a foreign reason and that
      completes normally leaves the path absent, and none
      ever adds a path or touches rows and requests; a recursive one also
      leaves nothing below the path. */
  lemma TryRmRemoves(s: Stores, path: string, recursive: bool, force: bool, fault: Option<Exception>)
    ensures var o := TryRm(s, path, recursive, force, fault);
      && (o.value.Normal? && fault.None? ==> path !in o.after.fs)
      && (o.value.Normal? && fault.None? && recursive && path in s.fs ==> forall p :: p in o.after.fs ==> !Under(p, path))
      && (forall p :: p in o.after.fs ==> p in s.fs)
      && (forall p :: p in s.fs && p != path && !(recursive && Under(p, path)) ==> p in o.after.fs)
      && o.after.rows == s.rows && o.after.calls == s.calls
  {
  }

  /** Deleting twice: the second delete finds nothing left to remove, so
      rows and files stay as the first left them.  Its unguarded stop request
      is the one step that can still fail (`stop` is that request's answer):
      the second delete completes exactly when that request does, and
      otherwise throws its exception. */
  lemma DeleteIdempotent(s: Stores, env: Env, dir: string, removeFiles: bool, stop: Option<Exception>)
    requires DeleteEffect(s, env, dir, removeFiles, NoDeleteFaults).value.Normal?
    ensures var once := DeleteEffect(s, env, dir, removeFiles, NoDeleteFaults);
      var twice := DeleteEffect(once.after, env, dir, removeFiles, NoDeleteFaults.(stop := stop));
      && (twice.value.Normal? <==> stop.None?)
      && (stop.Some? ==> twice.value == Throw(stop.value))
      && twice.after.rows == once.after.rows
      && twice.after.fs == once.after.fs
  {
    var once := DeleteEffect(s, env, dir, removeFiles, NoDeleteFaults);
    DeleteOrder(s, env, dir, removeFiles, NoDeleteFaults);
    WithoutTwice(s.rows, dir);
    var f := NoDeleteFaults.(stop := stop);
    if stop.Some? {
      DeleteOrder(once.after, env, dir, removeFiles, f);
    } else {
      assert f == NoDeleteFaults;
    }
  }

  lemma WithoutTwice(rows: seq<Row>, dir: string)
    ensures Without(Without(rows, dir), dir) == Without(rows, dir)
  {
    WithoutAbsent(Without(rows, dir), dir);
  }

  /** `_delete` keeps both columns unique. */
  lemma DeleteKeepsUnique(s: Stores, env: Env, dir: string, removeFiles: bool, f: DeleteFaults)
    requires UniqueRows(s.rows)
    ensures UniqueRows(DeleteEffect(s, env, dir, removeFiles, f).after.rows)
  {
    WithoutUnique(s.rows, dir);
  }

  // ---------------------------------------------------------------------------
  // Unit jobs, status and the console

  /** One manager request: the job, or the failure of reaching the manager or
      of the request itself. */
  function UnitJob(s: Stores, call: UnitCall, fault: Option<Exception>): Outcome<()>
  {
    Request(s, call, fault)
  }

  method Start(m: Machine, dir: string, fault: Option<Exception>) returns (c: Completion<()>)
    modifies m
    ensures Outcome(c, m.Snapshot()) == UnitJob(old(m.Snapshot()), StartUnit(ServiceName(dir) + ".service", "replace"), fault)
  {
    c := m.Send(StartUnit(ServiceName(dir) + ".service", "replace"), fault);
  }

  method Restart(m: Machine, dir: string, fault: Option<Exception>) returns (c: Completion<()>)
    modifies m
    ensures Outcome(c, m.Snapshot()) == UnitJob(old(m.Snapshot()), RestartUnit(ServiceName(dir) + ".service", "replace"), fault)
  {
    c := m.Send(RestartUnit(ServiceName(dir) + ".service", "replace"), fault);
  }

  method Stop(m: Machine, dir: string, fault: Option<Exception>) returns (c: Completion<()>)
    modifies m
    ensures Outcome(c, m.Snapshot()) == UnitJob(old(m.Snapshot()), StopUnit(ServiceName(dir) + ".service", "replace"), fault)
  {
    c := m.Send(StopUnit(ServiceName(dir) + ".service", "replace"), fault);
  }

  /** `getStatus(dir)`: load the unit, then read its `ActiveState` property;
      `property` is what that read gives.  The value is returned unchecked. */
  function StatusEffect(s: Stores, dir: string, loadFault: Option<Exception>, property: Completion<string>): Outcome<string>
  {
    var loaded := Request(s, LoadUnit(ServiceName(dir) + ".service"), loadFault);
    if loaded.value.Throw? then Outcome(Throw(loaded.value.exc), loaded.after)
    else Outcome(property, loaded.after)
  }

  method GetStatus(m: Machine, dir: string, loadFault: Option<Exception>, property: Completion<string>)
    returns (c: Completion<string>)
    modifies m
    ensures Outcome(c, m.Snapshot()) == StatusEffect(old(m.Snapshot()), dir, loadFault, property)
  {
    var loaded := m.Send(LoadUnit(ServiceName(dir) + ".service"), loadFault);
    if loaded.Throw? {
      return Throw(loaded.exc);
    }
    c := property;
  }

  /** Each unit action issues exactly one request, for the instance's own
      service unit in mode "replace", and touches neither rows nor files. */
  lemma UnitActionsTargetService(s: Stores, dir: string, fault: Option<Exception>)
    requires fault.None?
    ensures UnitJob(s, StartUnit(ServiceName(dir) + ".service", "replace"), fault).after
      == s.(calls := s.calls + [StartUnit("minecraft-server-" + dir + ".service", "replace")])
    ensures UnitJob(s, StopUnit(ServiceName(dir) + ".service", "replace"), fault).after
      == s.(calls := s.calls + [StopUnit("minecraft-server-" + dir + ".service", "replace")])
    ensures UnitJob(s, RestartUnit(ServiceName(dir) + ".service", "replace"), fault).after
      == s.(calls := s.calls + [RestartUnit("minecraft-server-" + dir + ".service", "replace")])
  {
  }

  /** `run(dir, command)`: one write of the command and a newline to the
      instance's FIFO. */
  function RunEffect(s: Stores, dir: string, command: string, fault: Option<Exception>): Outcome<()>
  {
    OpenWrite(s, FifoPath(dir), command + "\n", fault)
  }

  method Run(m: Machine, dir: string, command: string, fault: Option<Exception>) returns (c: Completion<()>)
    modifies m
    ensures Outcome(c, m.Snapshot()) == RunEffect(old(m.Snapshot()), dir, command, fault)
  {
    c := m.OpenAndWrite(FifoPath(dir), command + "\n", fault);
  }

  /** On the socket's FIFO, `run` appends exactly the command and a newline
      to what the server has received, and changes nothing else. */
  lemma RunAppendsLine(s: Stores, dir: string, command: string)
    requires FifoPath(dir) in s.fs && s.fs[FifoPath(dir)].Fifo?
    ensures var o := RunEffect(s, dir, command, None);
      && o.value.Normal?
      && o.after.fs[FifoPath(dir)].received == s.fs[FifoPath(dir)].received + command + "\n"
      && o.after.rows == s.rows && o.after.calls == s.calls
      && forall p :: p in s.fs && p != FifoPath(dir) ==> p in o.after.fs && o.after.fs[p] == s.fs[p]
  {
  }
}
