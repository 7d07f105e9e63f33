/** The server list page: validation of the create and import forms, the
    create and import server actions, and the directories offered for
    import. */
module HomePage {
  import opened Js
  import opened Text
  import opened Results
  import opened Host
  import opened Autofill
  import opened MinecraftServer

  // ---------------------------------------------------------------------------
  // Form data

  /** A form field's value: a string, or an uploaded file (an object). */
  datatype FormValue = TextEntry(text: string) | FileEntry(fileName: string)

  /** What a server action's `validate` receives: a `FormData`, with its
      entries in order, or some other value. */
  datatype FormInput = FormData(entries: seq<(string, FormValue)>) | NotFormData(value: JsValue)

  /** `formData.get(key)`: the value of the first entry named `key`, or `null`. */
  function Get(entries: seq<(string, FormValue)>, key: string): (r: Option<FormValue>)
    ensures r.None? <==> forall i :: 0 <= i < |entries| ==> entries[i].0 != key
    ensures r.Some? ==> (key, r.value) in entries
  {
    if entries == [] then None
    else if entries[0].0 == key then Some(entries[0].1)
    else
      assert forall i :: 1 <= i < |entries| ==> entries[i] == entries[1..][i - 1];
      Get(entries[1..], key)
  }

  /** Of several entries with the same name, `get` returns the first. */
  lemma {:induction false} GetFindsFirst(entries: seq<(string, FormValue)>, key: string, i: nat)
    requires i < |entries| && entries[i].0 == key
    requires forall j :: 0 <= j < i ==> entries[j].0 != key
    ensures Get(entries, key) == Some(entries[i].1)
    decreases i
  {
    if i > 0 {
      assert entries[0].0 != key;
      GetFindsFirst(entries[1..], key, i - 1);
    }
  }

  /** The field `key` when `typeof formData.get(key) === "string"`. */
  function StringField(entries: seq<(string, FormValue)>, key: string): Option<string>
  {
    match Get(entries, key)
    case Some(TextEntry(t)) => Some(t)
    case _ => None
  }

  // ---------------------------------------------------------------------------
  // createServer.validate and importServer.validate

  /** The directory check `^[a-zA-Z0-9-_]+$`. */
  predicate IsValidDir(dir: string) {
    |dir| > 0 && forall i :: 0 <= i < |dir| ==> IsDirChar(dir[i])
  }

  datatype ServerForm = ServerForm(name: string, dir: string)

  /** The validation both forms share: a `FormData` whose `name` and `dir` are
      strings (the name first), and a `dir` that passes the directory check;
      both values are passed on unchanged. */
  function ValidateServerForm(input: FormInput): (r: Result<ServerForm, string>)
    ensures r == Err("Invalid form data") <==>
      || input.NotFormData?
      || StringField(input.entries, "name").None?
      || StringField(input.entries, "dir").None?
    ensures r == Err("Invalid directory") <==>
      && input.FormData?
      && StringField(input.entries, "name").Some?
      && StringField(input.entries, "dir").Some?
      && !IsValidDir(StringField(input.entries, "dir").value)
    ensures r.Ok? ==>
      && input.FormData?
      && r.val == ServerForm(StringField(input.entries, "name").value, StringField(input.entries, "dir").value)
      && IsValidDir(r.val.dir)
  {
    match input
    case NotFormData(_) => Err("Invalid form data")
    case FormData(entries) =>
      match StringField(entries, "name")
      case None => Err("Invalid form data")
      case Some(name) =>
        match StringField(entries, "dir")
        case None => Err("Invalid form data")
        case Some(dir) =>
          if !IsValidDir(dir) then Err("Invalid directory")
          else Ok(ServerForm(name, dir))
  }

  /** A form holding just a name and a directory: it validates, with both
      values unchanged and any name accepted, exactly when the directory passes
      the check. */
  lemma TwoFieldForm(name: string, dir: string)
    ensures var r := ValidateServerForm(FormData([("name", TextEntry(name)), ("dir", TextEntry(dir))]));
      && (IsValidDir(dir) ==> r == Ok(ServerForm(name, dir)))
      && (!IsValidDir(dir) ==> r == Err("Invalid directory"))
  {
    var entries := [("name", TextEntry(name)), ("dir", TextEntry(dir))];
    GetFindsFirst(entries, "name", 0);
    assert StringField(entries, "name") == Some(name);
    assert entries[0].0 != "dir" by { assert "name"[0] != "dir"[0]; }
    GetFindsFirst(entries, "dir", 1);
    assert StringField(entries, "dir") == Some(dir);
  }

  /** Validation is stable: submitting a validated form's values again gives
      the same form. */
  lemma ValidatedFormResubmits(input: FormInput)
    requires ValidateServerForm(input).Ok?
    ensures var form := ValidateServerForm(input).val;
      ValidateServerForm(FormData([("name", TextEntry(form.name)), ("dir", TextEntry(form.dir))])) == Ok(form)
  {
    var form := ValidateServerForm(input).val;
    TwoFieldForm(form.name, form.dir);
  }

  /** A non-empty `sanitize` result passes the directory check. */
  lemma SanitizedPassesDirCheck(s: string)
    requires Sanitize(s) != []
    ensures IsValidDir(Sanitize(s))
  {
  }

  /** A form whose directory is a sanitized text validates exactly when that
      text keeps at least one character, and then carries it unchanged. */
  lemma SanitizedDirValidates(name: string, text: string)
    ensures var r := ValidateServerForm(FormData([("name", TextEntry(name)), ("dir", TextEntry(Sanitize(text)))]));
      && (Sanitize(text) != [] ==> r == Ok(ServerForm(name, Sanitize(text))))
      && (Sanitize(text) == [] ==> r == Err("Invalid directory"))
  {
    TwoFieldForm(name, Sanitize(text));
  }

  // ---------------------------------------------------------------------------
  // createServer and importServer

  /** A server action's reply to what `create` or `_import` completed with: an
      exception propagates; any result, `Err` included, is discarded and the
      reply is `Ok(success)`. */
  function Reply(c: Completion<Result<(), string>>, success: string): (r: Completion<Result<string, string>>)
    ensures r.Throw? <==> c.Throw?
    ensures c.Throw? ==> r.exc == c.exc
    ensures c.Normal? ==> r == Normal(Ok(success))
  {
    match c
    case Throw(e) => Throw(e)
    case Normal(_) => Normal(Ok(success))
  }

  /** `createServer({name, dir})`: `create(name, dir)`, creating the
      directory, then the reply "Server created". */
  method CreateServer(m: Machine, env: Env, form: ServerForm, f: CreateFaults)
    returns (r: Completion<Result<string, string>>)
    modifies m
    ensures var o := CreateEffect(old(m.Snapshot()), env, form.name, form.dir, true, RenderUnits(env, form.name, form.dir), f);
      m.Snapshot() == o.after && r == Reply(o.value, "Server created")
  {
    var c := Create(m, env, form.name, form.dir, true, f);
    r := Reply(c, "Server created");
  }

  /** `importServer({dir, name})`: `_import(dir, name)`, then the reply
      "Server imported". */
  method ImportServer(m: Machine, env: Env, form: ServerForm, f: CreateFaults)
    returns (r: Completion<Result<string, string>>)
    modifies m
    ensures var o := CreateEffect(old(m.Snapshot()), env, form.name, form.dir, false, RenderUnits(env, form.name, form.dir), f);
      m.Snapshot() == o.after && r == Reply(o.value, "Server imported")
  {
    var c := Import(m, env, form.dir, form.name, f);
    r := Reply(c, "Server imported");
  }

  /** As written, a conflict is reported as success: with the name or the
      directory already registered, `create` changes nothing and returns an
      `Err`, yet the reply is "Server created" (or "Server imported"). */
  lemma ConflictReportedAsSuccess(s: Stores, env: Env, form: ServerForm, createDir: bool, texts: UnitTexts, f: CreateFaults)
    requires f.insert.None? && (HasName(s.rows, form.name) || HasDir(s.rows, form.dir))
    ensures var o := CreateEffect(s, env, form.name, form.dir, createDir, texts, f);
      && o.after == s
      && o.value.Normal? && o.value.value.Err?
      && Reply(o.value, "Server created") == Normal(Ok("Server created"))
      && Reply(o.value, "Server imported") == Normal(Ok("Server imported"))
  {
    if HasName(s.rows, form.name) {
      CreateNameTaken(s, env, form.name, form.dir, createDir, texts, f);
    } else {
      CreateDirTaken(s, env, form.name, form.dir, createDir, texts, f);
    }
  }

  /** The reply that passes `create`'s result on: an exception propagates, an
      `Err` is returned as it is, and `Ok()` becomes `Ok(success)`. */
  function CheckedReply(c: Completion<Result<(), string>>, success: string): (r: Completion<Result<string, string>>)
    ensures r.Throw? <==> c.Throw?
    ensures c.Throw? ==> r.exc == c.exc
    ensures c.Normal? && c.value.Err? ==> r == Normal(Err(c.value.err))
    ensures c == Normal(Ok(())) ==> r == Normal(Ok(success))
  {
    match c
    case Throw(e) => Throw(e)
    case Normal(Err(e)) => Normal(Err(e))
    case Normal(Ok(_)) => Normal(Ok(success))
  }

  /** The two replies differ exactly on an `Err` result. */
  lemma RepliesDifferOnErr(c: Completion<Result<(), string>>, success: string)
    ensures Reply(c, success) != CheckedReply(c, success) <==> c.Normal? && c.value.Err?
  {
  }

  /** With the checked reply, the conflict messages of `create` reach the
      form: a registered name gives `Err("Name already exists")`, a registered
      directory `Err("Directory already exists")`. */
  lemma ConflictsReachTheForm(s: Stores, env: Env, form: ServerForm, createDir: bool, texts: UnitTexts, f: CreateFaults)
    requires f.insert.None?
    ensures HasName(s.rows, form.name) ==>
      CheckedReply(CreateEffect(s, env, form.name, form.dir, createDir, texts, f).value, "Server created")
        == Normal(Err("Name already exists"))
    ensures !HasName(s.rows, form.name) && HasDir(s.rows, form.dir) ==>
      CheckedReply(CreateEffect(s, env, form.name, form.dir, createDir, texts, f).value, "Server created")
        == Normal(Err("Directory already exists"))
  {
    if HasName(s.rows, form.name) {
      CreateNameTaken(s, env, form.name, form.dir, createDir, texts, f);
    } else if HasDir(s.rows, form.dir) {
      CreateDirTaken(s, env, form.name, form.dir, createDir, texts, f);
    }
  }

  // ---------------------------------------------------------------------------
  // The directories offered for import

  /** One entry of `readdir(MINECRAFT_PATH, {withFileTypes: true})`. */
  datatype DirEntry = DirEntry(name: string, isDirectory: bool)

  /** `getDirectories()`: the names of the directory entries, in readdir order. */
  function Directories(entries: seq<DirEntry>): (r: seq<string>)
    ensures forall d :: d in r <==> exists i :: 0 <= i < |entries| && entries[i] == DirEntry(d, true)
  {
    if entries == [] then []
    else
      assert entries == [entries[0]] + entries[1..];
      (if entries[0].isDirectory then [entries[0].name] else []) + Directories(entries[1..])
  }

  /** The listing is a filter then a map, entry by entry: a single entry
      gives its name iff it is a directory, and the names of a concatenated
      listing are the concatenated names, so readdir order and repeats are
      kept. */
  lemma {:induction false} DirectoriesAppend(a: seq<DirEntry>, b: seq<DirEntry>, e: DirEntry)
    ensures Directories([e]) == if e.isDirectory then [e.name] else []
    ensures Directories(a + b) == Directories(a) + Directories(b)
    decreases |a|
  {
    assert [e][1..] == [];
    if a == [] {
      assert a + b == b;
    } else {
      assert (a + b)[0] == a[0];
      assert (a + b)[1..] == a[1..] + b;
      DirectoriesAppend(a[1..], b, e);
    }
  }

  /** The import choices: the directories that no registered server uses, in
      the order given. */
  function ImportChoices(allDirs: seq<string>, servers: seq<Row>): (r: seq<string>)
    ensures |r| <= |allDirs|
  {
    if allDirs == [] then []
    else
      (if !HasDir(servers, allDirs[0]) then [allDirs[0]] else [])
        + ImportChoices(allDirs[1..], servers)
  }

  /** A directory is offered exactly when it is listed and not registered. */
  lemma {:induction false} ImportChoicesMembers(allDirs: seq<string>, servers: seq<Row>, d: string)
    ensures d in ImportChoices(allDirs, servers) <==> d in allDirs && !HasDir(servers, d)
    decreases |allDirs|
  {
    if allDirs != [] {
      assert allDirs == [allDirs[0]] + allDirs[1..];
      ImportChoicesMembers(allDirs[1..], servers, d);
    }
  }

  /** The choices keep the listing's order: the choices of a concatenated
      listing are the concatenated choices. */
  lemma {:induction false} ImportChoicesAppend(a: seq<string>, b: seq<string>, servers: seq<Row>)
    ensures ImportChoices(a + b, servers) == ImportChoices(a, servers) + ImportChoices(b, servers)
    decreases |a|
  {
    if a == [] {
      assert a + b == b;
    } else {
      assert (a + b)[0] == a[0];
      assert (a + b)[1..] == a[1..] + b;
      ImportChoicesAppend(a[1..], b, servers);
    }
  }

  /** What the import button offers for a readdir listing: a name exactly
      when some entry is a directory of that name and no registered server
      uses it. */
  lemma ImportOffered(entries: seq<DirEntry>, servers: seq<Row>, d: string)
    ensures d in ImportChoices(Directories(entries), servers) <==>
      (exists i :: 0 <= i < |entries| && entries[i] == DirEntry(d, true)) && !HasDir(servers, d)
  {
    ImportChoicesMembers(Directories(entries), servers, d);
  }

  /** The Import button is disabled exactly when every listed directory is
      registered. */
  lemma ImportDisabled(allDirs: seq<string>, servers: seq<Row>)
    ensures |ImportChoices(allDirs, servers)| == 0 <==>
      forall i :: 0 <= i < |allDirs| ==> HasDir(servers, allDirs[i])
  {
    var choices := ImportChoices(allDirs, servers);
    if |choices| == 0 {
      forall i | 0 <= i < |allDirs| ensures HasDir(servers, allDirs[i]) {
        ImportChoicesMembers(allDirs, servers, allDirs[i]);
      }
    } else {
      ImportChoicesMembers(allDirs, servers, choices[0]);
      var i :| 0 <= i < |allDirs| && allDirs[i] == choices[0];
    }
  }

  /** Once a directory is imported without failure, it is no longer offered. */
  lemma ImportedDirNotOffered(s: Stores, env: Env, name: string, dir: string, texts: UnitTexts, allDirs: seq<string>)
    requires !HasName(s.rows, name) && !HasDir(s.rows, dir)
    requires ServiceFile(env, dir) != InstanceDir(env, dir) && SocketFile(env, dir) != InstanceDir(env, dir)
    requires ServiceFile(env, dir) in s.fs ==> !s.fs[ServiceFile(env, dir)].Directory?
    requires SocketFile(env, dir) in s.fs ==> !s.fs[SocketFile(env, dir)].Directory?
    ensures dir !in ImportChoices(allDirs, CreateEffect(s, env, name, dir, false, texts, NoCreateFaults).after.rows)
  {
    CreateSucceeds(s, env, name, dir, false, texts);
    var rows := CreateEffect(s, env, name, dir, false, texts, NoCreateFaults).after.rows;
    assert rows[|rows| - 1] == Row(name, dir);
    ImportChoicesMembers(allDirs, rows, dir);
  }
}
