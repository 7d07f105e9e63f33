/** The external stores the instance lifecycle changes: the
    `minecraft-servers` table, the file system and the systemd manager.  Each
    primitive step is a pure function from the stores before to its
    completion and the stores after; a failure of the underlying call that the
    stores alone do not determine (a busy database, a permission error, a
    D-Bus error) is a `fault` parameter. */
module Host {
  import opened Js
  import opened Text

  /** A row of `minecraft-servers`. */
  datatype Row = Row(name: string, dir: string)

  /** What sits at a path: a directory (with the owner `chown` gave it), a
      regular file, or a FIFO (with everything written into it). */
  datatype Node = Directory(owner: Option<(int, int)>) | File(content: string) | Fifo(received: string)

  /** A job request sent to the systemd manager. */
  datatype UnitCall =
    | StartUnit(unit: string, mode: string)
    | RestartUnit(unit: string, mode: string)
    | StopUnit(unit: string, mode: string)
    | LoadUnit(unit: string)

  /** The three stores: table rows in insertion order, the file system by
      path, and the manager requests issued so far. */
  datatype Stores = Stores(rows: seq<Row>, fs: map<string, Node>, calls: seq<UnitCall>)

  /** A step's completion together with the stores it leaves behind. */
  datatype Outcome<+T> = Outcome(value: Completion<T>, after: Stores)

  const UniqueViolation := "SQLITE_CONSTRAINT_UNIQUE"

  /** Both columns are declared UNIQUE. */
  predicate UniqueRows(rows: seq<Row>) {
    forall i, j :: 0 <= i < j < |rows| ==> rows[i].name != rows[j].name && rows[i].dir != rows[j].dir
  }

  predicate HasName(rows: seq<Row>, name: string) {
    exists i :: 0 <= i < |rows| && rows[i].name == name
  }

  predicate HasDir(rows: seq<Row>, dir: string) {
    exists i :: 0 <= i < |rows| && rows[i].dir == dir
  }

  /** The error the table raises for a duplicate value in `column`. */
  function ConstraintFailure(column: string): Exception {
    LibsqlError(UniqueViolation, "UNIQUE constraint failed: minecraft-servers." + column)
  }

  /** `INSERT INTO 'minecraft-servers'(name, dir) VALUES (?, ?)`.  The name
      constraint is checked before the dir constraint. */
  function InsertRow(s: Stores, name: string, dir: string, fault: Option<Exception>): Outcome<()>
  {
    if fault.Some? then Outcome(Throw(fault.value), s)
    else if HasName(s.rows, name) then Outcome(Throw(ConstraintFailure("name")), s)
    else if HasDir(s.rows, dir) then Outcome(Throw(ConstraintFailure("dir")), s)
    else Outcome(Normal(()), s.(rows := s.rows + [Row(name, dir)]))
  }

  /** The rows whose `dir` differs from `dir`, in order. */
  function Without(rows: seq<Row>, dir: string): (r: seq<Row>)
    ensures |r| <= |rows|
    ensures forall i :: 0 <= i < |r| ==> r[i] in rows && r[i].dir != dir
    decreases |rows|
  {
    if rows == [] then []
    else if Last(rows).dir == dir then Without(rows[..|rows| - 1], dir)
    else Without(rows[..|rows| - 1], dir) + [Last(rows)]
  }

  /** `DELETE FROM 'minecraft-servers' WHERE dir=(?)`. */
  function DeleteRows(s: Stores, dir: string, fault: Option<Exception>): Outcome<()>
  {
    if fault.Some? then Outcome(Throw(fault.value), s)
    else Outcome(Normal(()), s.(rows := Without(s.rows, dir)))
  }

  /** `fs.mkdir(path)` (not recursive). */
  function Mkdir(s: Stores, path: string, fault: Option<Exception>): Outcome<()>
  {
    if path in s.fs then Outcome(Throw(SystemError("EEXIST", "EEXIST: file already exists, mkdir '" + path + "'")), s)
    else if fault.Some? then Outcome(Throw(fault.value), s)
    else Outcome(Normal(()), s.(fs := s.fs[path := Directory(None)]))
  }

  /** `fs.chown(path, uid, gid)`; only a directory's owner is tracked. */
  function Chown(s: Stores, path: string, uid: int, gid: int, fault: Option<Exception>): Outcome<()>
  {
    if path !in s.fs then Outcome(Throw(SystemError("ENOENT", "ENOENT: no such file or directory, chown '" + path + "'")), s)
    else if fault.Some? then Outcome(Throw(fault.value), s)
    else if s.fs[path].Directory? then Outcome(Normal(()), s.(fs := s.fs[path := Directory(Some((uid, gid)))]))
    else Outcome(Normal(()), s)
  }

  /** `fs.writeFile(path, content)`: creates or replaces a regular file. */
  function WriteFile(s: Stores, path: string, content: string, fault: Option<Exception>): Outcome<()>
  {
    if path in s.fs && s.fs[path].Directory? then
      Outcome(Throw(SystemError("EISDIR", "EISDIR: illegal operation on a directory, open '" + path + "'")), s)
    else if fault.Some? then Outcome(Throw(fault.value), s)
    else Outcome(Normal(()), s.(fs := s.fs[path := File(content)]))
  }

  /** `p` lies strictly inside the directory `root`. */
  predicate Under(p: string, root: string) {
    |root| + 1 <= |p| && p[..|root| + 1] == root + "/"
  }

  /** `fs.rm(path, {recursive, force})`. */
  function Rm(s: Stores, path: string, recursive: bool, force: bool, fault: Option<Exception>): Outcome<()>
  {
    if path !in s.fs then
      if force then Outcome(Normal(()), s)
      else Outcome(Throw(SystemError("ENOENT", "ENOENT: no such file or directory, lstat '" + path + "'")), s)
    else if s.fs[path].Directory? && !recursive then
      Outcome(Throw(SystemError("ERR_FS_EISDIR", "Path is a directory: rm returned EISDIR (is a directory) " + path)), s)
    else if fault.Some? then Outcome(Throw(fault.value), s)
    else Outcome(Normal(()), s.(fs := map p | p in s.fs && p != path && !(recursive && Under(p, path)) :: s.fs[p]))
  }

  /** `fs.open(path, "w")` followed by one `write(data)`: into a FIFO the
      data is appended to what its reader received; otherwise the path becomes
      a regular file holding exactly `data`. */
  function OpenWrite(s: Stores, path: string, data: string, fault: Option<Exception>): Outcome<()>
  {
    if path in s.fs && s.fs[path].Directory? then
      Outcome(Throw(SystemError("EISDIR", "EISDIR: illegal operation on a directory, open '" + path + "'")), s)
    else if fault.Some? then Outcome(Throw(fault.value), s)
    else if path in s.fs && s.fs[path].Fifo? then
      Outcome(Normal(()), s.(fs := s.fs[path := Fifo(s.fs[path].received + data)]))
    else Outcome(Normal(()), s.(fs := s.fs[path := File(data)]))
  }

  /** A request to the systemd manager; a failing request leaves no trace. */
  function Request(s: Stores, call: UnitCall, fault: Option<Exception>): Outcome<()>
  {
    if fault.Some? then Outcome(Throw(fault.value), s)
    else Outcome(Normal(()), s.(calls := s.calls + [call]))
  }

  // ---------------------------------------------------------------------------
  // Properties of the table steps

  /** Deleting by `dir` keeps exactly the other rows, in order. */
  lemma {:induction false} WithoutKeeps(rows: seq<Row>, dir: string, r: Row)
    ensures r in Without(rows, dir) <==> r in rows && r.dir != dir
    decreases |rows|
  {
    if rows != [] {
      WithoutKeeps(rows[..|rows| - 1], dir, r);
      assert rows == rows[..|rows| - 1] + [Last(rows)];
    }
  }

  /** Deleting a `dir` no row has changes nothing. */
  lemma {:induction false} WithoutAbsent(rows: seq<Row>, dir: string)
    requires !HasDir(rows, dir)
    ensures Without(rows, dir) == rows
    decreases |rows|
  {
    if rows != [] {
      var init := rows[..|rows| - 1];
      WithoutAbsent(init, dir);
      assert Last(rows).dir != dir by { assert rows[|rows| - 1].dir != dir; }
      assert rows == init + [Last(rows)];
    }
  }

  /** Deleting rows preserves both uniqueness constraints. */
  lemma {:induction false} WithoutUnique(rows: seq<Row>, dir: string)
    requires UniqueRows(rows)
    ensures UniqueRows(Without(rows, dir))
    decreases |rows|
  {
    if rows != [] {
      var init := rows[..|rows| - 1];
      assert UniqueRows(init) by {
        forall i, j | 0 <= i < j < |init|
          ensures init[i].name != init[j].name && init[i].dir != init[j].dir
        {
          assert init[i] == rows[i] && init[j] == rows[j];
        }
      }
      WithoutUnique(init, dir);
      if Last(rows).dir != dir {
        var w := Without(init, dir);
        var r := w + [Last(rows)];
        forall i, j | 0 <= i < j < |r|
          ensures r[i].name != r[j].name && r[i].dir != r[j].dir
        {
          if j == |r| - 1 {
            assert r[i] in init by { assert r[i] == w[i]; }
            var k :| 0 <= k < |init| && init[k] == r[i];
            assert rows[k] == r[i] && rows[|rows| - 1] == r[j];
          } else {
            assert r[i] == w[i] && r[j] == w[j];
          }
        }
      }
    }
  }

  /** A successful insert keeps both columns unique; a failed one changes
      nothing. */
  lemma InsertUnique(s: Stores, name: string, dir: string, fault: Option<Exception>)
    requires UniqueRows(s.rows)
    ensures UniqueRows(InsertRow(s, name, dir, fault).after.rows)
    ensures InsertRow(s, name, dir, fault).value.Throw? ==> InsertRow(s, name, dir, fault).after == s
  {
    var o := InsertRow(s, name, dir, fault);
    if o.value.Normal? {
      var r := o.after.rows;
      forall i, j | 0 <= i < j < |r|
        ensures r[i].name != r[j].name && r[i].dir != r[j].dir
      {
        if j == |r| - 1 {
          assert r[i] == s.rows[i];
        }
      }
    }
  }

  /** The live machine: the three stores as mutable fields, changed in place
      by one method per primitive step. */
  class Machine {
    var rows: seq<Row>
    var fs: map<string, Node>
    var calls: seq<UnitCall>

    function Snapshot(): Stores
      reads this
    {
      Stores(rows, fs, calls)
    }

    constructor (initial: Stores)
      ensures Snapshot() == initial
    {
      rows, fs, calls := initial.rows, initial.fs, initial.calls;
    }

    method Insert(name: string, dir: string, fault: Option<Exception>) returns (c: Completion<()>)
      modifies this
      ensures Outcome(c, Snapshot()) == InsertRow(old(Snapshot()), name, dir, fault)
    {
      if fault.Some? {
        return Throw(fault.value);
      }
      if HasName(rows, name) {
        return Throw(ConstraintFailure("name"));
      }
      if HasDir(rows, dir) {
        return Throw(ConstraintFailure("dir"));
      }
      rows := rows + [Row(name, dir)];
      c := Normal(());
    }

    method DeleteWhereDir(dir: string, fault: Option<Exception>) returns (c: Completion<()>)
      modifies this
      ensures Outcome(c, Snapshot()) == DeleteRows(old(Snapshot()), dir, fault)
    {
      if fault.Some? {
        return Throw(fault.value);
      }
      rows := Without(rows, dir);
      c := Normal(());
    }

    method MakeDirectory(path: string, fault: Option<Exception>) returns (c: Completion<()>)
      modifies this
      ensures Outcome(c, Snapshot()) == Mkdir(old(Snapshot()), path, fault)
    {
      if path in fs {
        return Throw(SystemError("EEXIST", "EEXIST: file already exists, mkdir '" + path + "'"));
      }
      if fault.Some? {
        return Throw(fault.value);
      }
      fs := fs[path := Directory(None)];
      c := Normal(());
    }

    method ChangeOwner(path: string, uid: int, gid: int, fault: Option<Exception>) returns (c: Completion<()>)
      modifies this
      ensures Outcome(c, Snapshot()) == Chown(old(Snapshot()), path, uid, gid, fault)
    {
      if path !in fs {
        return Throw(SystemError("ENOENT", "ENOENT: no such file or directory, chown '" + path + "'"));
      }
      if fault.Some? {
        return Throw(fault.value);
      }
      if fs[path].Directory? {
        fs := fs[path := Directory(Some((uid, gid)))];
      }
      c := Normal(());
    }

    method Write(path: string, content: string, fault: Option<Exception>) returns (c: Completion<()>)
      modifies this
      ensures Outcome(c, Snapshot()) == WriteFile(old(Snapshot()), path, content, fault)
    {
      if path in fs && fs[path].Directory? {
        return Throw(SystemError("EISDIR", "EISDIR: illegal operation on a directory, open '" + path + "'"));
      }
      if fault.Some? {
        return Throw(fault.value);
      }
      fs := fs[path := File(content)];
      c := Normal(());
    }

    method Remove(path: string, recursive: bool, force: bool, fault: Option<Exception>) returns (c: Completion<()>)
      modifies this
      ensures Outcome(c, Snapshot()) == Rm(old(Snapshot()), path, recursive, force, fault)
    {
      if path !in fs {
        if force {
          return Normal(());
        }
        return Throw(SystemError("ENOENT", "ENOENT: no such file or directory, lstat '" + path + "'"));
      }
      if fs[path].Directory? && !recursive {
        return Throw(SystemError("ERR_FS_EISDIR", "Path is a directory: rm returned EISDIR (is a directory) " + path));
      }
      if fault.Some? {
        return Throw(fault.value);
      }
      fs := map p | p in fs && p != path && !(recursive && Under(p, path)) :: fs[p];
      c := Normal(());
    }

    method OpenAndWrite(path: string, data: string, fault: Option<Exception>) returns (c: Completion<()>)
      modifies this
      ensures Outcome(c, Snapshot()) == OpenWrite(old(Snapshot()), path, data, fault)
    {
      if path in fs && fs[path].Directory? {
        return Throw(SystemError("EISDIR", "EISDIR: illegal operation on a directory, open '" + path + "'"));
      }
      if fault.Some? {
        return Throw(fault.value);
      }
      if path in fs && fs[path].Fifo? {
        fs := fs[path := Fifo(fs[path].received + data)];
      } else {
        fs := fs[path := File(data)];
      }
      c := Normal(());
    }

    method Send(call: UnitCall, fault: Option<Exception>) returns (c: Completion<()>)
      modifies this
      ensures Outcome(c, Snapshot()) == Request(old(Snapshot()), call, fault)
    {
      if fault.Some? {
        return Throw(fault.value);
      }
      calls := calls + [call];
      c := Normal(());
    }
  }
}
