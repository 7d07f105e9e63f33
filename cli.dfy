/** The `minecraft-server-manager` command line: name parsing, and the
    `create`, `delete`, `start`, `restart` and `stop` commands.  The command
    line keeps no table: it names units and directories after the parsed
    name alone, with its own service-name prefix and fixed paths. */
module Cli {
  import opened Js
  import opened Text
  import opened Host
  import opened MinecraftServer

  const MinecraftRoot := "/minecraft"
  const SystemdDir := "/etc/systemd/system/"
  /** The owner `create` gives a new directory (user and group). */
  const OwnerId := 1001
  const ServiceUser := "minecraft"

  // ---------------------------------------------------------------------------
  // parseName

  /** The character class `[a-z,A-Z-_]`: letters, the comma, the dash and the
      underscore, and no digit. */
  predicate IsNameChar(c: char) {
    IsLower(c) || c == ',' || IsUpper(c) || c == '-' || c == '_'
  }

  /** `parseName`: a name matching `^[a-z,A-Z-_]*$` comes back lower-cased;
      anything else throws `Error("Invalid name")`. */
  function ParseName(name: string): (c: Completion<string>)
    ensures c.Normal? <==> forall i :: 0 <= i < |name| ==> IsNameChar(name[i])
    ensures c.Normal? ==> c.value == Lower(name) && |c.value| == |name|
    ensures c.Throw? ==> c.exc == Error("Invalid name")
  {
    if forall i :: 0 <= i < |name| ==> IsNameChar(name[i]) then Normal(Lower(name))
    else Throw(Error("Invalid name"))
  }

  /** The pattern uses `*`, so the empty name is accepted; the comma is in the
      class; a digit anywhere is rejected. */
  lemma ParseNameCorners(name: string, i: nat)
    ensures ParseName("") == Normal("")
    ensures ParseName("a,b") == Normal("a,b")
    ensures i < |name| && IsDigit(name[i]) ==> ParseName(name) == Throw(Error("Invalid name"))
  {
    var commas := "a,b";
    assert forall k :: 0 <= k < |commas| ==> IsNameChar(commas[k]);
    assert Lower(commas) == commas;
  }

  /** A parsed name parses again to itself. */
  lemma ParseNameIdempotent(name: string)
    requires ParseName(name).Normal?
    ensures ParseName(ParseName(name).value) == ParseName(name)
  {
    var lowered := Lower(name);
    assert forall i :: 0 <= i < |lowered| ==> IsNameChar(lowered[i]);
    assert Lower(lowered) == lowered;
  }

  // ---------------------------------------------------------------------------
  // Names and paths

  /** The command line's service name: `"minecraft-" + name`. */
  function CliServiceName(name: string): string
  {
    "minecraft-" + name
  }

  /** The command line's prefix differs from the web application's: the two
      name the same unit exactly when the command-line name is `"server-"`
      followed by the web directory. */
  lemma ServiceNamesCollide(name: string, dir: string)
    ensures CliServiceName(name) == ServiceName(dir) <==> name == "server-" + dir
  {
    assert ServiceName(dir) == "minecraft-" + ("server-" + dir);
    if CliServiceName(name) == ServiceName(dir) {
      assert name == CliServiceName(name)[10..];
      assert ("minecraft-" + ("server-" + dir))[10..] == "server-" + dir;
    }
  }

  /** `path.join("/minecraft", name)` */
  function CliDir(name: string): string
  {
    JoinPath(MinecraftRoot, name)
  }

  function CliServiceFile(name: string): string { SystemdDir + CliServiceName(name) + ".service" }
  function CliSocketFile(name: string): string { SystemdDir + CliServiceName(name) + ".socket" }

  /** The unit directory ends in "/", so the plain concatenation the command
      line uses is the path `path.join` would give; the empty name is the
      root directory itself. */
  lemma CliPaths(name: string)
    ensures CliServiceFile(name) == JoinPath(SystemdDir, CliServiceName(name) + ".service")
    ensures CliSocketFile(name) == JoinPath(SystemdDir, CliServiceName(name) + ".socket")
    ensures CliDir(name) == if name == "" then "/minecraft" else "/minecraft/" + name
  {
    assert Last(SystemdDir) == '/';
    assert SystemdDir + CliServiceName(name) + ".service" == SystemdDir + (CliServiceName(name) + ".service");
    assert SystemdDir + CliServiceName(name) + ".socket" == SystemdDir + (CliServiceName(name) + ".socket");
    assert Last(MinecraftRoot) == 't';
  }

  // ---------------------------------------------------------------------------
  // create

  /** The unit files the command line renders: the web template, with the
      fixed user "minecraft" and the command line's service name. */
  function CliRenderUnits(name: string): UnitTexts
  {
    UnitTexts(ServiceUnit(name, CliDir(name), CliServiceName(name), ServiceUser), SocketUnit(CliServiceName(name)))
  }

  datatype CliCreateFaults = CliCreateFaults(
    mkdir: Option<Exception>, chown: Option<Exception>,
    writeService: Option<Exception>, writeSocket: Option<Exception>)

  const NoCliCreateFaults := CliCreateFaults(None, None, None, None)

  /** `create(name)`, step by step, for unit files rendered as `texts`: every
      failure, an existing directory included, propagates. */
  function CliCreateEffect(s: Stores, name: string, texts: UnitTexts, f: CliCreateFaults): Outcome<()>
  {
    var made := Mkdir(s, CliDir(name), f.mkdir);
    if made.value.Throw? then made
    else
      var owned := Chown(made.after, CliDir(name), OwnerId, OwnerId, f.chown);
      if owned.value.Throw? then owned
      else
        var w1 := WriteFile(owned.after, CliServiceFile(name), texts.service, f.writeService);
        if w1.value.Throw? then w1
        else WriteFile(w1.after, CliSocketFile(name), texts.socket, f.writeSocket)
  }

  method CliCreate(m: Machine, name: string, f: CliCreateFaults) returns (c: Completion<()>)
    modifies m
    ensures Outcome(c, m.Snapshot()) == CliCreateEffect(old(m.Snapshot()), name, CliRenderUnits(name), f)
  {
    var texts := CliRenderUnits(name);
    c := m.MakeDirectory(CliDir(name), f.mkdir);
    if c.Throw? {
      return;
    }
    c := m.ChangeOwner(CliDir(name), OwnerId, OwnerId, f.chown);
    if c.Throw? {
      return;
    }
    c := m.Write(CliServiceFile(name), texts.service, f.writeService);
    if c.Throw? {
      return;
    }
    c := m.Write(CliSocketFile(name), texts.socket, f.writeSocket);
  }

  /** An existing directory makes `create` fail with `EEXIST` before anything
      changes. */
  lemma CliCreateExistingDir(s: Stores, name: string, texts: UnitTexts, f: CliCreateFaults)
    requires CliDir(name) in s.fs
    ensures var o := CliCreateEffect(s, name, texts, f);
      o.after == s && o.value.Throw? && o.value.exc.HasCode("EEXIST")
  {
  }

  /** Without failures, `create` leaves the owned directory and both unit
      files, and never registers the server in the table. */
  lemma CliCreateSucceeds(s: Stores, name: string, texts: UnitTexts)
    requires CliDir(name) !in s.fs
    requires CliServiceFile(name) in s.fs ==> !s.fs[CliServiceFile(name)].Directory?
    requires CliSocketFile(name) in s.fs ==> !s.fs[CliSocketFile(name)].Directory?
    ensures var o := CliCreateEffect(s, name, texts, NoCliCreateFaults);
      && o.value.Normal?
      && o.after.rows == s.rows && o.after.calls == s.calls
      && o.after.fs[CliDir(name)] == Directory(Some((OwnerId, OwnerId)))
      && o.after.fs[CliServiceFile(name)] == File(texts.service)
      && o.after.fs[CliSocketFile(name)] == File(texts.socket)
  {
    CliPaths(name);
    assert CliServiceFile(name)[..14] == "/etc/systemd/s";
    assert CliSocketFile(name)[..14] == "/etc/systemd/s";
    assert CliDir(name)[..2] == "/m";
    assert CliServiceFile(name) != CliDir(name) by { assert CliServiceFile(name)[1] != CliDir(name)[1]; }
    assert CliSocketFile(name) != CliDir(name) by { assert CliSocketFile(name)[1] != CliDir(name)[1]; }
    assert CliServiceFile(name) != CliSocketFile(name) by {
      assert CliServiceFile(name)[|CliServiceFile(name)| - 2] != CliSocketFile(name)[|CliSocketFile(name)| - 2];
    }
  }

  // ---------------------------------------------------------------------------
  // delete, start, restart, stop

  datatype CliDeleteFaults = CliDeleteFaults(stop: Option<Exception>, rmService: Option<Exception>, rmSocket: Option<Exception>)

  const NoCliDeleteFaults := CliDeleteFaults(None, None, None)

  /** `systemctl <verb> minecraft-<name>`: one job for the `.service` unit of
      that name, in systemctl's default mode "replace"; a failing command is
      the fault. */
  function CliJob(s: Stores, call: UnitCall, fault: Option<Exception>): Outcome<()>
  {
    Request(s, call, fault)
  }

  /** `delete(name)`: stop the service, then remove the two unit files with
      a plain `fs.rm`, so a missing file is an error. */
  function CliDeleteEffect(s: Stores, name: string, f: CliDeleteFaults): Outcome<()>
  {
    var stopped := CliJob(s, StopUnit(CliServiceName(name) + ".service", "replace"), f.stop);
    if stopped.value.Throw? then stopped
    else
      var r1 := Rm(stopped.after, CliServiceFile(name), false, false, f.rmService);
      if r1.value.Throw? then r1
      else Rm(r1.after, CliSocketFile(name), false, false, f.rmSocket)
  }

  method CliDelete(m: Machine, name: string, f: CliDeleteFaults) returns (c: Completion<()>)
    modifies m
    ensures Outcome(c, m.Snapshot()) == CliDeleteEffect(old(m.Snapshot()), name, f)
  {
    c := m.Send(StopUnit(CliServiceName(name) + ".service", "replace"), f.stop);
    if c.Throw? {
      return;
    }
    c := m.Remove(CliServiceFile(name), false, false, f.rmService);
    if c.Throw? {
      return;
    }
    c := m.Remove(CliSocketFile(name), false, false, f.rmSocket);
  }

  /** A missing service unit file makes `delete` fail with `ENOENT` once the
      service is stopped, leaving the socket unit file in place. */
  lemma CliDeleteMissingUnit(s: Stores, name: string, f: CliDeleteFaults)
    requires f.stop.None? && CliServiceFile(name) !in s.fs
    ensures var o := CliDeleteEffect(s, name, f);
      && o.value.Throw? && o.value.exc.HasCode("ENOENT")
      && o.after.fs == s.fs
  {
  }

  /** Deleting twice: after a `delete` that completed, a second one without
      failures fails with `ENOENT`, unlike the web application's `_delete`. */
  lemma CliDeleteTwiceFails(s: Stores, name: string, f: CliDeleteFaults)
    requires f.rmService.None? && f.rmSocket.None?
    requires CliDeleteEffect(s, name, f).value.Normal?
    ensures var once := CliDeleteEffect(s, name, f);
      var twice := CliDeleteEffect(once.after, name, NoCliDeleteFaults);
      twice.value.Throw? && twice.value.exc.HasCode("ENOENT")
  {
    var once := CliDeleteEffect(s, name, f);
    assert CliServiceFile(name) != CliSocketFile(name) by {
      assert CliServiceFile(name)[|CliServiceFile(name)| - 2] != CliSocketFile(name)[|CliSocketFile(name)| - 2];
    }
    assert CliServiceFile(name) !in once.after.fs;
    CliDeleteMissingUnit(once.after, name, NoCliDeleteFaults);
  }

  method CliStart(m: Machine, name: string, fault: Option<Exception>) returns (c: Completion<()>)
    modifies m
    ensures Outcome(c, m.Snapshot()) == CliJob(old(m.Snapshot()), StartUnit(CliServiceName(name) + ".service", "replace"), fault)
  {
    c := m.Send(StartUnit(CliServiceName(name) + ".service", "replace"), fault);
  }

  method CliRestart(m: Machine, name: string, fault: Option<Exception>) returns (c: Completion<()>)
    modifies m
    ensures Outcome(c, m.Snapshot()) == CliJob(old(m.Snapshot()), RestartUnit(CliServiceName(name) + ".service", "replace"), fault)
  {
    c := m.Send(RestartUnit(CliServiceName(name) + ".service", "replace"), fault);
  }

  method CliStop(m: Machine, name: string, fault: Option<Exception>) returns (c: Completion<()>)
    modifies m
    ensures Outcome(c, m.Snapshot()) == CliJob(old(m.Snapshot()), StopUnit(CliServiceName(name) + ".service", "replace"), fault)
  {
    c := m.Send(StopUnit(CliServiceName(name) + ".service", "replace"), fault);
  }
}
