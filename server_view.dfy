/** One server's entry on the list page: its status label and icon, the
    buttons it offers, the delete form's validation, and the server actions
    behind the buttons. */
module ServerView {
  import opened Js
  import opened Text
  import opened Results
  import opened Host
  import opened Autofill
  import opened MinecraftServer
  import opened HomePage

  // ---------------------------------------------------------------------------
  // Status

  /** The unit states the page knows. */
  datatype ActiveState = Active | Inactive | Deactivating | Failed

  /** The `ActiveState` property value of each state. */
  function StateName(st: ActiveState): string
  {
    match st
    case Active => "active"
    case Inactive => "inactive"
    case Deactivating => "deactivating"
    case Failed => "failed"
  }

  /** The state a property value names, if the page knows it. */
  function ParseState(status: string): (r: Option<ActiveState>)
    ensures r.Some? ==> StateName(r.value) == status
  {
    if status == "active" then Some(Active)
    else if status == "inactive" then Some(Inactive)
    else if status == "deactivating" then Some(Deactivating)
    else if status == "failed" then Some(Failed)
    else None
  }

  /** Every state's name reads back as that state, so the names are distinct. */
  lemma StateNameRoundTrip(st: ActiveState)
    ensures ParseState(StateName(st)) == Some(st)
  {
  }

  /** The `Status` record: the label shown beside the icon. */
  function Label(st: ActiveState): string
  {
    match st
    case Active => "Active"
    case Inactive => "Inactive"
    case Deactivating => "Deactivating"
    case Failed => "Failed"
  }

  /** Each label is its state's name, capitalized. */
  lemma LabelIsCapitalizedName(st: ActiveState)
    ensures Label(st) == Capitalize(StateName(st))
  {
    var name := StateName(st);
    assert Capitalize(name) == [UpperAscii(name[0])] + name[1..];
  }

  datatype Icon = Green | Red

  /** `StatusIcon`: green for "active", red for the three other known states,
      and an `Error("Unknown status: …")` for any other value. */
  function StatusIcon(status: string): (c: Completion<Icon>)
    ensures c == Normal(Green) <==> status == "active"
    ensures c == Normal(Red) <==> status == "inactive" || status == "deactivating" || status == "failed"
    ensures c.Throw? ==> c.exc == Error("Unknown status: " + status)
  {
    match ParseState(status)
    case Some(Active) => Normal(Green)
    case Some(_) => Normal(Red)
    case None => Throw(Error("Unknown status: " + status))
  }

  /** The icon renders exactly for the states the page knows; any other value
      `getStatus` passes through unchecked makes it throw. */
  lemma IconRendersKnownStates(status: string)
    ensures StatusIcon(status).Normal? <==> ParseState(status).Some?
  {
  }

  // ---------------------------------------------------------------------------
  // Buttons

  datatype Controls = Controls(restartOffered: bool, stopDisabled: bool)

  /** The buttons: Restart in place of Start, and Stop enabled, exactly when
      the status is "active". */
  function ControlsFor(status: string): (r: Controls)
    ensures r.restartOffered <==> status == "active"
    ensures r.stopDisabled <==> status != "active"
  {
    Controls(status == "active", status != "active")
  }

  /** Stop is enabled exactly when Restart is offered, and both go with the
      green icon. */
  lemma ControlsAgreeWithIcon(status: string)
    ensures ControlsFor(status).stopDisabled <==> !ControlsFor(status).restartOffered
    ensures ControlsFor(status).restartOffered <==> StatusIcon(status) == Normal(Green)
  {
  }

  // ---------------------------------------------------------------------------
  // deleteServer.validate and deleteServer

  datatype DeleteForm = DeleteForm(dir: string, removeFiles: bool)

  /** `deleteServer.validate`: a `FormData` whose `dir` is a string; the
      directory is not checked any further, and `removeFiles` holds exactly
      when that field is the string "on". */
  function ValidateDeleteForm(input: FormInput): (r: Result<DeleteForm, string>)
    ensures r.Err? <==> input.NotFormData? || StringField(input.entries, "dir").None?
    ensures r.Err? ==> r.err == "Invalid form data"
    ensures r.Ok? ==>
      && input.FormData?
      && r.val.dir == StringField(input.entries, "dir").value
      && (r.val.removeFiles <==> Get(input.entries, "removeFiles") == Some(TextEntry("on")))
  {
    match input
    case NotFormData(_) => Err("Invalid form data")
    case FormData(entries) =>
      match StringField(entries, "dir")
      case None => Err("Invalid form data")
      case Some(dir) => Ok(DeleteForm(dir, Get(entries, "removeFiles") == Some(TextEntry("on"))))
  }

  /** The form as the page renders it: the hidden `dir` input, then the
      checkbox, which submits "on" only when checked. */
  lemma CheckboxDecidesRemoveFiles(dir: string, checked: bool)
    ensures var entries := [("dir", TextEntry(dir))] + (if checked then [("removeFiles", TextEntry("on"))] else []);
      ValidateDeleteForm(FormData(entries)) == Ok(DeleteForm(dir, checked))
  {
    var entries := [("dir", TextEntry(dir))] + (if checked then [("removeFiles", TextEntry("on"))] else []);
    GetFindsFirst(entries, "dir", 0);
    assert StringField(entries, "dir") == Some(dir);
    assert entries[0].0 != "removeFiles" by { assert "dir"[0] != "removeFiles"[0]; }
    if checked {
      GetFindsFirst(entries, "removeFiles", 1);
    }
  }

  /** `deleteServer({dir, removeFiles})`: `_delete`, then "Server deleted";
      an exception from `_delete` propagates. */
  method DeleteServer(m: Machine, env: Env, form: DeleteForm, f: DeleteFaults)
    returns (r: Completion<Result<string, string>>)
    modifies m
    ensures var o := DeleteEffect(old(m.Snapshot()), env, form.dir, form.removeFiles, f);
      && m.Snapshot() == o.after
      && (o.value.Throw? ==> r == Throw(o.value.exc))
      && (o.value.Normal? ==> r == Normal(Ok("Server deleted")))
  {
    var c := Delete(m, env, form.dir, form.removeFiles, f);
    match c {
      case Throw(e) => r := Throw(e);
      case Normal(_) => r := Normal(Ok("Server deleted"));
    }
  }

  // ---------------------------------------------------------------------------
  // startServer, restartServer and stopServer

  /** `if (typeof dir !== "string") throw new Error("Invalid dir")` */
  function GuardDir(dir: JsValue): (c: Completion<string>)
    ensures c.Normal? <==> TypeOf(dir) == "string"
    ensures c.Normal? ==> dir == Str(c.value)
    ensures c.Throw? ==> c.exc == Error("Invalid dir")
  {
    match dir
    case Str(s) => Normal(s)
    case _ => Throw(Error("Invalid dir"))
  }

  /** `startServer(dir)`: a non-string `dir` throws before any request. */
  method StartServer(m: Machine, dir: JsValue, fault: Option<Exception>) returns (c: Completion<()>)
    modifies m
    ensures !dir.Str? ==> c == Throw(Error("Invalid dir")) && m.Snapshot() == old(m.Snapshot())
    ensures dir.Str? ==> Outcome(c, m.Snapshot()) == UnitJob(old(m.Snapshot()), StartUnit(ServiceName(dir.s) + ".service", "replace"), fault)
  {
    var guarded := GuardDir(dir);
    if guarded.Throw? {
      return Throw(guarded.exc);
    }
    c := Start(m, guarded.value, fault);
  }

  /** `restartServer(dir)`: a non-string `dir` throws before any request. */
  method RestartServer(m: Machine, dir: JsValue, fault: Option<Exception>) returns (c: Completion<()>)
    modifies m
    ensures !dir.Str? ==> c == Throw(Error("Invalid dir")) && m.Snapshot() == old(m.Snapshot())
    ensures dir.Str? ==> Outcome(c, m.Snapshot()) == UnitJob(old(m.Snapshot()), RestartUnit(ServiceName(dir.s) + ".service", "replace"), fault)
  {
    var guarded := GuardDir(dir);
    if guarded.Throw? {
      return Throw(guarded.exc);
    }
    c := Restart(m, guarded.value, fault);
  }

  /** `stopServer(dir)`: a non-string `dir` throws before any request. */
  method StopServer(m: Machine, dir: JsValue, fault: Option<Exception>) returns (c: Completion<()>)
    modifies m
    ensures !dir.Str? ==> c == Throw(Error("Invalid dir")) && m.Snapshot() == old(m.Snapshot())
    ensures dir.Str? ==> Outcome(c, m.Snapshot()) == UnitJob(old(m.Snapshot()), StopUnit(ServiceName(dir.s) + ".service", "replace"), fault)
  {
    var guarded := GuardDir(dir);
    if guarded.Throw? {
      return Throw(guarded.exc);
    }
    c := Stop(m, guarded.value, fault);
  }
}
