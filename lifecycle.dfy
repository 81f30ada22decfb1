/**
  The `BaseManager` state machine as functions of the device's state:
  `present`, `update`, `create`, `absent`, `remove`, `install_on_device`
  and `exec_module`, over a device abstracted as the set of UCS files it
  holds and the log of the changes the module asked of it. The classes in
  module `Managers` are proved to follow these functions step for step.
 */
module Lifecycle {
  import opened Wrappers
  import opened Text
  import opened Ordering
  import opened Version
  import opened UcsParameters
  import opened ReloadWatcher
  import opened Responses

  /** A change the module asks of the device. */
  datatype Command =
    | Upload(name: string)    // upload_file and the move into /var/local/ucs
    | Delete(name: string)    // tmsh delete sys ucs <name>
    | Load(command: string)   // the install command

  datatype DeviceState = DeviceState(files: set<string>, issued: seq<Command>)

  /** How the device answers during one run. */
  datatype Env = Env(
    uploadError: Option<string>,    // the IOError `upload_file` raises, if any
    uploadTakesEffect: bool,        // the moved file shows up in /var/local/ucs
    deleteTakesEffect: bool,        // the delete removes the file
    deleteOutput: Option<string>,   // the delete's `commandResult`
    installError: Option<string>,   // what the load command raises, if anything
    reconnects: seq<bool>,          // whether reconnect attempt k succeeds
    probes: seq<Probe>)             // the answers to `tmsh show sys mcp-state`, in order

  /** How a manager call ends: its `changed` value, an F5ModuleError, or a reload wait still polling. */
  datatype Outcome = Changed(changed: bool) | Raised(message: string) | StillPolling

  datatype Step = Step(outcome: Outcome, after: DeviceState)

  /** What stays fixed during one run: the arguments, check mode, the API dialect and the device's answers. */
  datatype Run = Run(want: Params, checkMode: bool, tier: Tier, env: Env)

  const UploadFailedMessage := "Failed to upload the UCS file"
  const DeleteFailedMessage := "Failed to delete the UCS file"

  function Name(run: Run): string
  {
    Basename(run.want.ucs)
  }

  /** `exists()` on the device in state `s`. */
  predicate Exists(run: Run, s: DeviceState)
    ensures Name(run) in s.files ==> Exists(run, s)
    ensures Name(run) != [] ==> (Exists(run, s) <==> Name(run) in s.files)
    ensures run.tier == V2 ==> (Exists(run, s) <==> Name(run) in s.files)
  {
    ReportsPresent(run.tier, s.files, Name(run))
  }

  /** The device after the upload and the move of `name` (no IOError raised). */
  function Uploaded(env: Env, name: string, s: DeviceState): (t: DeviceState)
    ensures t.issued == s.issued + [Upload(name)]
    ensures s.files <= t.files && t.files - s.files <= {name}
    ensures name in t.files <==> name in s.files || (env.uploadTakesEffect && ValidUcsName(name))
  {
    DeviceState(if env.uploadTakesEffect && ValidUcsName(name) then s.files + {name} else s.files,
                s.issued + [Upload(name)])
  }

  /** The device after `tmsh delete sys ucs <name>`. */
  function Deleted(env: Env, name: string, s: DeviceState): (t: DeviceState)
    ensures t.issued == s.issued + [Delete(name)]
    ensures t.files <= s.files && s.files - t.files <= {name}
    ensures name in t.files <==> name in s.files && !env.deleteTakesEffect
  {
    DeviceState(if env.deleteTakesEffect then s.files - {name} else s.files, s.issued + [Delete(name)])
  }

  /** The device after the load command has been sent. */
  function Loaded(command: string, s: DeviceState): (t: DeviceState)
    ensures t.files == s.files && t.issued == s.issued + [Load(command)]
  {
    DeviceState(s.files, s.issued + [Load(command)])
  }

  /** Reconnect attempt `k` (from 0) succeeds. */
  predicate ReconnectSucceeds(env: Env, k: nat)
  {
    k < |env.reconnects| && env.reconnects[k]
  }

  /** The reconnect wait (which never raises), then the reload wait. */
  function AfterLoad(run: Run, s: DeviceState): (r: Step)
    ensures r.after == s
    ensures r.outcome.Changed? <==> ReloadResult(run.env.probes).Reloaded?
    ensures r.outcome.Changed? ==> r.outcome.changed
    ensures r.outcome.Raised? <==> ReloadResult(run.env.probes).ReloadFailed?
    ensures r.outcome.Raised? ==> r.outcome.message == ReloadResult(run.env.probes).message
  {
    match ReloadResult(run.env.probes)
    case Reloaded(_) => Step(Changed(true), s)
    case ReloadFailed(_, message) => Step(Raised(message), s)
    case StillWaiting(_) => Step(StillPolling, s)
  }

  /**
    `install_on_device`: building the command and sending it share one
    `try`; an error naming an aborted connection or a timeout is let
    through, any other is raised again with the same message.
   */
  function InstallStep(run: Run, s: DeviceState): (r: Step)
    ensures r.after.files == s.files
    ensures r.outcome != Changed(false)
    ensures r.outcome.Changed? ==> ReloadResult(run.env.probes).Reloaded?
  {
    match InstallCommandOf(run.want)
    case Failure(message) =>
      if IsBenignInstallError(message) then AfterLoad(run, s) else Step(Raised(message), s)
    case Success(command) =>
      var loaded := Loaded(command, s);
      if run.env.installError.Some? && !IsBenignInstallError(run.env.installError.value) then
        Step(Raised(run.env.installError.value), loaded)
      else AfterLoad(run, loaded)
  }

  /** `create`: upload, check that the file arrived, then install when asked to. */
  function CreateStep(run: Run, s: DeviceState): (r: Step)
    ensures r.outcome != Changed(false)
    ensures run.checkMode ==> r.after == s
    ensures !run.checkMode && r.outcome.Changed? ==> Exists(run, r.after)
  {
    if run.checkMode then Step(Changed(true), s)
    else if run.env.uploadError.Some? then Step(Raised(run.env.uploadError.value), s)
    else
      var uploaded := Uploaded(run.env, Name(run), s);
      if !Exists(run, uploaded) then Step(Raised(UploadFailedMessage), uploaded)
      else if run.want.state == Installed then
        var installed := InstallStep(run, uploaded);
        if installed.outcome.Changed? then Step(Changed(true), installed.after) else installed
      else Step(Changed(true), uploaded)
  }

  /** `remove`: delete, then check that the file is gone. */
  function RemoveStep(run: Run, s: DeviceState): (r: Step)
    ensures r.outcome == Changed(true) || r.outcome == Raised(DeleteFailedMessage)
    ensures run.checkMode ==> r.after == s
    ensures !run.checkMode && r.outcome.Changed? ==> !Exists(run, r.after)
  {
    if run.checkMode then Step(Changed(true), s)
    else
      var deleted := Deleted(run.env, Name(run), s);
      if Exists(run, deleted) then Step(Raised(DeleteFailedMessage), deleted)
      else Step(Changed(true), deleted)
  }

  /** `update`: the file is already there. */
  function UpdateStep(run: Run, s: DeviceState): (r: Step)
    ensures run.checkMode ==> r.after == s
    ensures r.outcome == Changed(false) ==> r.after == s
  {
    if run.checkMode then Step(Changed(run.want.force), s)
    else if run.want.force then
      var removed := RemoveStep(run, s);
      if removed.outcome.Changed? then CreateStep(run, removed.after) else removed
    else if run.want.state == Installed then InstallStep(run, s)
    else Step(Changed(false), s)
  }

  function PresentStep(run: Run, s: DeviceState): (r: Step)
    ensures run.checkMode ==> r.after == s
    ensures r.outcome == Changed(false) ==> r.after == s
  {
    if Exists(run, s) then UpdateStep(run, s) else CreateStep(run, s)
  }

  function AbsentStep(run: Run, s: DeviceState): (r: Step)
    ensures run.checkMode ==> r.after == s
    ensures r.outcome == Changed(false) ==> r.after == s && !Exists(run, s)
  {
    if Exists(run, s) then RemoveStep(run, s) else Step(Changed(false), s)
  }

  /** `BaseManager.exec_module`: `present` for the states present and installed, `absent` otherwise. */
  function RunStep(run: Run, s: DeviceState): (r: Step)
    ensures run.checkMode ==> r.after == s
    ensures r.outcome == Changed(false) ==> r.after == s
  {
    if run.want.state == Present || run.want.state == Installed then PresentStep(run, s)
    else AbsentStep(run, s)
  }

  /** `ModuleManager.exec_module`: the dialect follows the device's version. */
  function ModuleStep(want: Params, checkMode: bool, version: seq<nat>, env: Env, s: DeviceState): (r: Step)
    ensures SeqLess(version, FirstV2Version) ==> r == RunStep(Run(want, checkMode, V1, env), s)
    ensures !SeqLess(version, FirstV2Version) ==> r == RunStep(Run(want, checkMode, V2, env), s)
    ensures r == RunStep(Run(want, checkMode, SelectTier(version), env), s)
  {
    RunStep(Run(want, checkMode, if IsVersionV1(version) then V1 else V2, env), s)
  }

  // ---------------------------------------------------------------------
  // What a run promises.
  // ---------------------------------------------------------------------

  /** Every file on the device has a name it can list. */
  predicate ValidFiles(s: DeviceState)
  {
    forall f :: f in s.files ==> ValidUcsName(f)
  }

  /** `t` extends `s`'s log, and every load it added is the install command sent in state installed. */
  predicate LogExtends(run: Run, s: DeviceState, t: DeviceState)
  {
    && |s.issued| <= |t.issued| && t.issued[..|s.issued|] == s.issued
    && forall k :: |s.issued| <= k < |t.issued| && t.issued[k].Load? ==>
         run.want.state == Installed && InstallCommandOf(run.want) == Success(t.issued[k].command)
  }

  lemma LogExtendsTrans(run: Run, s: DeviceState, t: DeviceState, u: DeviceState)
    requires LogExtends(run, s, t) && LogExtends(run, t, u)
    ensures LogExtends(run, s, u)
  {
    assert u.issued[..|s.issued|] == u.issued[..|t.issued|][..|s.issued|];
  }

  lemma InstallLogs(run: Run, s: DeviceState)
    requires run.want.state == Installed
    ensures LogExtends(run, s, InstallStep(run, s).after)
  {
    InstalledAlwaysBuilds(run.want);
    assert Loaded(InstallCommandOf(run.want).value, s).issued[..|s.issued|] == s.issued;
  }

  lemma CreateLogs(run: Run, s: DeviceState)
    ensures LogExtends(run, s, CreateStep(run, s).after)
  {
    if !run.checkMode && run.env.uploadError.None? {
      var uploaded := Uploaded(run.env, Name(run), s);
      assert uploaded.issued[..|s.issued|] == s.issued;
      assert LogExtends(run, s, uploaded);
      if Exists(run, uploaded) && run.want.state == Installed {
        var installed := InstallStep(run, uploaded).after;
        InstallLogs(run, uploaded);
        LogExtendsTrans(run, s, uploaded, installed);
        assert CreateStep(run, s).after == installed;
      } else {
        assert CreateStep(run, s).after == uploaded;
      }
    }
  }

  lemma RemoveLogs(run: Run, s: DeviceState)
    ensures LogExtends(run, s, RemoveStep(run, s).after)
  {
    if !run.checkMode {
      assert Deleted(run.env, Name(run), s).issued[..|s.issued|] == s.issued;
    }
  }

  /** A run only ever adds to the log, and it sends a load only in state installed, as the install command. */
  lemma {:induction false} LoadOnlyWhenInstalled(run: Run, s: DeviceState)
    ensures LogExtends(run, s, RunStep(run, s).after)
  {
    assert s.issued[..|s.issued|] == s.issued;
    if run.want.state != Absent && Exists(run, s) {
      if !run.checkMode && run.want.force {
        var removed := RemoveStep(run, s);
        RemoveLogs(run, s);
        if removed.outcome.Changed? {
          CreateLogs(run, removed.after);
          LogExtendsTrans(run, s, removed.after, CreateStep(run, removed.after).after);
        }
      } else if !run.checkMode && run.want.state == Installed {
        InstallLogs(run, s);
      }
    } else if run.want.state != Absent {
      CreateLogs(run, s);
    } else if Exists(run, s) {
      RemoveLogs(run, s);
    }
  }

  /** In check mode the device is left alone; `create` and `remove` report a change, `update` reports `force`. */
  lemma CheckModeReadOnly(run: Run, s: DeviceState)
    requires run.checkMode
    ensures RunStep(run, s).after == s
    ensures RunStep(run, s).outcome
         == Changed(if run.want.state == Absent then Exists(run, s)
                    else if Exists(run, s) then run.want.force else true)
  {
  }

  /** `absent` on a missing file reports no change and sends no delete. */
  lemma AbsentOnMissing(run: Run, s: DeviceState)
    requires run.want.state == Absent && !Exists(run, s)
    ensures RunStep(run, s) == Step(Changed(false), s)
  {
  }

  /** `present` on a file already there, without `force`, reports no change and changes nothing. */
  lemma PresentOnExisting(run: Run, s: DeviceState)
    requires run.want.state == Present && !run.want.force && Exists(run, s)
    ensures RunStep(run, s) == Step(Changed(false), s)
  {
  }

  /** Two `present` runs in a row: the second one finds the file and changes nothing. */
  lemma PresentTwice(run: Run, s: DeviceState)
    requires run.want.state == Present && !run.want.force && !run.checkMode
    requires RunStep(run, s).outcome.Changed?
    ensures Exists(run, RunStep(run, s).after)
    ensures RunStep(run, RunStep(run, s).after) == Step(Changed(false), RunStep(run, s).after)
  {
    var t := RunStep(run, s).after;
    if !Exists(run, s) {
      assert Exists(run, t);
    }
    PresentOnExisting(run, t);
  }

  /** Outside check mode a reported change was checked on the device: the file is there, or gone for `absent`. */
  lemma ChangedMeansVerified(run: Run, s: DeviceState)
    requires !run.checkMode && RunStep(run, s).outcome == Changed(true)
    ensures run.want.state != Absent ==> Exists(run, RunStep(run, s).after)
    ensures run.want.state == Absent ==> !Exists(run, RunStep(run, s).after)
  {
  }

  /** No change reported means nothing was sent to the device. */
  lemma UnchangedMeansUntouched(run: Run, s: DeviceState)
    requires RunStep(run, s).outcome == Changed(false)
    ensures RunStep(run, s).after == s
  {
    CreateNeverUnchanged(run, s);
    CreateNeverUnchanged(run, RemoveStep(run, s).after);
  }

  /** `create` never reports "no change". */
  lemma CreateNeverUnchanged(run: Run, s: DeviceState)
    ensures CreateStep(run, s).outcome != Changed(false)
  {
  }

  /** An upload that leaves no file behind raises. */
  lemma UploadWithoutEffectRaises(run: Run, s: DeviceState)
    requires run.want.state != Absent && !run.checkMode && !Exists(run, s)
    requires run.env.uploadError.None? && !run.env.uploadTakesEffect
    ensures RunStep(run, s).outcome == Raised(UploadFailedMessage)
    ensures RunStep(run, s).after == Uploaded(run.env, Name(run), s)
  {
  }

  /** A delete that leaves the file behind raises. */
  lemma DeleteWithoutEffectRaises(run: Run, s: DeviceState)
    requires run.want.state == Absent && !run.checkMode && Exists(run, s) && !run.env.deleteTakesEffect
    ensures RunStep(run, s) == Step(Raised(DeleteFailedMessage), Deleted(run.env, Name(run), s))
  {
  }

  /** `force` on a file already there deletes it and uploads it again. */
  lemma ForceRecreates(run: Run, s: DeviceState)
    requires run.want.state == Present && run.want.force && !run.checkMode && Exists(run, s)
    requires ValidUcsName(Name(run)) && run.env.uploadError.None?
    requires run.env.deleteTakesEffect && run.env.uploadTakesEffect
    ensures RunStep(run, s) == Step(Changed(true), DeviceState(s.files, s.issued + [Delete(Name(run)), Upload(Name(run))]))
  {
    var name := Name(run);
    var removed := RemoveStep(run, s);
    assert removed.after == DeviceState(s.files - {name}, s.issued + [Delete(name)]);
    assert !Exists(run, removed.after);
    assert (s.files - {name}) + {name} == s.files;
    assert s.issued + [Delete(name)] + [Upload(name)] == s.issued + [Delete(name), Upload(name)];
  }

  /** State installed loads the UCS again on every run: installing is not idempotent. */
  lemma InstalledReloadsEveryRun(run: Run, s: DeviceState)
    requires run.want.state == Installed && !run.want.force && !run.checkMode && Exists(run, s)
    requires run.env.installError.None? && ReloadResult(run.env.probes).Reloaded?
    ensures RunStep(run, s) == Step(Changed(true), Loaded(InstallCommandOf(run.want).value, s))
  {
    InstalledAlwaysBuilds(run.want);
  }

  /** The load's error decides the outcome: a benign one waits for the reload, any other is raised as is. */
  lemma InstallErrorHandling(run: Run, s: DeviceState)
    requires run.want.state == Installed && run.env.installError.Some?
    ensures IsBenignInstallError(run.env.installError.value)
        ==> InstallStep(run, s) == AfterLoad(run, Loaded(InstallCommandOf(run.want).value, s))
    ensures !IsBenignInstallError(run.env.installError.value)
        ==> InstallStep(run, s) == Step(Raised(run.env.installError.value), Loaded(InstallCommandOf(run.want).value, s))
  {
    InstalledAlwaysBuilds(run.want);
  }

  /**
    On a device holding only `ValidUcsName` files, the dialects differ only in
    how an empty basename is found on a device holding no UCS file.
  */
  lemma TiersAgree(run: Run, s: DeviceState)
    requires Name(run) != []
    ensures RunStep(run.(tier := V1), s) == RunStep(run.(tier := V2), s)
  {
    var r1, r2 := run.(tier := V1), run.(tier := V2);
    ExistsAgree(run, s);
    RemoveAgree(run, s);
    CreateAgree(run, s);
    CreateAgree(run, RemoveStep(r1, s).after);
    InstallAgree(run, s);
  }

  lemma ExistsAgree(run: Run, t: DeviceState)
    requires Name(run) != []
    ensures Exists(run.(tier := V1), t) == Exists(run.(tier := V2), t)
  {
  }

  lemma InstallAgree(run: Run, t: DeviceState)
    ensures InstallStep(run.(tier := V1), t) == InstallStep(run.(tier := V2), t)
  {
  }

  lemma RemoveAgree(run: Run, t: DeviceState)
    requires Name(run) != []
    ensures RemoveStep(run.(tier := V1), t) == RemoveStep(run.(tier := V2), t)
  {
    ExistsAgree(run, Deleted(run.env, Name(run), t));
  }

  lemma CreateAgree(run: Run, t: DeviceState)
    requires Name(run) != []
    ensures CreateStep(run.(tier := V1), t) == CreateStep(run.(tier := V2), t)
  {
    var u := Uploaded(run.env, Name(run), t);
    ExistsAgree(run, u);
    InstallAgree(run, u);
  }

  /** On V1, an empty basename counts as present on a device with no UCS file, so `absent` tries to delete it. */
  lemma EmptyBasenameOnV1(run: Run, s: DeviceState)
    requires run.tier == V1 && Name(run) == [] && s.files == {}
    requires run.want.state == Absent && !run.checkMode
    ensures RunStep(run, s) == Step(Raised(DeleteFailedMessage), Deleted(run.env, [], s))
  {
  }

  /** A run keeps every file on the device listable. */
  lemma RunKeepsValidFiles(run: Run, s: DeviceState)
    requires ValidFiles(s)
    ensures ValidFiles(RunStep(run, s).after)
  {
    var name := Name(run);
    if !run.checkMode {
      assert ValidFiles(Deleted(run.env, name, s));
      assert ValidFiles(Uploaded(run.env, name, s));
      assert ValidFiles(Uploaded(run.env, name, Deleted(run.env, name, s)));
    }
  }
}
