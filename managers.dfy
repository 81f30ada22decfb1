/**
  The manager classes: `ModuleManager`, which picks the API dialect from
  the device's version, and `BaseManager` with its `V1Manager` and
  `V2Manager` specialisations, here one class `UcsManager` whose `tier`
  says which of the two listings it reads. Each method that changes the
  device is proved to leave it, and to answer, as the function of the same
  name in module `Lifecycle` says.
 */
module Managers {
  import opened Wrappers
  import opened Text
  import opened Version
  import opened UcsParameters
  import opened ReloadWatcher
  import opened Responses
  import opened Lifecycle

  /**
    The BIG-IP behind the SDK client: the UCS files it holds and the log
    of changes sent to it. How it answers is fixed by `env`.
   */
  class Device {
    const version: seq<nat>
    const env: Env
    var files: set<string>
    var issued: seq<Command>

    function State(): DeviceState
      reads this
    {
      DeviceState(files, issued)
    }

    ghost predicate Valid()
      reads this
    {
      ValidFiles(State())
    }

    constructor(version: seq<nat>, env: Env, files: set<string>)
      requires forall f :: f in files ==> ValidUcsName(f)
      ensures this.version == version && this.env == env
      ensures State() == DeviceState(files, []) && Valid()
    {
      this.version := version;
      this.env := env;
      this.files := files;
      this.issued := [];
    }

    /** `upload_file` of the UCS, then the `unix_mv` of `name` into /var/local/ucs. */
    method UploadFile(name: string) returns (error: Option<string>)
      modifies this
      ensures error == env.uploadError
      ensures State() == if error.Some? then old(State()) else Uploaded(env, name, old(State()))
    {
      error := env.uploadError;
      if error.None? {
        if env.uploadTakesEffect && ValidUcsName(name) {
          files := files + {name};
        }
        issued := issued + [Upload(name)];
      }
    }

    /** `tmsh delete sys ucs <name>`. */
    method DeleteUcs(name: string) returns (commandResult: Option<string>)
      modifies this
      ensures commandResult == env.deleteOutput
      ensures State() == Deleted(env, name, old(State()))
    {
      commandResult := env.deleteOutput;
      if env.deleteTakesEffect {
        files := files - {name};
      }
      issued := issued + [Delete(name)];
    }

    /** The install command, run through bash. */
    method RunLoad(command: string) returns (error: Option<string>)
      modifies this
      ensures error == env.installError
      ensures State() == Loaded(command, old(State()))
    {
      error := env.installError;
      issued := issued + [Load(command)];
    }

    /** The files, one by one, in the order the device lists them. */
    method Enumerate() returns (names: seq<string>)
      ensures forall x :: x in files <==> x in names
    {
      names := [];
      var rest := files;
      while rest != {}
        invariant rest <= files
        invariant forall x :: x in files <==> x in rest || x in names
        decreases |rest|
      {
        var f :| f in rest;
        names := names + [f];
        rest := rest - {f};
      }
    }

    /** `tmsh list sys ucs`: one name per line. */
    method ListUcsV1() returns (commandResult: Option<string>, ghost names: seq<string>)
      ensures forall x :: x in files <==> x in names
      ensures commandResult == Some(Join(names, Newline))
    {
      var listed := Enumerate();
      names := listed;
      commandResult := Some(Join(listed, Newline));
    }

    /** `sys.ucs.load()`: one item per file, its `apiRawValues.filename` the full path. */
    method ListUcsV2() returns (items: Option<seq<string>>, ghost names: seq<string>)
      ensures forall x :: x in files <==> x in names
      ensures items.Some? && |items.value| == |names|
      ensures forall k :: 0 <= k < |names| ==> items.value[k] == UcsDirectory + names[k]
    {
      var listed := Enumerate();
      names := listed;
      items := Some(seq(|listed|, k requires 0 <= k < |listed| => UcsDirectory + listed[k]));
    }

    /** `client.reconnect()`, attempt `attempt`. */
    method Reconnect(attempt: nat) returns (ok: bool)
      ensures ok == ReconnectSucceeds(env, attempt)
    {
      ok := attempt < |env.reconnects| && env.reconnects[attempt];
    }

    /** `tmsh show sys mcp-state`, probe `poll`; nothing once the observed probes run out. */
    method ShowMcpState(poll: nat) returns (probe: Option<Probe>)
      ensures poll < |env.probes| ==> probe == Some(env.probes[poll])
      ensures poll >= |env.probes| ==> probe.None?
    {
      if poll < |env.probes| {
        probe := Some(env.probes[poll]);
      } else {
        probe := None;
      }
    }
  }

  /** `BaseManager` with `V1Manager`'s and `V2Manager`'s overrides. */
  class UcsManager {
    const want: Params
    const checkMode: bool
    const tier: Tier
    const device: Device

    constructor(want: Params, checkMode: bool, tier: Tier, device: Device)
      ensures this.want == want && this.checkMode == checkMode
      ensures this.tier == tier && this.device == device
    {
      this.want := want;
      this.checkMode := checkMode;
      this.tier := tier;
      this.device := device;
    }

    function RunOf(): Run
    {
      Run(want, checkMode, tier, device.env)
    }

    /** `exists`: read the listing in the manager's dialect and look for the basename. */
    method Exists() returns (found: bool)
      requires device.Valid()
      ensures found == Lifecycle.Exists(RunOf(), device.State())
    {
      var basename := Basename(want.ucs);
      if tier == V1 {
        var output, names := device.ListUcsV1();
        found := ExistsV1(output, basename);
        ListingV1(names, device.files, basename);
      } else {
        var items, names := device.ListUcsV2();
        found := ExistsV2(items, basename);
        ListingV2(names, device.files, basename);
      }
    }

    /** `create_on_device`. */
    method CreateOnDevice() returns (error: Option<string>)
      modifies device
      ensures error == device.env.uploadError
      ensures device.State()
           == if error.Some? then old(device.State()) else Uploaded(device.env, Name(RunOf()), old(device.State()))
    {
      error := device.UploadFile(Basename(want.ucs));
    }

    /** `remove_from_device`: its verdict, which `remove` does not use. */
    method RemoveFromDevice() returns (confirmed: bool)
      modifies device
      ensures confirmed == RemoveConfirmed(device.env.deleteOutput, Name(RunOf()))
      ensures device.State() == Deleted(device.env, Name(RunOf()), old(device.State()))
    {
      var output := device.DeleteUcs(Basename(want.ucs));
      confirmed := RemoveConfirmed(output, Basename(want.ucs));
    }

    /** `wait_for_rest_api_restart`: up to 60 reconnects, stopping at the first that works; it never raises. */
    method WaitForRestApiRestart() returns (connected: bool, attempts: nat)
      ensures 1 <= attempts <= 60
      ensures forall k :: 0 <= k < attempts - 1 ==> !ReconnectSucceeds(device.env, k)
      ensures connected <==> ReconnectSucceeds(device.env, attempts - 1)
      ensures !connected ==> attempts == 60
    {
      connected := false;
      attempts := 0;
      for x := 0 to 60
        invariant attempts == x && !connected
        invariant forall k :: 0 <= k < x ==> !ReconnectSucceeds(device.env, k)
      {
        attempts := x + 1;
        connected := device.Reconnect(x);
        if connected {
          break;
        }
      }
    }

    /** `wait_for_configuration_reload`: poll until four settled probes in a row, or raise on a failed load. */
    method WaitForConfigurationReload() returns (r: ReloadOutcome)
      ensures IsReloadOutcome(device.env.probes, r)
    {
      ghost var probes := device.env.probes;
      var noops := 0;
      var poll := 0;
      WaitStart(probes);
      while noops < 4
        invariant InStep(probes, poll, noops)
        decreases |probes| - poll
      {
        var probe := device.ShowMcpState(poll);
        if probe.None? {
          WaitRunsOut(probes, noops);
          return StillWaiting(noops);
        }
        var output := probe.value;
        // A failed call or a response without `commandResult` leaves the counter alone.
        if output.Output? {
          var result := output.commandResult;
          if IsReloadFailed(result) {
            WaitFails(probes, poll, noops);
            return ReloadFailed(poll, ReloadFailureMessage(result));
          }
        }
        WaitStep(probes, poll, noops);
        if output.Output? {
          var result := output.commandResult;
          if IsReloadSucceeded(result) && IsReloadRunning(result) {
            noops := noops + 1;
          } else {
            noops := 0;
          }
        }
        poll := poll + 1;
      }
      WaitSettles(probes, poll);
      r := Reloaded(poll);
    }

    /** `install_on_device`. */
    method InstallOnDevice() returns (r: Outcome)
      modifies device
      ensures device.files == old(device.files)
      ensures Step(r, device.State()) == InstallStep(RunOf(), old(device.State()))
    {
      var built := InstallCommand(want);
      var error: Option<string>;
      if built.Failure? {
        error := Some(built.error);
      } else {
        error := device.RunLoad(built.value);
      }
      if error.Some? && !IsBenignInstallError(error.value) {
        return Raised(error.value);
      }
      var connected, attempts := WaitForRestApiRestart();
      var reload := WaitForConfigurationReload();
      ReloadOutcomeUnique(device.env.probes, reload, ReloadResult(device.env.probes));
      match reload {
        case Reloaded(_) => r := Changed(true);
        case ReloadFailed(_, message) => r := Raised(message);
        case StillWaiting(_) => r := StillPolling;
      }
    }

    method Create() returns (r: Outcome)
      requires device.Valid()
      modifies device
      ensures device.Valid()
      ensures Step(r, device.State()) == CreateStep(RunOf(), old(device.State()))
    {
      if checkMode {
        return Changed(true);
      }
      var error := CreateOnDevice();
      if error.Some? {
        return Raised(error.value);
      }
      var present := Exists();
      if !present {
        return Raised(UploadFailedMessage);
      }
      if want.state == Installed {
        var installed := InstallOnDevice();
        if !installed.Changed? {
          return installed;
        }
      }
      return Changed(true);
    }

    method Remove() returns (r: Outcome)
      requires device.Valid()
      modifies device
      ensures device.Valid()
      ensures Step(r, device.State()) == RemoveStep(RunOf(), old(device.State()))
    {
      if checkMode {
        return Changed(true);
      }
      var confirmed := RemoveFromDevice();
      var present := Exists();
      if present {
        return Raised(DeleteFailedMessage);
      }
      return Changed(true);
    }

    method Update() returns (r: Outcome)
      requires device.Valid()
      modifies device
      ensures device.Valid()
      ensures Step(r, device.State()) == UpdateStep(RunOf(), old(device.State()))
    {
      if checkMode {
        return Changed(want.force);
      } else if want.force {
        r := Remove();
        if !r.Changed? {
          return r;
        }
        r := Create();
      } else if want.state == Installed {
        r := InstallOnDevice();
      } else {
        r := Changed(false);
      }
    }

    method Present() returns (r: Outcome)
      requires device.Valid()
      modifies device
      ensures device.Valid()
      ensures Step(r, device.State()) == PresentStep(RunOf(), old(device.State()))
    {
      var present := Exists();
      if present {
        r := Update();
      } else {
        r := Create();
      }
    }

    method Absent() returns (r: Outcome)
      requires device.Valid()
      modifies device
      ensures device.Valid()
      ensures Step(r, device.State()) == AbsentStep(RunOf(), old(device.State()))
    {
      var present := Exists();
      if present {
        r := Remove();
      } else {
        r := Changed(false);
      }
    }

    /** `BaseManager.exec_module`: the outcome carries the `changed` flag of the result. */
    method ExecModule() returns (r: Outcome)
      requires device.Valid()
      modifies device
      ensures device.Valid()
      ensures Step(r, device.State()) == RunStep(RunOf(), old(device.State()))
    {
      if want.state.Present? || want.state.Installed? {
        r := Present();
      } else {
        r := Absent();
      }
    }
  }

  /** `ModuleManager`: picks the dialect from the device's TMOS version. */
  class ModuleManager {
    const want: Params
    const checkMode: bool
    const device: Device

    constructor(want: Params, checkMode: bool, device: Device)
      ensures this.want == want && this.checkMode == checkMode && this.device == device
    {
      this.want := want;
      this.checkMode := checkMode;
      this.device := device;
    }

    method ExecModule() returns (r: Outcome)
      requires device.Valid()
      modifies device
      ensures device.Valid()
      ensures Step(r, device.State()) == ModuleStep(want, checkMode, device.version, device.env, old(device.State()))
    {
      var tier := if IsVersionV1(device.version) then V1 else V2;
      var manager := new UcsManager(want, checkMode, tier, device);
      r := manager.ExecModule();
    }
  }
}
