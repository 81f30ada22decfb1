/**
  What `wait_for_configuration_reload` makes of the `tmsh show sys mcp-state`
  probes it sends after a UCS load: the three status patterns, the
  debounce counter `noops`, and the outcome of the wait.
 */
module ReloadWatcher {
  import opened Text

  const LoadStatus := "Last Configuration Load Status"
  const FullConfigLoadSucceed := "full-config-load-succeed"
  const BaseConfigLoadFailed := "base-config-load-failed"
  const RunningPhase := "Running Phase"
  const Running := "running"

  /** `_is_config_reloading_success_on_device`. */
  function IsReloadSucceeded(output: string): (found: bool)
    ensures found <==> exists i: nat, n: nat :: PatternAt(output, LoadStatus, FullConfigLoadSucceed, i, n)
  {
    SearchPattern(output, LoadStatus, FullConfigLoadSucceed)
  }

  /** `_is_config_reloading_running_on_device`. */
  function IsReloadRunning(output: string): (found: bool)
    ensures found <==> exists i: nat, n: nat :: PatternAt(output, RunningPhase, Running, i, n)
  {
    SearchPattern(output, RunningPhase, Running)
  }

  /** `_is_config_reloading_failed_on_device`. */
  function IsReloadFailed(output: string): (found: bool)
    ensures found <==> exists i: nat, n: nat :: PatternAt(output, LoadStatus, BaseConfigLoadFailed, i, n)
  {
    SearchPattern(output, LoadStatus, BaseConfigLoadFailed)
  }

  /** A pattern is found wherever the phrase, a whitespace run and the word stand next to each other. */
  lemma PatternInside(pre: string, phrase: string, gap: string, word: string, post: string)
    requires |gap| >= 1 && AllSpace(gap)
    ensures SearchPattern(pre + phrase + gap + word + post, phrase, word)
  {
    var s := pre + phrase + gap + word + post;
    var i, j := |pre|, |pre| + |phrase|;
    assert s[i..i + |phrase|] == phrase;
    assert s[j..j + |gap|] == gap;
    assert s[j + |gap|..j + |gap| + |word|] == word;
    assert PatternAt(s, phrase, word, i, |gap|);
  }

  /** One response to `tmsh show sys mcp-state`. */
  datatype Probe =
    | InvocationFailed              // `exec_cmd` raised (restjavad restarting)
    | NoCommandResult               // the response has no `commandResult`
    | Output(commandResult: string)

  /** How the wait ended. `polls` and `poll` count probes from 0. */
  datatype ReloadOutcome =
    | Reloaded(polls: nat)                    // the counter reached 4 after `polls` probes
    | ReloadFailed(poll: nat, message: string) // probe `poll` reported a failed load
    | StillWaiting(noops: nat)                // the probes observed ran out first

  function ReloadFailureMessage(output: string): (message: string)
    ensures |output| <= |message| && message[|message| - |output|..] == output
  {
    "Failed to reload the configuration. This may be due to a cross-version incompatibility. " + output
  }

  /** A probe that reports a failed load; the wait raises on it. */
  predicate IsFatal(p: Probe)
  {
    p.Output? && IsReloadFailed(p.commandResult)
  }

  /** A probe that reports both a finished load and the running phase. */
  predicate IsSettled(p: Probe)
  {
    p.Output? && IsReloadSucceeded(p.commandResult) && IsReloadRunning(p.commandResult)
  }

  /** A probe that tells nothing: the call failed or carried no result. */
  predicate IsTransient(p: Probe)
  {
    !p.Output?
  }

  predicate NoFatal(ps: seq<Probe>)
  {
    forall k :: 0 <= k < |ps| ==> !IsFatal(ps[k])
  }

  /**
    The settled probes seen since the last output that was not settled:
    transient probes are skipped, any other output starts the count again.
   */
  function Streak(ps: seq<Probe>): nat
  {
    if ps == [] then 0
    else
      var last := ps[|ps| - 1];
      if IsTransient(last) then Streak(ps[..|ps| - 1])
      else if IsSettled(last) then Streak(ps[..|ps| - 1]) + 1
      else 0
  }

  /** The streak stayed below 4 on every prefix of `ps` up to length `i`. */
  predicate StaysBelowFour(ps: seq<Probe>, i: nat)
    requires i <= |ps|
  {
    forall j :: 0 <= j <= i ==> Streak(ps[..j]) < 4
  }

  /** The outcome the source's loop reaches on the probes `ps`, stated without the loop. */
  predicate IsReloadOutcome(ps: seq<Probe>, r: ReloadOutcome)
  {
    match r
    case Reloaded(k) =>
      1 <= k <= |ps| && NoFatal(ps[..k]) && Streak(ps[..k]) == 4 && StaysBelowFour(ps, k - 1)
    case ReloadFailed(k, message) =>
      k < |ps| && IsFatal(ps[k]) && NoFatal(ps[..k]) && StaysBelowFour(ps, k)
      && message == ReloadFailureMessage(ps[k].commandResult)
    case StillWaiting(n) =>
      NoFatal(ps) && StaysBelowFour(ps, |ps|) && n == Streak(ps)
  }

  lemma StreakStep(ps: seq<Probe>, i: nat)
    requires i < |ps|
    ensures IsTransient(ps[i]) ==> Streak(ps[..i + 1]) == Streak(ps[..i])
    ensures !IsTransient(ps[i]) && IsSettled(ps[i]) ==> Streak(ps[..i + 1]) == Streak(ps[..i]) + 1
    ensures !IsTransient(ps[i]) && !IsSettled(ps[i]) ==> Streak(ps[..i + 1]) == 0
  {
    assert ps[..i + 1][..i] == ps[..i];
  }

  /** The counter after probe `p`, from `noops` before it, for a probe that is not fatal. */
  function NextNoops(p: Probe, noops: nat): nat
  {
    if IsTransient(p) then noops else if IsSettled(p) then noops + 1 else 0
  }

  lemma NoFatalStep(ps: seq<Probe>, i: nat)
    requires i < |ps| && NoFatal(ps[..i]) && !IsFatal(ps[i])
    ensures NoFatal(ps[..i + 1])
  {
    var q := ps[..i + 1];
    forall k | 0 <= k < |q|
      ensures !IsFatal(q[k])
    {
      if k < i {
        assert q[k] == ps[..i][k];
      }
    }
  }

  lemma StreakNext(ps: seq<Probe>, i: nat)
    requires i < |ps|
    ensures NextNoops(ps[i], Streak(ps[..i])) == Streak(ps[..i + 1])
  {
    StreakStep(ps, i);
  }

  lemma BelowFourStep(ps: seq<Probe>, i: nat)
    requires i < |ps| && StaysBelowFour(ps, i) && Streak(ps[..i + 1]) < 4
    ensures StaysBelowFour(ps, i + 1)
  {
    forall j | 0 <= j <= i + 1
      ensures Streak(ps[..j]) < 4
    {
      if j <= i {
        assert StaysBelowFour(ps, i);
      }
    }
  }

  /** The state of the source's loop after `i` probes with the counter at `noops`, as the probes determine it. */
  predicate InStep(ps: seq<Probe>, i: nat, noops: nat)
  {
    && i <= |ps| && noops <= 4
    && NoFatal(ps[..i]) && noops == Streak(ps[..i])
    && (noops < 4 ==> StaysBelowFour(ps, i))
    && (i > 0 ==> StaysBelowFour(ps, i - 1))
  }

  lemma WaitStart(ps: seq<Probe>)
    ensures InStep(ps, 0, 0)
  {
    assert ps[..0] == [];
  }

  /** One probe of the wait that is not fatal keeps the loop's state in step with the probes. */
  lemma WaitStep(ps: seq<Probe>, i: nat, noops: nat)
    requires InStep(ps, i, noops) && i < |ps| && noops < 4 && !IsFatal(ps[i])
    ensures InStep(ps, i + 1, NextNoops(ps[i], noops))
  {
    NoFatalStep(ps, i);
    StreakNext(ps, i);
    if NextNoops(ps[i], noops) < 4 {
      BelowFourStep(ps, i);
    }
  }

  /** A fatal probe while the loop's state is in step ends the wait as the characterization says. */
  lemma WaitFails(ps: seq<Probe>, i: nat, noops: nat)
    requires InStep(ps, i, noops) && i < |ps| && noops < 4 && IsFatal(ps[i])
    ensures IsReloadOutcome(ps, ReloadFailed(i, ReloadFailureMessage(ps[i].commandResult)))
  {
  }

  /** The counter at four ends the wait as the characterization says. */
  lemma WaitSettles(ps: seq<Probe>, i: nat)
    requires InStep(ps, i, 4)
    ensures IsReloadOutcome(ps, Reloaded(i))
  {
  }

  /** Running out of probes with the counter below four is the characterized `StillWaiting`. */
  lemma WaitRunsOut(ps: seq<Probe>, noops: nat)
    requires InStep(ps, |ps|, noops) && noops < 4
    ensures IsReloadOutcome(ps, StillWaiting(noops))
  {
    assert ps[..|ps|] == ps;
  }

  /** The wait from probe `i` on, with the counter at `noops`, as the source's loop runs it. */
  function ReloadFrom(ps: seq<Probe>, i: nat, noops: nat): (r: ReloadOutcome)
    requires i <= |ps|
    ensures r.Reloaded? ==> i < r.polls <= |ps|
    ensures r.ReloadFailed? ==> i <= r.poll < |ps|
    decreases |ps| - i
  {
    if i == |ps| then StillWaiting(noops)
    else
      var p := ps[i];
      if p.InvocationFailed? || p.NoCommandResult? then ReloadFrom(ps, i + 1, noops)
      else if IsReloadFailed(p.commandResult) then ReloadFailed(i, ReloadFailureMessage(p.commandResult))
      else if IsReloadSucceeded(p.commandResult) && IsReloadRunning(p.commandResult) then
        if noops + 1 >= 4 then Reloaded(i + 1) else ReloadFrom(ps, i + 1, noops + 1)
      else ReloadFrom(ps, i + 1, 0)
  }

  /** One probe of the recursive wait, in terms of the counter it leaves. */
  lemma ReloadFromStep(ps: seq<Probe>, i: nat, noops: nat)
    requires i < |ps| && noops < 4
    ensures IsFatal(ps[i]) ==> ReloadFrom(ps, i, noops) == ReloadFailed(i, ReloadFailureMessage(ps[i].commandResult))
    ensures !IsFatal(ps[i]) && NextNoops(ps[i], noops) == 4 ==> ReloadFrom(ps, i, noops) == Reloaded(i + 1)
    ensures !IsFatal(ps[i]) && NextNoops(ps[i], noops) < 4
        ==> ReloadFrom(ps, i, noops) == ReloadFrom(ps, i + 1, NextNoops(ps[i], noops))
  {
  }

  /** The loop's result meets the characterization whenever its state does. */
  lemma {:induction false} ReloadFromOutcome(ps: seq<Probe>, i: nat, noops: nat)
    requires InStep(ps, i, noops) && noops < 4
    ensures IsReloadOutcome(ps, ReloadFrom(ps, i, noops))
    decreases |ps| - i
  {
    if i == |ps| {
      WaitRunsOut(ps, noops);
    } else if IsFatal(ps[i]) {
      ReloadFromStep(ps, i, noops);
      WaitFails(ps, i, noops);
    } else {
      ReloadFromStep(ps, i, noops);
      WaitStep(ps, i, noops);
      var next := NextNoops(ps[i], noops);
      if next < 4 {
        ReloadFromOutcome(ps, i + 1, next);
      } else {
        WaitSettles(ps, i + 1);
      }
    }
  }

  /** `wait_for_configuration_reload` on the probes `ps`, counter starting at 0. */
  function ReloadResult(ps: seq<Probe>): (r: ReloadOutcome)
    ensures IsReloadOutcome(ps, r)
  {
    WaitStart(ps);
    ReloadFromOutcome(ps, 0, 0);
    ReloadFrom(ps, 0, 0)
  }

  /** At most one outcome meets the characterization, so it pins the wait's result down. */
  lemma ReloadOutcomeUnique(ps: seq<Probe>, r1: ReloadOutcome, r2: ReloadOutcome)
    requires IsReloadOutcome(ps, r1) && IsReloadOutcome(ps, r2)
    ensures r1 == r2
  {
    var e1: int, e2: int := EndOf(r1), EndOf(r2);
    BelowFourAt(ps, e1 - 1, e2);
    BelowFourAt(ps, e2 - 1, e1);
    BelowFourAt(ps, e1, e2);
    BelowFourAt(ps, e2, e1);
    BelowFourAt(ps, |ps|, e1);
    BelowFourAt(ps, |ps|, e2);
    SameProbe(ps, e1, e2);
    SameProbe(ps, e2, e1);
  }

  /** The probe count an outcome names, 0 for `StillWaiting`. */
  function EndOf(r: ReloadOutcome): nat
  {
    match r
    case Reloaded(k) => k
    case ReloadFailed(k, _) => k
    case StillWaiting(_) => 0
  }

  lemma BelowFourAt(ps: seq<Probe>, i: int, j: int)
    ensures 0 <= j <= i <= |ps| && StaysBelowFour(ps, i) ==> Streak(ps[..j]) < 4
  {
  }

  lemma SameProbe(ps: seq<Probe>, i: int, j: int)
    ensures 0 <= j < i <= |ps| ==> ps[..i][j] == ps[j]
  {
  }

  /** A failed-load report raises even when the same output also reports success and the running phase. */
  lemma FailureCheckedFirst(p: Probe, rest: seq<Probe>)
    requires IsFatal(p) && IsSettled(p)
    ensures ReloadResult([p] + rest) == ReloadFailed(0, ReloadFailureMessage(p.commandResult))
  {
  }

  /** Transient probes between settled ones do not reset the counter. */
  lemma TransientProbesSkipped(s: Probe, t: Probe)
    requires IsSettled(s) && !IsFatal(s) && IsTransient(t)
    ensures ReloadResult([s, t, s, t, s, s]) == Reloaded(6)
  {
    var ps := [s, t, s, t, s, s];
    assert ReloadFrom(ps, 5, 3) == Reloaded(6);
    assert ReloadFrom(ps, 4, 2) == Reloaded(6);
    assert ReloadFrom(ps, 3, 2) == Reloaded(6);
    assert ReloadFrom(ps, 2, 1) == Reloaded(6);
    assert ReloadFrom(ps, 1, 1) == Reloaded(6);
  }

  /** Any other output, including a success report without the running phase, starts the count again. */
  lemma OtherOutputResets(s: Probe, x: Probe)
    requires IsSettled(s) && !IsFatal(s)
    requires x.Output? && !IsSettled(x) && !IsFatal(x)
    ensures ReloadResult([s, s, s, x, s, s, s]) == StillWaiting(3)
  {
    var ps := [s, s, s, x, s, s, s];
    assert ReloadFrom(ps, 6, 2) == StillWaiting(3);
    assert ReloadFrom(ps, 4, 0) == StillWaiting(3);
    assert ReloadFrom(ps, 3, 3) == StillWaiting(3);
    assert ReloadFrom(ps, 1, 1) == StillWaiting(3);
  }

  /** After a reset, four more settled probes end the wait. */
  lemma FourAfterReset(s: Probe, x: Probe)
    requires IsSettled(s) && !IsFatal(s)
    requires x.Output? && !IsSettled(x) && !IsFatal(x)
    ensures ReloadResult([s, s, s, x, s, s, s, s]) == Reloaded(8)
  {
    var ps := [s, s, s, x, s, s, s, s];
    assert ReloadFrom(ps, 6, 2) == Reloaded(8);
    assert ReloadFrom(ps, 4, 0) == Reloaded(8);
    assert ReloadFrom(ps, 3, 3) == Reloaded(8);
    assert ReloadFrom(ps, 1, 1) == Reloaded(8);
  }
}
