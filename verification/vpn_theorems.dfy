/** What the VPN protocol guarantees over whole runs. */
module VpnTheorems {
  import opened Common
  import opened VpnModel
  import opened VpnProtocol
  import opened VpnRequests

  // ---- agreement --------------------------------------------------------------

  /** After any pass of any run: the missing-profile branch was not the one taken, and a live
      child exists only for a wanted connection and was started with its current profile,
      gateway and credential choices. */
  lemma PassAgrees(ws: seq<World>, steps: seq<Step>, k: nat)
    requires IsRun(ws, steps) && k < |steps| && steps[k].ReconcileStep?
    ensures Target(ws[k].files).None? <==> !ws[k].files.desired.connect
    ensures !ws[k + 1].sup.child.Exited?
    ensures ws[k + 1].sup.child.Running? ==> Matches(ws[k + 1].sup.child.launch, ws[k + 1].files.desired)
  {
    RunStep(ws, steps, k);
  }

  /** Between passes the same child agrees until the console issues a new epoch. */
  lemma SameEpochAgrees(ws: seq<World>, steps: seq<Step>, k: nat)
    requires IsRun(ws, steps) && k < |ws|
    requires !ws[k].sup.child.NoChild? && ws[k].sup.activeEpoch == ws[k].files.desired.epoch
    ensures Matches(ws[k].sup.child.launch, ws[k].files.desired)
  {
    RunKeepsInv(ws, steps, k);
  }

  lemma ChildChanges(w: World, step: Step)
    requires Inv(w) && Enabled(w, step) && !Next(w, step).sup.child.NoChild?
    ensures if AttemptOf(w, step) == Launched then
        w.files.desired.profile.Some?
        && Next(w, step).sup.child == Running(ArgvChoices(w.files, w.files.desired.profile.value))
      else !w.sup.child.NoChild? && Next(w, step).sup.child.launch == w.sup.child.launch
  {
    TargetIsWanted(w.files);
  }

  /** No pass in [i, k) launches. */
  predicate NoLaunch(ws: seq<World>, steps: seq<Step>, i: nat, k: nat)
    requires k <= |steps| && k <= |ws|
  {
    forall b :: i <= b < k ==> AttemptOf(ws[b], steps[b]) != Launched
  }

  lemma NoLaunchGrows(ws: seq<World>, steps: seq<Step>, i: nat, k: nat)
    requires i < k <= |steps| && k <= |ws|
    requires NoLaunch(ws, steps, i, k - 1) && AttemptOf(ws[k - 1], steps[k - 1]) != Launched
    ensures NoLaunch(ws, steps, i, k)
  {}

  /** The pass before world `k` that last launched a child, if one exists in world `k`. */
  lemma {:induction false} LastLaunch(ws: seq<World>, steps: seq<Step>, k: nat) returns (a: nat)
    requires IsRun(ws, steps) && k < |ws| && !ws[k].sup.child.NoChild?
    ensures a < k && AttemptOf(ws[a], steps[a]) == Launched && NoLaunch(ws, steps, a + 1, k)
    ensures ws[a].files.desired.profile.Some?
    ensures ws[k].sup.child.launch == ArgvChoices(ws[a].files, ws[a].files.desired.profile.value)
    ensures ws[k].sup.activeEpoch == ws[a].files.desired.epoch
  {
    var w, step := ws[k - 1], steps[k - 1];
    RunStep(ws, steps, k - 1);
    ChildChanges(w, step);
    EpochChanges(w, step);
    if AttemptOf(w, step) == Launched {
      a := k - 1;
    } else {
      a := LastLaunch(ws, steps, k - 1);
      NoLaunchGrows(ws, steps, a + 1, k);
    }
  }

  /** Whatever child exists was launched by an earlier pass `a`, with all its choices, auto_reconnect
      among them, as they were desired at that pass; there has been no launch since. So the choice
      lags exactly when the desired one has changed since `a`. */
  lemma ChildOfLaunch(ws: seq<World>, steps: seq<Step>, k: nat) returns (a: nat)
    requires IsRun(ws, steps) && k < |ws| && !ws[k].sup.child.NoChild?
    ensures a < k && AttemptOf(ws[a], steps[a]) == Launched && ws[a].files.desired.profile.Some?
    ensures ws[k].sup.child.launch == ArgvChoices(ws[a].files, ws[a].files.desired.profile.value)
    ensures ws[k].sup.activeEpoch == ws[a].files.desired.epoch
    ensures NoLaunch(ws, steps, a + 1, k)
    ensures ws[k].sup.child.launch.autoReconnect != ws[k].files.desired.autoReconnect
       <==> ws[a].files.desired.autoReconnect != ws[k].files.desired.autoReconnect
  {
    a := LastLaunch(ws, steps, k);
    LaunchChoices(ws[a].files, ws[a].files.desired.profile.value);
  }

  // ---- every new epoch gets a child of its own --------------------------------------------

  lemma EpochChanges(w: World, step: Step)
    requires Inv(w) && Enabled(w, step) && !Next(w, step).sup.child.NoChild?
    ensures Next(w, step).sup.activeEpoch
         == if AttemptOf(w, step) == Launched then w.files.desired.epoch else w.sup.activeEpoch
    ensures AttemptOf(w, step) != Launched ==> !w.sup.child.NoChild?
  {
    if step.ReconcileStep? { PassLeaves(w, step.r); }
  }

  /** After any pass a running child is of the desired epoch, and was launched by a pass that saw it. */
  lemma PassServesEpoch(ws: seq<World>, steps: seq<Step>, k: nat) returns (a: nat)
    requires IsRun(ws, steps) && k < |steps| && steps[k].ReconcileStep? && ws[k + 1].sup.child.Running?
    ensures ws[k + 1].sup.activeEpoch == ws[k + 1].files.desired.epoch
    ensures a <= k && AttemptOf(ws[a], steps[a]) == Launched
    ensures ws[a].files.desired.epoch == ws[k + 1].files.desired.epoch
  {
    RunStep(ws, steps, k);
    PassLeaves(ws[k], steps[k].r);
    a := LastLaunch(ws, steps, k + 1);
  }

  function EpochNumber(d: Desired): nat {
    if d.epoch.Some? then d.epoch.value else 0
  }

  /** Epochs never go back. */
  lemma {:induction false} EpochsGrow(ws: seq<World>, steps: seq<Step>, i: nat, k: nat)
    requires IsRun(ws, steps) && i <= k < |ws|
    ensures EpochNumber(ws[i].files.desired) <= EpochNumber(ws[k].files.desired)
    decreases k
  {
    if i < k { EpochsGrow(ws, steps, i, k - 1); }
  }

  /** A connect accepted at step `i`, whatever its auto_reconnect, restarts OpenVPN: a child running after
      any later pass was launched after the request, with the choices desired then. */
  lemma ConnectRestarts(ws: seq<World>, steps: seq<Step>, i: nat, k: nat) returns (a: nat)
    requires IsRun(ws, steps) && i < k < |steps| && steps[i].ConsoleStep? && steps[i].request.Connect?
    requires HandleRequest(steps[i].admin, ws[i].files, steps[i].request).1 == Accepted
    requires steps[k].ReconcileStep? && ws[k + 1].sup.child.Running?
    ensures i < a <= k && AttemptOf(ws[a], steps[a]) == Launched
  {
    a := PassServesEpoch(ws, steps, k);
    ConnectStores(steps[i].admin, ws[i].files, steps[i].request);
    EpochsGrow(ws, steps, i + 1, k + 1);
    if a <= i { EpochsGrow(ws, steps, a, i); }
  }

  // ---- stretches of a run -------------------------------------------------------

  /** From world `i` to world `j` a connection is wanted under one epoch, with auto_reconnect fixed. */
  predicate Wanted(ws: seq<World>, steps: seq<Step>, i: nat, j: nat, auto: bool) {
    && IsRun(ws, steps) && i <= j < |ws|
    && forall k :: i <= k <= j ==>
         ws[k].files.desired.connect && ws[k].files.desired.autoReconnect == auto
         && ws[k].files.desired.epoch == ws[i].files.desired.epoch
  }

  /** Besides, the supervisor process is not restarted. */
  predicate Stretch(ws: seq<World>, steps: seq<Step>, i: nat, j: nat, auto: bool) {
    Wanted(ws, steps, i, j, auto) && forall k :: i <= k < j ==> !steps[k].SupervisorRestarts?
  }

  predicate AttemptAt(ws: seq<World>, steps: seq<Step>, k: nat)
    requires k < |steps| && k < |ws|
  {
    AttemptOf(ws[k], steps[k]) != NoAttempt
  }

  function AttemptTime(steps: seq<Step>, k: nat): real
    requires k < |steps|
  {
    if steps[k].ReconcileStep? then steps[k].r.startCheck else 0.0
  }

  // ---- auto_reconnect off: at most one launch per epoch ----------------------------

  /** The epoch has had its one launch, or the supervisor has given up on it. */
  predicate Served(w: World) {
    (!w.sup.child.NoChild? && w.sup.activeEpoch == w.files.desired.epoch)
    || w.sup.gaveUpEpoch == w.files.desired.epoch
  }

  lemma ServedStays(w: World, step: Step)
    requires Inv(w) && Enabled(w, step) && !step.SupervisorRestarts? && Served(w)
    requires w.files.desired.connect && !w.files.desired.autoReconnect
    requires Next(w, step).files.desired.epoch == w.files.desired.epoch
    requires Next(w, step).files.desired.connect
    ensures Served(Next(w, step)) && AttemptOf(w, step) == NoAttempt
  {
    TargetIsWanted(w.files);
  }

  lemma ServedOneMore(ws: seq<World>, steps: seq<Step>, i: nat, k: nat, j: nat)
    requires Stretch(ws, steps, i, j, false) && i <= k < j && Served(ws[k])
    ensures Served(ws[k + 1]) && !AttemptAt(ws, steps, k)
  {
    RunStep(ws, steps, k);
    assert ws[k + 1].files.desired.epoch == ws[k].files.desired.epoch;
    ServedStays(ws[k], steps[k]);
  }

  lemma {:induction false} ServedForGood(ws: seq<World>, steps: seq<Step>, i: nat, j: nat)
    requires Stretch(ws, steps, i, j, false) && Served(ws[i])
    ensures Served(ws[j])
    ensures forall k :: i <= k < j ==> !AttemptAt(ws, steps, k)
    decreases j
  {
    if i < j {
      ServedForGood(ws, steps, i, j - 1);
      ServedOneMore(ws, steps, i, j - 1, j);
    }
  }

  /** With auto_reconnect off, one epoch is launched successfully at most once, and nothing is
      attempted after that launch. */
  lemma AtMostOneLaunch(ws: seq<World>, steps: seq<Step>, i: nat, j: nat, a: nat, b: nat)
    requires Stretch(ws, steps, i, j, false) && i <= a < b < j
    requires AttemptOf(ws[a], steps[a]) == Launched
    ensures !AttemptAt(ws, steps, b)
  {
    RunStep(ws, steps, a);
    assert Served(ws[a + 1]);
    ServedForGood(ws, steps, a + 1, j);
  }

  // ---- auto_reconnect off, across supervisor restarts ----------------------------------

  lemma FreshStays(w: World, step: Step)
    requires Inv(w) && Enabled(w, step) && w.sup == FRESH_SUPERVISOR
    requires w.files.desired.connect && !w.files.desired.autoReconnect
    ensures if step.ReconcileStep? then AttemptOf(w, step) != NoAttempt else Next(w, step).sup == FRESH_SUPERVISOR
  {
    TargetIsWanted(w.files);
  }

  /** A fresh supervisor attempts a launch in its first pass, which is no later than pass `p`. */
  lemma {:induction false} FreshAttempts(ws: seq<World>, steps: seq<Step>, q: nat, p: nat, j: nat) returns (k: nat)
    requires Wanted(ws, steps, q, j, false) && q <= p < j
    requires ws[q].sup == FRESH_SUPERVISOR && steps[p].ReconcileStep?
    ensures q <= k <= p && AttemptAt(ws, steps, k)
    decreases p - q
  {
    RunStep(ws, steps, q);
    FreshStays(ws[q], steps[q]);
    if steps[q].ReconcileStep? {
      k := q;
    } else {
      k := FreshAttempts(ws, steps, q + 1, p, j);
    }
  }

  /** Some pass of the stretch comes after a supervisor restart in it. */
  predicate PassAfterRestart(steps: seq<Step>, i: nat, j: nat)
    requires j <= |steps|
  {
    exists r, p :: i <= r < p < j && steps[r].SupervisorRestarts? && steps[p].ReconcileStep?
  }

  /** With auto_reconnect off, an epoch that has had its launch, or was given up, is attempted again
      if and only if some supervisor restart is followed by a pass: the latch does not outlive the
      process, and nothing else undoes it. */
  lemma RelaunchIff(ws: seq<World>, steps: seq<Step>, i: nat, j: nat)
    requires Wanted(ws, steps, i, j, false) && Served(ws[i])
    ensures (exists k :: i <= k < j && AttemptAt(ws, steps, k)) <==> PassAfterRestart(steps, i, j)
  {
    if PassAfterRestart(steps, i, j) {
      var r, p :| i <= r < p < j && steps[r].SupervisorRestarts? && steps[p].ReconcileStep?;
      RunStep(ws, steps, r);
      var k := FreshAttempts(ws, steps, r + 1, p, j);
    } else {
      forall k | i <= k < j ensures !AttemptAt(ws, steps, k) {
        if steps[k].ReconcileStep? {
          assert forall r :: i <= r < k ==> !steps[r].SupervisorRestarts?;
          ServedForGood(ws, steps, i, k + 1);
        }
      }
    }
  }

  // ---- auto_reconnect on: attempts are spaced -----------------------------------------

  /** Since an attempt at time `t`: either waiting until `t + 3`, or that epoch's child was started. */
  predicate Cooling(w: World, t: real) {
    t <= w.clock &&
    if w.sup.child.NoChild? then w.sup.nextStartAt >= t + 3.0
    else w.sup.activeEpoch == w.files.desired.epoch
  }

  lemma CoolingStays(w: World, step: Step, t: real)
    requires Inv(w) && Enabled(w, step) && !step.SupervisorRestarts? && Cooling(w, t)
    requires w.files.desired.connect && w.files.desired.autoReconnect
    requires Next(w, step).files.desired.epoch == w.files.desired.epoch
    requires Next(w, step).files.desired.connect
    ensures Cooling(Next(w, step), t)
    ensures AttemptOf(w, step) != NoAttempt ==> step.ReconcileStep? && step.r.startCheck >= t + 3.0
  {
    TargetIsWanted(w.files);
  }

  lemma AttemptStartsCooling(w: World, step: Step)
    requires Inv(w) && Enabled(w, step) && AttemptOf(w, step) != NoAttempt
    ensures Cooling(Next(w, step), step.r.startCheck)
  {
    TargetIsWanted(w.files);
  }

  lemma CoolingOneMore(ws: seq<World>, steps: seq<Step>, i: nat, k: nat, j: nat, t: real)
    requires Stretch(ws, steps, i, j, true) && i <= k < j && Cooling(ws[k], t)
    ensures Cooling(ws[k + 1], t) && (AttemptAt(ws, steps, k) ==> AttemptTime(steps, k) >= t + 3.0)
  {
    RunStep(ws, steps, k);
    assert ws[k + 1].files.desired.epoch == ws[k].files.desired.epoch;
    CoolingStays(ws[k], steps[k], t);
  }

  lemma {:induction false} CoolingForGood(ws: seq<World>, steps: seq<Step>, i: nat, j: nat, t: real)
    requires Stretch(ws, steps, i, j, true) && Cooling(ws[i], t)
    ensures Cooling(ws[j], t)
    ensures forall k :: i <= k < j && AttemptAt(ws, steps, k) ==> AttemptTime(steps, k) >= t + 3.0
    decreases j
  {
    if i < j {
      CoolingForGood(ws, steps, i, j - 1, t);
      CoolingOneMore(ws, steps, i, j - 1, j, t);
    }
  }

  lemma TwoAttemptsAreSpaced(ws: seq<World>, steps: seq<Step>, i: nat, j: nat, a: nat, b: nat)
    requires Stretch(ws, steps, i, j, true) && i <= a < b < j
    requires AttemptAt(ws, steps, a) && AttemptAt(ws, steps, b)
    ensures AttemptTime(steps, b) - AttemptTime(steps, a) >= 3.0
  {
    RunStep(ws, steps, a);
    AttemptStartsCooling(ws[a], steps[a]);
    CoolingForGood(ws, steps, a + 1, j, AttemptTime(steps, a));
  }

  /** `at` picks launch attempts of the stretch in order. */
  predicate AttemptsInOrder(ws: seq<World>, steps: seq<Step>, i: nat, j: nat, at: seq<nat>)
    requires i <= j < |ws| && |ws| == |steps| + 1
  {
    && (forall m :: 0 <= m < |at| ==> i <= at[m] < j && AttemptAt(ws, steps, at[m]))
    && forall m, n :: 0 <= m < n < |at| ==> at[m] < at[n]
  }

  /** Any n attempts of a stretch with auto_reconnect on span at least 3(n-1) seconds. */
  lemma {:induction false} AttemptsAreSpaced(ws: seq<World>, steps: seq<Step>, i: nat, j: nat, at: seq<nat>)
    requires Stretch(ws, steps, i, j, true) && at != [] && AttemptsInOrder(ws, steps, i, j, at)
    ensures AttemptTime(steps, at[|at| - 1]) - AttemptTime(steps, at[0]) >= 3.0 * (|at| - 1) as real
    decreases |at|
  {
    if |at| > 1 {
      var n := |at| - 2;
      AttemptsAreSpaced(ws, steps, i, j, at[..n + 1]);
      TwoAttemptsAreSpaced(ws, steps, i, j, at[n], at[n + 1]);
    }
  }

  // ---- the same across supervisor restarts ---------------------------------------------

  /** How many supervisor restarts lie in [i, j). */
  function Restarts(steps: seq<Step>, i: nat, j: nat): nat
    requires i <= j <= |steps|
  {
    if i == j then 0 else Restarts(steps, i, j - 1) + if steps[j - 1].SupervisorRestarts? then 1 else 0
  }

  lemma {:induction false} RestartsAdd(steps: seq<Step>, i: nat, m: nat, j: nat)
    requires i <= m <= j <= |steps|
    ensures Restarts(steps, i, j) == Restarts(steps, i, m) + Restarts(steps, m, j)
    decreases j
  {
    if m < j { RestartsAdd(steps, i, m, j - 1); }
  }

  lemma {:induction false} NoRestarts(steps: seq<Step>, i: nat, j: nat)
    requires i <= j <= |steps| && Restarts(steps, i, j) == 0
    ensures forall k :: i <= k < j ==> !steps[k].SupervisorRestarts?
    decreases j
  {
    if i < j { NoRestarts(steps, i, j - 1); }
  }

  lemma {:induction false} ClockGrows(ws: seq<World>, steps: seq<Step>, i: nat, j: nat)
    requires IsRun(ws, steps) && i <= j < |ws|
    ensures ws[i].clock <= ws[j].clock
    decreases j
  {
    if i < j {
      ClockGrows(ws, steps, i, j - 1);
      RunStep(ws, steps, j - 1);
    }
  }

  /** Two attempts are in order of time, and three seconds apart unless a restart lies between. */
  lemma AttemptsAcross(ws: seq<World>, steps: seq<Step>, i: nat, j: nat, a: nat, b: nat)
    requires Wanted(ws, steps, i, j, true) && i <= a < b < j
    requires AttemptAt(ws, steps, a) && AttemptAt(ws, steps, b)
    ensures AttemptTime(steps, b) - AttemptTime(steps, a) >= if Restarts(steps, a, b) == 0 then 3.0 else 0.0
  {
    RunStep(ws, steps, a);
    RunStep(ws, steps, b);
    ClockGrows(ws, steps, a + 1, b);
    if Restarts(steps, a, b) == 0 {
      NoRestarts(steps, a, b);
      assert ws[a].files.desired.epoch == ws[i].files.desired.epoch;
      assert forall k :: a <= k <= b + 1 ==> ws[k].files.desired.epoch == ws[i].files.desired.epoch;
      TwoAttemptsAreSpaced(ws, steps, a, b + 1, a, b);
    }
  }

  lemma OneMoreGap(before: real, gap: real, m: int, restarts: nat)
    requires before >= 3.0 * m as real && gap >= if restarts == 0 then 3.0 else 0.0
    ensures before + gap >= 3.0 * (m + 1 - restarts) as real
  {
    assert (m + 1 - restarts) as real <= m as real + if restarts == 0 then 1.0 else 0.0;
  }

  lemma {:induction false} SpacedUpTo(ws: seq<World>, steps: seq<Step>, i: nat, j: nat, at: seq<nat>, m: nat)
    requires Wanted(ws, steps, i, j, true) && AttemptsInOrder(ws, steps, i, j, at) && m < |at|
    ensures at[0] <= at[m] < |steps|
    ensures AttemptTime(steps, at[m]) - AttemptTime(steps, at[0]) >= 3.0 * (m - Restarts(steps, at[0], at[m])) as real
  {
    if m > 0 {
      var a, b, c := at[0], at[m - 1], at[m];
      SpacedUpTo(ws, steps, i, j, at, m - 1);
      AttemptsAcross(ws, steps, i, j, b, c);
      RestartsAdd(steps, a, b, c);
      OneMoreGap(AttemptTime(steps, b) - AttemptTime(steps, a), AttemptTime(steps, c) - AttemptTime(steps, b),
                 m - 1 - Restarts(steps, a, b), Restarts(steps, b, c));
    }
  }

  /** Any n attempts with auto_reconnect on and r supervisor restarts among them span at least
      3(n-1-r) seconds: a restart forgets the retry time, once. */
  lemma AttemptsAreSpacedAcross(ws: seq<World>, steps: seq<Step>, i: nat, j: nat, at: seq<nat>)
    requires Wanted(ws, steps, i, j, true) && at != [] && AttemptsInOrder(ws, steps, i, j, at)
    ensures at[0] <= at[|at| - 1] < |steps|
    ensures AttemptTime(steps, at[|at| - 1]) - AttemptTime(steps, at[0])
         >= 3.0 * (|at| - 1 - Restarts(steps, at[0], at[|at| - 1])) as real
  {
    SpacedUpTo(ws, steps, i, j, at, |at| - 1);
  }

  /** How a pass sets the retry time. A failed Popen waits 3 s, or 6 s when an exit back-off had
      already been armed; a collected exit waits 3 s; replacing a stale child waits not at all.
      The doubling towards BACKOFF_MAX never happens. */
  lemma RetryDelays(ws: seq<World>, steps: seq<Step>, k: nat)
    requires IsRun(ws, steps) && k < |steps| && steps[k].ReconcileStep?
    ensures var w, w', r := ws[k], ws[k + 1], steps[k].r;
      var delay := w'.sup.nextStartAt - (if AttemptOf(w, steps[k]) == LaunchFailed then r.launchFailed else r.exitSeen);
      && (AttemptOf(w, steps[k]) == LaunchFailed ==>
            delay == if !w.sup.child.Running? && (w.sup.backoff == 3.0 || w.sup.child.Exited?)
                        && (w.sup.child.Exited? ==> w.files.desired.autoReconnect) then 6.0 else BACKOFF_BASE)
      && (AttemptOf(w, steps[k]) != LaunchFailed && w'.sup.nextStartAt != w.sup.nextStartAt ==>
            if w.sup.child.Running? then w'.sup.nextStartAt == 0.0 else delay == BACKOFF_BASE)
      && w'.sup.backoff <= BACKOFF_BASE
      && w'.sup.nextStartAt <= w'.clock + 6.0
  {
    RunStep(ws, steps, k);
  }

  // ---- disconnect and convergence --------------------------------------------------------

  /** Once a pass has seen connect=false, no child lives for as long as it stays false. */
  lemma {:induction false} DisconnectHolds(ws: seq<World>, steps: seq<Step>, a: nat, j: nat)
    requires IsRun(ws, steps) && a < j < |ws| && steps[a].ReconcileStep?
    requires forall k :: a <= k <= j ==> !ws[k].files.desired.connect
    ensures ws[j].sup.child.NoChild?
    decreases j
  {
    RunStep(ws, steps, j - 1);
    if a < j - 1 {
      DisconnectHolds(ws, steps, a, j - 1);
    }
  }

  /** No child exits and every launch succeeds between worlds `i` and `j`. */
  predicate Healthy(steps: seq<Step>, i: nat, j: nat)
    requires j <= |steps|
  {
    forall k :: i <= k < j ==> !steps[k].ChildExits? && (steps[k].ReconcileStep? ==> steps[k].r.popenOk)
  }

  /** A child of the wanted epoch is up. */
  predicate Connected(w: World) {
    w.sup.child.Running? && w.sup.activeEpoch == w.files.desired.epoch
    && (w.sup.gaveUpEpoch.Some? ==> w.sup.gaveUpEpoch == w.files.desired.epoch)
  }

  /** Connected, or free to start by time `due`. */
  predicate Settling(w: World, due: real) {
    Connected(w) || (w.sup.child.NoChild? && w.sup.nextStartAt <= due)
  }

  lemma SettlingStays(w: World, step: Step, due: real)
    requires Inv(w) && Enabled(w, step) && Settling(w, due)
    requires w.files.desired.connect && w.files.desired.autoReconnect && !step.SupervisorRestarts?
    requires !step.ChildExits? && (step.ReconcileStep? ==> step.r.popenOk)
    requires Next(w, step).files.desired.epoch == w.files.desired.epoch
    ensures Settling(Next(w, step), due)
    ensures Connected(w) ==> Next(w, step).sup == w.sup
    ensures step.ReconcileStep? && step.r.startCheck >= due ==> Connected(Next(w, step))
  {
    TargetIsWanted(w.files);
  }

  lemma {:induction false} SettlingForGood(ws: seq<World>, steps: seq<Step>, i: nat, j: nat, due: real)
    requires Stretch(ws, steps, i, j, true) && Healthy(steps, i, j) && Settling(ws[i], due)
    ensures Settling(ws[j], due)
    ensures Connected(ws[i]) ==> ws[j].sup == ws[i].sup
    decreases j
  {
    if i < j {
      SettlingForGood(ws, steps, i, j - 1, due);
      RunStep(ws, steps, j - 1);
      assert ws[j].files.desired.epoch == ws[j - 1].files.desired.epoch;
      SettlingStays(ws[j - 1], steps[j - 1], due);
    }
  }

  /** Convergence: with a stable wanted connection, auto_reconnect on, successful launches and a
      child that stays up, once a first pass `a` has run, any pass `b` at or after the retry time
      that `a` left, which is at most 6 s away, leaves a matching child running, and the supervisor
      does not change from then on. */
  lemma Converges(ws: seq<World>, steps: seq<Step>, a: nat, b: nat, j: nat)
    requires a < b < j && Stretch(ws, steps, a, j, true) && Healthy(steps, a, j)
    requires steps[a].ReconcileStep? && steps[b].ReconcileStep?
    requires steps[b].r.startCheck >= ws[a + 1].sup.nextStartAt
    ensures ws[a + 1].sup.nextStartAt <= ws[a + 1].clock + 6.0
    ensures ws[j].sup == ws[b + 1].sup
    ensures ws[j].sup.child.Running? && Matches(ws[j].sup.child.launch, ws[j].files.desired)
  {
    RunStep(ws, steps, a);
    var due := ws[a + 1].sup.nextStartAt;
    SettlingForGood(ws, steps, a + 1, b, due);
    RunStep(ws, steps, b);
    SettlingStays(ws[b], steps[b], due);
    SettlingForGood(ws, steps, b + 1, j, due);
    RunKeepsInv(ws, steps, j);
  }

  /** After a supervisor restart there is nothing to wait for: under the same conditions the first pass,
      like any later one, leaves a matching child running, and the supervisor does not change after it. */
  lemma ConvergesAfterRestart(ws: seq<World>, steps: seq<Step>, r: nat, b: nat, j: nat)
    requires r < b < j && Stretch(ws, steps, r + 1, j, true) && Healthy(steps, r + 1, j)
    requires steps[r].SupervisorRestarts? && steps[b].ReconcileStep?
    ensures ws[j].sup == ws[b + 1].sup
    ensures ws[j].sup.child.Running? && Matches(ws[j].sup.child.launch, ws[j].files.desired)
  {
    RunStep(ws, steps, r);
    SettlingForGood(ws, steps, r + 1, b, 0.0);
    RunStep(ws, steps, b);
    SettlingStays(ws[b], steps[b], 0.0);
    SettlingForGood(ws, steps, b + 1, j, 0.0);
    RunKeepsInv(ws, steps, j);
  }

  // ---- is every connect request served? -----------------------------------------------------

  /** Waiting for its first launch, with no latch on this epoch. */
  predicate Pending(w: World, due: real) {
    w.sup.child.NoChild? && w.sup.gaveUpEpoch != w.files.desired.epoch && w.sup.nextStartAt == due
  }

  lemma {:induction false} PendingUntilTried(ws: seq<World>, steps: seq<Step>, i: nat, j: nat, due: real)
    requires Stretch(ws, steps, i, j, false) && Pending(ws[i], due)
    requires forall k :: i <= k < j ==> !AttemptAt(ws, steps, k)
    ensures Pending(ws[j], due)
    decreases j
  {
    if i < j {
      PendingUntilTried(ws, steps, i, j - 1, due);
      RunStep(ws, steps, j - 1);
      assert !AttemptAt(ws, steps, j - 1);
    }
  }

  lemma {:induction false} SupervisorIdle(ws: seq<World>, steps: seq<Step>, i: nat, a: nat)
    requires IsRun(ws, steps) && i <= a < |ws|
    requires forall k :: i <= k < a ==> !steps[k].ReconcileStep? && !steps[k].SupervisorRestarts?
    ensures ws[a].sup.(child := NoChild) == ws[i].sup.(child := NoChild)
    decreases a
  {
    if i < a { SupervisorIdle(ws, steps, i, a - 1); }
  }

  lemma PendingIsTried(ws: seq<World>, steps: seq<Step>, a: nat, b: nat)
    requires a <= b < |steps| && Stretch(ws, steps, a, b, false) && Pending(ws[a], ws[a].sup.nextStartAt)
    requires forall k :: a <= k < b ==> !AttemptAt(ws, steps, k)
    requires steps[b].ReconcileStep? && steps[b].r.startCheck >= ws[a].sup.nextStartAt
    ensures AttemptAt(ws, steps, b)
  {
    PendingUntilTried(ws, steps, a, b, ws[a].sup.nextStartAt);
    RunStep(ws, steps, b);
    TargetIsWanted(ws[b].files);
  }

  /** An accepted connect takes an epoch the supervisor has neither launched nor given up. */
  lemma ConnectIsNew(w: World, step: Step)
    requires Inv(w) && step.ConsoleStep? && step.request.Connect?
    requires HandleRequest(step.admin, w.files, step.request).1 == Accepted
    ensures var w' := Next(w, step);
      w'.sup.gaveUpEpoch != w'.files.desired.epoch && w'.sup.activeEpoch != w'.files.desired.epoch
  {}

  /** The first pass that sees a new epoch, with auto_reconnect off. */
  lemma FirstPass(w: World, r: Readings)
    requires Inv(w) && Enabled(w, ReconcileStep(r)) && w.files.desired.connect && !w.files.desired.autoReconnect
    requires w.sup.gaveUpEpoch != w.files.desired.epoch && w.sup.activeEpoch != w.files.desired.epoch
    ensures w.sup.child.Exited? ==>
      Served(Next(w, ReconcileStep(r))) && AttemptOf(w, ReconcileStep(r)) == NoAttempt
    ensures w.sup.child.Running? ==> AttemptOf(w, ReconcileStep(r)) != NoAttempt
    ensures w.sup.child.NoChild? && r.startCheck >= w.sup.nextStartAt ==> AttemptOf(w, ReconcileStep(r)) != NoAttempt
  {
    TargetIsWanted(w.files);
  }

  /** A connect request accepted at step `i` with auto_reconnect off, its first pass `a` after it,
      and a pass `b` at or after the retry time found by `a`, all under that epoch. OpenVPN is
      attempted by then if and only if the previous child had not exited when `a` looked: an exit
      not yet collected is charged to the new epoch, which is then given up without a launch. */
  lemma ConnectServedIff(ws: seq<World>, steps: seq<Step>, i: nat, a: nat, b: nat)
    requires i < a <= b && b < |steps|
    requires steps[i].ConsoleStep? && steps[i].request.Connect?
    requires IsRun(ws, steps) && HandleRequest(steps[i].admin, ws[i].files, steps[i].request).1 == Accepted
    requires Stretch(ws, steps, i + 1, b + 1, false)
    requires forall k :: i < k < a ==> !steps[k].ReconcileStep?
    requires steps[a].ReconcileStep? && steps[b].ReconcileStep?
    requires steps[b].r.startCheck >= ws[a].sup.nextStartAt
    ensures (exists k :: a <= k <= b && AttemptAt(ws, steps, k)) <==> !ws[a].sup.child.Exited?
  {
    RunStep(ws, steps, i);
    RunStep(ws, steps, a);
    SupervisorIdle(ws, steps, i, a);
    ConnectIsNew(ws[i], steps[i]);
    assert ws[i + 1].files.desired.epoch == ws[a].files.desired.epoch;
    FirstPass(ws[a], steps[a].r);
    if ws[a].sup.child.Exited? {
      assert !AttemptAt(ws, steps, a);
      ServedForGood(ws, steps, a + 1, b + 1);
    } else if ws[a].sup.child.Running? {
      assert AttemptAt(ws, steps, a);
    } else if forall k :: a <= k < b ==> !AttemptAt(ws, steps, k) {
      PendingIsTried(ws, steps, a, b);
    }
  }

  /** The first pass after an accepted connect replaces a running child, whatever auto_reconnect is, and
      with auto_reconnect on attempts a missing one that is due. */
  lemma FirstPassReplaces(ws: seq<World>, steps: seq<Step>, i: nat, a: nat)
    requires IsRun(ws, steps) && i < a < |steps| && steps[a].ReconcileStep?
    requires steps[i].ConsoleStep? && steps[i].request.Connect?
    requires HandleRequest(steps[i].admin, ws[i].files, steps[i].request).1 == Accepted
    requires forall k :: i < k < a ==> !steps[k].ReconcileStep? && !steps[k].SupervisorRestarts?
    requires ws[a].files.desired.connect && ws[a].files.desired.epoch == ws[i + 1].files.desired.epoch
    ensures ws[a].sup.child.Running? ==> AttemptAt(ws, steps, a)
    ensures ws[a].sup.child.NoChild? && steps[a].r.startCheck >= ws[a].sup.nextStartAt ==> AttemptAt(ws, steps, a)
  {
    RunStep(ws, steps, i);
    RunStep(ws, steps, a);
    SupervisorIdle(ws, steps, i, a);
    ConnectIsNew(ws[i], steps[i]);
    PassAttemptsIff(ws[a], steps[a].r);
  }

  /** Without a child, with auto_reconnect on, nothing moves the retry time before the next attempt. */
  lemma {:induction false} WaitingUntilTried(ws: seq<World>, steps: seq<Step>, i: nat, j: nat, due: real)
    requires Stretch(ws, steps, i, j, true) && ws[i].sup.child.NoChild? && ws[i].sup.nextStartAt == due
    requires forall k :: i <= k < j ==> !AttemptAt(ws, steps, k)
    ensures ws[j].sup.child.NoChild? && ws[j].sup.nextStartAt == due
    decreases j
  {
    if i < j {
      WaitingUntilTried(ws, steps, i, j - 1, due);
      RunStep(ws, steps, j - 1);
      assert !AttemptAt(ws, steps, j - 1);
    }
  }

  /** With auto_reconnect on every accepted connect is served: between its first pass `a` and any pass `b`
      at or after the retry time that `a` leaves, a launch is attempted. */
  lemma ConnectServedOn(ws: seq<World>, steps: seq<Step>, i: nat, a: nat, b: nat)
    requires i < a < b < |steps| && steps[i].ConsoleStep? && steps[i].request.Connect?
    requires IsRun(ws, steps) && HandleRequest(steps[i].admin, ws[i].files, steps[i].request).1 == Accepted
    requires Stretch(ws, steps, i + 1, b + 1, true)
    requires forall k :: i < k < a ==> !steps[k].ReconcileStep?
    requires steps[a].ReconcileStep? && steps[b].ReconcileStep?
    requires steps[b].r.startCheck >= ws[a + 1].sup.nextStartAt
    ensures exists k :: a <= k <= b && AttemptAt(ws, steps, k)
  {
    FirstPassReplaces(ws, steps, i, a);
    RunStep(ws, steps, a);
    PassLeaves(ws[a], steps[a].r);
    RunStep(ws, steps, i);
    SupervisorIdle(ws, steps, i, a);
    ConnectIsNew(ws[i], steps[i]);
    if AttemptAt(ws, steps, a) {
    } else if forall k :: a <= k < b ==> !AttemptAt(ws, steps, k) {
      WaitingUntilTried(ws, steps, a + 1, b, ws[a + 1].sup.nextStartAt);
      RunStep(ws, steps, b);
      PassAttemptsIff(ws[b], steps[b].r);
      assert AttemptAt(ws, steps, b);
    }
  }

  // ---- concrete runs -----------------------------------------------------------------------------

  const START := World(Files(NO_DESIRED, {"a"}, {}), FRESH_SUPERVISOR, 0.0)

  function ConnectA(auto: bool): Step {
    ConsoleStep(true, Connect("a", false, Absent, auto, Written, true))
  }

  function PassAt(t: real): Step {
    ReconcileStep(Readings(t, t, t, true))
  }

  lemma NameA()
    ensures ConsoleName("a") && MatchesProfileRe("a")
  {
    var name := "a";
    assert |name| == 1 && name[0] == 'a';
    assert NameChar(name[0]);
    assert name == "a";
  }

  /** The documentation promises that a new epoch reconnects. Here the second connect, epoch 2, is
      accepted, and two later passes, one of them a hundred seconds on, launch nothing. */
  lemma SwallowedConnect() returns (ws: seq<World>, steps: seq<Step>)
    ensures IsRun(ws, steps) && |steps| == 6
    ensures steps[3] == ConnectA(false) && HandleRequest(true, ws[3].files, steps[3].request).1 == Accepted
    ensures steps[4].ReconcileStep? && !AttemptAt(ws, steps, 4)
    ensures steps[5].ReconcileStep? && steps[5].r.startCheck == 100.0 && !AttemptAt(ws, steps, 5)
    ensures ws[6].files.desired.connect && ws[6].files.desired.epoch == Some(2) && ws[6].sup.child.NoChild?
  {
    NameA();
    steps := [ConnectA(false), PassAt(1.0), ChildExits, ConnectA(false), PassAt(2.0), PassAt(100.0)];
    var w1 := Next(START, steps[0]);
    var w2 := Next(w1, steps[1]);
    assert w2.sup.child.Running?;
    var w3 := Next(w2, steps[2]);
    var w4 := Next(w3, steps[3]);
    var w5 := Next(w4, steps[4]);
    ws := [START, w1, w2, w3, w4, w5, Next(w5, steps[5])];
  }

  /** A run in which auto_reconnect lags: the child keeps the choice it was started with. */
  lemma AutoReconnectLags() returns (ws: seq<World>, steps: seq<Step>)
    ensures IsRun(ws, steps) && |steps| == 4 && steps[3].ReconcileStep?
    ensures ws[4].sup.child.Running?
    ensures ws[4].sup.child.launch.autoReconnect != ws[4].files.desired.autoReconnect
  {
    NameA();
    steps := [ConnectA(true), PassAt(1.0), ConsoleStep(true, SetAutoReconnect(false, true)), PassAt(2.0)];
    var w1 := Next(START, steps[0]);
    var w2 := Next(w1, steps[1]);
    assert w2.sup.child.Running?;
    var w3 := Next(w2, steps[2]);
    ws := [START, w1, w2, w3, Next(w3, steps[3])];
  }

  /** A run with such a relaunch: the give-up latch lives in memory only. */
  lemma RestartForgetsLatch() returns (ws: seq<World>, steps: seq<Step>)
    ensures IsRun(ws, steps) && |steps| == 6 && steps[4].SupervisorRestarts?
    ensures forall k :: 1 <= k <= 6 ==> ws[k].files.desired == ws[1].files.desired && !ws[k].files.desired.autoReconnect
    ensures AttemptOf(ws[1], steps[1]) == Launched && AttemptOf(ws[3], steps[3]) == NoAttempt
    ensures AttemptOf(ws[5], steps[5]) == Launched
  {
    NameA();
    steps := [ConnectA(false), PassAt(1.0), ChildExits, PassAt(2.0), SupervisorRestarts, PassAt(3.0)];
    var w1 := Next(START, steps[0]);
    var w2 := Next(w1, steps[1]);
    assert w2.sup.child.Running?;
    var w3 := Next(w2, steps[2]);
    var w4 := Next(w3, steps[3]);
    var w5 := Next(w4, steps[4]);
    ws := [START, w1, w2, w3, w4, w5, Next(w5, steps[5])];
  }
}
