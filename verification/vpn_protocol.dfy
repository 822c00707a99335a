/** Console and supervisor composed: every interleaving of console requests, supervisor
    passes, child exits, supervisor restarts and the clock. */
module VpnProtocol {
  import opened Common
  import opened VpnModel

  datatype World = World(files: Files, sup: SupervisorState, clock: real)

  datatype Step =
    | ConsoleStep(admin: bool, request: Request)
    | ReconcileStep(r: Readings)
    | ChildExits
    | SupervisorRestarts
    | Tick(now: real)

  predicate Enabled(w: World, step: Step) {
    match step
    case ConsoleStep(_, _) => true
    case ReconcileStep(r) => w.clock <= r.exitSeen <= r.startCheck <= r.launchFailed
    case ChildExits => w.sup.child.Running?
    case SupervisorRestarts => true
    case Tick(now) => w.clock <= now
  }

  function Next(w: World, step: Step): World {
    match step
    case ConsoleStep(admin, request) => w.(files := HandleRequest(admin, w.files, request).0)
    case ReconcileStep(r) => w.(sup := Reconcile(w.sup, w.files, r).next, clock := r.launchFailed)
    case ChildExits =>
      if w.sup.child.Running? then w.(sup := w.sup.(child := Exited(w.sup.child.launch))) else w
    case SupervisorRestarts => w.(sup := FRESH_SUPERVISOR)
    case Tick(now) => w.(clock := now)
  }

  function AttemptOf(w: World, step: Step): Attempt {
    if step.ReconcileStep? then Reconcile(w.sup, w.files, step.r).attempt else NoAttempt
  }

  predicate Initial(w: World) {
    w.files.desired == NO_DESIRED && w.sup == FRESH_SUPERVISOR && w.clock >= 0.0
  }

  /** `ws` lists the worlds a run passes through, `steps` what happened between them. */
  predicate IsRun(ws: seq<World>, steps: seq<Step>) {
    |ws| == |steps| + 1 && Initial(ws[0]) &&
    forall k :: 0 <= k < |steps| ==> Enabled(ws[k], steps[k]) && ws[k + 1] == Next(ws[k], steps[k])
  }

  // ---- the invariant ----------------------------------------------------------

  /** A wanted connection names a profile that exists, and its credential file if it uses one. */
  predicate FilesOk(f: Files) {
    f.desired.connect ==>
      && f.desired.epoch.Some?
      && f.desired.profile.Some?
      && ConsoleName(f.desired.profile.value)
      && f.desired.profile.value in f.profiles
      && (f.desired.auth ==> f.desired.profile.value in f.authFiles)
  }

  /** `l` was started with the choices `d` asks for; auto_reconnect is not compared. */
  predicate Matches(l: Launch, d: Desired) {
    d.connect && d.profile == Some(l.profile) && d.redirectGateway == l.redirectGateway && d.auth == l.useAuth
  }

  predicate NotNewer(e: Option<nat>, d: Desired) {
    e.Some? ==> d.epoch.Some? && e.value <= d.epoch.value
  }

  predicate ChildOk(s: SupervisorState, d: Desired) {
    if s.child.NoChild? then s.activeProfile == None
    else
      && s.activeProfile == Some(s.child.launch.profile) && s.child.launch.profile != ""
      && s.activeEpoch.Some?
      && s.backoff == 0.0
      && (s.gaveUpEpoch.Some? ==> s.gaveUpEpoch.value <= s.activeEpoch.value)
      && (s.activeEpoch == d.epoch ==> Matches(s.child.launch, d))
  }

  predicate SupervisorOk(s: SupervisorState, d: Desired, clock: real) {
    && ChildOk(s, d)
    && NotNewer(s.activeEpoch, d)
    && NotNewer(s.gaveUpEpoch, d)
    && (s.backoff == 0.0 || s.backoff == 3.0)
    && s.nextStartAt <= clock + 6.0
    && 0.0 <= clock
  }

  predicate Inv(w: World) {
    FilesOk(w.files) && SupervisorOk(w.sup, w.files.desired, w.clock)
  }

  lemma ConsoleKeepsInv(w: World, admin: bool, request: Request)
    requires Inv(w)
    ensures Inv(Next(w, ConsoleStep(admin, request)))
  {}

  /** In a good world the reconcile target is exactly the wanted profile. */
  lemma TargetIsWanted(f: Files)
    requires FilesOk(f)
    ensures Target(f) == if f.desired.connect then f.desired.profile else None
  {}

  /** Starting, or not yet starting, with no child up. */
  lemma StartKeepsOk(s: SupervisorState, f: Files, profile: string, r: Readings, clock: real)
    requires FilesOk(f) && f.desired.connect && f.desired.profile == Some(profile)
    requires SupervisorOk(s, f.desired, clock) && s.child.NoChild? && clock <= r.startCheck <= r.launchFailed
    ensures SupervisorOk(StartIfDue(s, f, profile, r).next, f.desired, r.launchFailed)
  {}

  lemma CollectedIsOk(s: SupervisorState, d: Desired, now: real, clock: real)
    requires SupervisorOk(s, d, clock) && !s.child.Running? && clock <= now
    ensures SupervisorOk(Collected(s, d, now), d, now) && Collected(s, d, now).child.NoChild?
  {}

  lemma WithTargetKeepsOk(s: SupervisorState, f: Files, profile: string, r: Readings, clock: real)
    requires FilesOk(f) && f.desired.connect && f.desired.profile == Some(profile)
    requires SupervisorOk(s, f.desired, clock) && clock <= r.exitSeen <= r.startCheck <= r.launchFailed
    ensures SupervisorOk(WithTarget(s, f, profile, r).next, f.desired, r.launchFailed)
  {
    var unlatched := if s.gaveUpEpoch.Some? && s.gaveUpEpoch != f.desired.epoch then s.(gaveUpEpoch := None) else s;
    if s.child.Running? {
      StartKeepsOk(Stopped(unlatched).(backoff := 0.0, nextStartAt := 0.0), f, profile, r, clock);
    } else {
      CollectedIsOk(unlatched, f.desired, r.exitSeen, clock);
      StartKeepsOk(Collected(unlatched, f.desired, r.exitSeen), f, profile, r, r.exitSeen);
    }
  }

  lemma ReconcileKeepsInv(w: World, r: Readings)
    requires Inv(w) && Enabled(w, ReconcileStep(r))
    ensures Inv(Next(w, ReconcileStep(r)))
  {
    TargetIsWanted(w.files);
    if w.files.desired.connect {
      WithTargetKeepsOk(w.sup, w.files, w.files.desired.profile.value, r, w.clock);
    }
  }

  lemma StepKeepsInv(w: World, step: Step)
    requires Inv(w) && Enabled(w, step)
    ensures Inv(Next(w, step))
  {
    match step
    case ConsoleStep(admin, request) => ConsoleKeepsInv(w, admin, request);
    case ReconcileStep(r) => ReconcileKeepsInv(w, r);
    case ChildExits =>
    case SupervisorRestarts =>
    case Tick(_) =>
  }

  lemma {:induction false} RunKeepsInv(ws: seq<World>, steps: seq<Step>, k: nat)
    requires IsRun(ws, steps) && k < |ws|
    ensures Inv(ws[k])
  {
    if k > 0 {
      RunKeepsInv(ws, steps, k - 1);
      StepKeepsInv(ws[k - 1], steps[k - 1]);
    }
  }

  /** Step `k` of a run starts in a good world. */
  lemma RunStep(ws: seq<World>, steps: seq<Step>, k: nat)
    requires IsRun(ws, steps) && k < |steps|
    ensures Enabled(ws[k], steps[k]) && ws[k + 1] == Next(ws[k], steps[k])
    ensures Inv(ws[k]) && Inv(ws[k + 1])
    ensures Target(ws[k].files) == if ws[k].files.desired.connect then ws[k].files.desired.profile else None
  {
    RunKeepsInv(ws, steps, k);
    RunKeepsInv(ws, steps, k + 1);
    TargetIsWanted(ws[k].files);
  }
}
