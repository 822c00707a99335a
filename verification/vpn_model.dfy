/** The VPN desired-state protocol as pure values: the shared volume, the console
    requests that write it, and one pass of the supervisor's reconcile loop. */
module VpnModel {
  import opened Common

  const BACKOFF_BASE := 3.0
  const BACKOFF_MAX := 60.0

  // ---- profile names --------------------------------------------------------

  predicate NameChar(c: char) {
    'A' <= c <= 'Z' || 'a' <= c <= 'z' || '0' <= c <= '9' || c in "._-"
  }

  /** The supervisor's name test. `$` also matches just before a final newline, so one
      trailing newline is tolerated. */
  predicate MatchesProfileRe(name: string) {
    var body := if name != "" && name[|name| - 1] == '\n' then name[..|name| - 1] else name;
    1 <= |body| <= 64 && forall i :: 0 <= i < |body| ==> NameChar(body[i])
  }

  /** The console's stricter test: no ".." anywhere. */
  predicate ConsoleName(name: string) {
    MatchesProfileRe(name) && forall i, j :: 0 <= i && j == i + 1 < |name| && name[i] == '.' ==> name[j] != '.'
  }

  // ---- the shared volume ----------------------------------------------------

  /** desired.json with the readers' defaults filled in: a missing `auto_reconnect`
      reads as true, every other missing flag as false. */
  datatype Desired = Desired(
    connect: bool,
    profile: Option<string>,
    redirectGateway: bool,
    auth: bool,
    autoReconnect: bool,
    epoch: Option<nat>)

  const NO_DESIRED := Desired(false, None, false, false, true, None)

  datatype Files = Files(desired: Desired, profiles: set<string>, authFiles: set<string>)

  function NextEpoch(d: Desired): nat {
    match d.epoch case None => 1 case Some(e) => e + 1
  }

  // ---- console requests -----------------------------------------------------

  datatype Credentials = Absent | WellFormed | Malformed

  /** How a plain (non-atomic) file write ends; a failing one may leave the file behind. */
  datatype WriteResult = Written | FailedClean | FailedLeftFile

  datatype Request =
    | Connect(profile: string, redirectGateway: bool, credentials: Credentials,
              autoReconnect: bool, authWrite: WriteResult, desiredWritten: bool)
    | Disconnect(desiredWritten: bool)
    | SetAutoReconnect(on: bool, desiredWritten: bool)
    | SaveProfile(name: string, contentUsable: bool, profileWrite: WriteResult)
    | DeleteProfile(name: string, profileUnlinked: bool, authUnlinked: bool)

  datatype Reply = Accepted | Refused(status: nat)

  /** Files after a plain write of `name` into `existing`. */
  function AfterWrite(existing: set<string>, name: string, result: WriteResult): set<string> {
    if result.FailedClean? then existing else existing + {name}
  }

  function ConnectRequest(f: Files, q: Request): (Files, Reply)
    requires q.Connect?
  {
    if !ConsoleName(q.profile) then (f, Refused(400))
    else if q.profile !in f.profiles then (f, Refused(404))
    else if q.credentials.Malformed? then (f, Refused(400))
    else
      var stored := if q.credentials.WellFormed?
                    then f.(authFiles := AfterWrite(f.authFiles, q.profile, q.authWrite)) else f;
      if q.credentials.WellFormed? && !q.authWrite.Written? then (stored, Refused(500))
      else if !q.desiredWritten then (stored, Refused(500))
      else
        var wanted := Desired(true, Some(q.profile), q.redirectGateway,
                              q.profile in stored.authFiles, q.autoReconnect, Some(NextEpoch(f.desired)));
        (stored.(desired := wanted), Accepted)
  }

  function DeleteRequest(f: Files, q: Request): (Files, Reply)
    requires q.DeleteProfile?
  {
    if !ConsoleName(q.name) then (f, Refused(400))
    else if q.name !in f.profiles then (f, Refused(404))
    else if f.desired.connect && f.desired.profile == Some(q.name) then (f, Refused(409))
    else if !q.profileUnlinked then (f, Refused(500))
    else
      var gone := f.(profiles := f.profiles - {q.name});
      if q.authUnlinked then (gone.(authFiles := f.authFiles - {q.name}), Accepted)
      else (gone, Refused(500))
  }

  /** What one console request does to the shared volume, and its reply. */
  function HandleRequest(admin: bool, f: Files, q: Request): (Files, Reply) {
    if !admin then (f, Refused(403))
    else match q
      case Connect(_, _, _, _, _, _) => ConnectRequest(f, q)
      case DeleteProfile(_, _, _) => DeleteRequest(f, q)
      case Disconnect(ok) =>
        var off := NO_DESIRED.(profile := f.desired.profile, epoch := Some(NextEpoch(f.desired)));
        if ok then (f.(desired := off), Accepted)
        else (f, Refused(500))
      case SetAutoReconnect(on, ok) =>
        if ok then (f.(desired := f.desired.(autoReconnect := on)), Accepted) else (f, Refused(500))
      case SaveProfile(name, usable, result) =>
        if !ConsoleName(name) || !usable then (f, Refused(400))
        else (f.(profiles := AfterWrite(f.profiles, name, result)),
              if result.Written? then Accepted else Refused(500))
  }

  // ---- the supervisor -------------------------------------------------------

  /** The argv choices an OpenVPN child was started with. */
  datatype Launch = Launch(profile: string, redirectGateway: bool, useAuth: bool, autoReconnect: bool)

  datatype Child = NoChild | Running(launch: Launch) | Exited(launch: Launch)

  datatype SupervisorState = SupervisorState(
    child: Child,
    activeProfile: Option<string>,
    activeEpoch: Option<nat>,
    gaveUpEpoch: Option<nat>,
    backoff: real,
    nextStartAt: real)

  const FRESH_SUPERVISOR := SupervisorState(NoChild, None, None, None, 0.0, 0.0)

  /** The clock readings one pass may take, in program order, and whether Popen succeeds. */
  datatype Readings = Readings(exitSeen: real, startCheck: real, launchFailed: real, popenOk: bool)

  datatype Attempt = NoAttempt | Launched | LaunchFailed

  datatype Pass = Pass(next: SupervisorState, attempt: Attempt)

  /** The profile a pass may connect to: wanted, well named and present on disk. */
  function Target(f: Files): Option<string> {
    if f.desired.connect && f.desired.profile.Some? && MatchesProfileRe(f.desired.profile.value)
       && f.desired.profile.value in f.profiles
    then f.desired.profile else None
  }

  function ArgvChoices(f: Files, profile: string): Launch {
    Launch(profile, f.desired.redirectGateway, f.desired.auth && profile in f.authFiles, f.desired.autoReconnect)
  }

  function BumpedBackoff(backoff: real): real {
    var doubled := if backoff * 2.0 == 0.0 then BACKOFF_BASE else backoff * 2.0;
    var raised := if doubled > BACKOFF_BASE then doubled else BACKOFF_BASE;
    if raised < BACKOFF_MAX then raised else BACKOFF_MAX
  }

  function Bumped(s: SupervisorState, now: real): SupervisorState {
    s.(backoff := BumpedBackoff(s.backoff), nextStartAt := now + BumpedBackoff(s.backoff))
  }

  function Stopped(s: SupervisorState): SupervisorState {
    s.(child := NoChild, activeProfile := None, activeEpoch := None)
  }

  /** An exited child is collected: latch when reconnection is off, otherwise back off. */
  function Collected(s: SupervisorState, d: Desired, now: real): SupervisorState {
    if !s.child.Exited? then s
    else if d.autoReconnect then Bumped(s.(child := NoChild, activeProfile := None), now)
    else s.(child := NoChild, activeProfile := None, gaveUpEpoch := d.epoch)
  }

  /** The tail of a pass with no running child. */
  function StartIfDue(s: SupervisorState, f: Files, profile: string, r: Readings): Pass {
    var d := f.desired;
    if (!d.autoReconnect && s.gaveUpEpoch == d.epoch) || r.startCheck < s.nextStartAt then Pass(s, NoAttempt)
    else if r.popenOk then
      Pass(s.(child := Running(ArgvChoices(f, profile)), activeProfile := Some(profile),
              activeEpoch := d.epoch, backoff := 0.0), Launched)
    else Pass(Bumped(s.(child := NoChild), r.launchFailed).(backoff := 0.0), LaunchFailed)
  }

  function WithTarget(s: SupervisorState, f: Files, profile: string, r: Readings): Pass {
    var d := f.desired;
    var unlatched := if s.gaveUpEpoch.Some? && s.gaveUpEpoch != d.epoch then s.(gaveUpEpoch := None) else s;
    var stale := d.epoch != s.activeEpoch || (s.activeProfile.Some? && s.activeProfile.value != profile);
    if s.child.Running? && !stale then Pass(unlatched, NoAttempt)
    else if s.child.Running? then
      StartIfDue(Stopped(unlatched).(backoff := 0.0, nextStartAt := 0.0), f, profile, r)
    else StartIfDue(Collected(unlatched, d, r.exitSeen), f, profile, r)
  }

  /** One pass of the reconcile loop. */
  function Reconcile(s: SupervisorState, f: Files, r: Readings): Pass {
    match Target(f)
    case Some(profile) => WithTarget(s, f, profile, r)
    case None =>
      if f.desired.connect then Pass(Stopped(s), NoAttempt)
      else
        var busy := s.child.Running? || (s.activeProfile.Some? && s.activeProfile.value != "");
        var idle := if busy then Stopped(s) else s;
        Pass(idle.(backoff := 0.0), NoAttempt)
  }
}
