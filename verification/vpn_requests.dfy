/** What each console request and each supervisor pass does, stated on the request, the files and the
    clock readings themselves. */
module VpnRequests {
  import opened Common
  import opened VpnModel
  import opened VpnProtocol

  // ---- console requests -----------------------------------------------------------------

  /** A connect is accepted exactly when the control is enabled, the name is good, the profile exists,
      the credentials are not malformed and both writes succeed. Then desired.json holds exactly what
      was requested, under the next epoch; otherwise it is untouched. */
  lemma ConnectStores(admin: bool, f: Files, q: Request)
    requires q.Connect?
    ensures var (g, reply) := HandleRequest(admin, f, q);
      && (reply == Accepted <==>
            && admin && ConsoleName(q.profile) && q.profile in f.profiles && q.credentials != Malformed
            && (q.credentials == WellFormed ==> q.authWrite == Written) && q.desiredWritten)
      && (reply == Accepted ==>
            && g.desired.connect && g.desired.profile == Some(q.profile)
            && g.desired.redirectGateway == q.redirectGateway && g.desired.autoReconnect == q.autoReconnect
            && (g.desired.auth <==> q.credentials == WellFormed || q.profile in f.authFiles)
            && g.desired.epoch == Some(if f.desired.epoch.Some? then f.desired.epoch.value + 1 else 1))
      && (reply != Accepted ==> g.desired == f.desired)
  {}

  lemma ConnectTouchesOnly(admin: bool, f: Files, q: Request)
    requires q.Connect?
    ensures var (g, reply) := HandleRequest(admin, f, q);
      && g.profiles == f.profiles
      && f.authFiles <= g.authFiles <= f.authFiles + {q.profile}
      && (reply == Accepted && q.credentials == WellFormed ==> q.profile in g.authFiles)
      && (q.credentials == Absent ==> g.authFiles == f.authFiles)
  {}

  /** A disconnect keeps the profile name, takes the next epoch and resets every choice. */
  lemma DisconnectStores(admin: bool, f: Files, q: Request)
    requires q.Disconnect?
    ensures var (g, reply) := HandleRequest(admin, f, q);
      && (reply == Accepted <==> admin && q.desiredWritten)
      && (reply == Accepted ==>
            && !g.desired.connect && g.desired.profile == f.desired.profile
            && !g.desired.redirectGateway && !g.desired.auth && g.desired.autoReconnect
            && g.desired.epoch == Some(if f.desired.epoch.Some? then f.desired.epoch.value + 1 else 1))
      && (reply != Accepted ==> g.desired == f.desired)
      && g.profiles == f.profiles && g.authFiles == f.authFiles
  {}

  /** Toggling changes that one flag. */
  lemma ToggleStores(admin: bool, f: Files, q: Request)
    requires q.SetAutoReconnect?
    ensures var (g, reply) := HandleRequest(admin, f, q);
      && (reply == Accepted <==> admin && q.desiredWritten)
      && (reply == Accepted ==> g.desired.autoReconnect == q.on)
      && (reply != Accepted ==> g.desired == f.desired)
      && g.desired.connect == f.desired.connect && g.desired.profile == f.desired.profile
      && g.desired.redirectGateway == f.desired.redirectGateway && g.desired.auth == f.desired.auth
      && g.desired.epoch == f.desired.epoch && g.profiles == f.profiles && g.authFiles == f.authFiles
  {}

  /** A saved profile exists afterwards; a refused one adds nothing, except that a failing write may
      leave the file. */
  lemma SaveStores(admin: bool, f: Files, q: Request)
    requires q.SaveProfile?
    ensures var (g, reply) := HandleRequest(admin, f, q);
      && (reply == Accepted <==> admin && ConsoleName(q.name) && q.contentUsable && q.profileWrite == Written)
      && f.profiles <= g.profiles <= f.profiles + {q.name}
      && (reply == Accepted ==> q.name in g.profiles)
      && (!admin || !ConsoleName(q.name) || !q.contentUsable || q.profileWrite == FailedClean ==>
            g.profiles == f.profiles)
      && g.desired == f.desired && g.authFiles == f.authFiles
  {}

  predicate InUse(f: Files, name: string) {
    f.desired.connect && f.desired.profile == Some(name)
  }

  /** A deleted profile is gone with its credentials, and without them when only their removal fails;
      the one a wanted connection names never is. */
  lemma DeleteStores(admin: bool, f: Files, q: Request)
    requires q.DeleteProfile?
    ensures var (g, reply) := HandleRequest(admin, f, q);
      && (reply == Accepted <==>
            && admin && ConsoleName(q.name) && q.name in f.profiles
            && !InUse(f, q.name) && q.profileUnlinked && q.authUnlinked)
      && (reply == Accepted ==> g.profiles == f.profiles - {q.name} && g.authFiles == f.authFiles - {q.name})
      && (q.name in f.profiles && q.name !in g.profiles <==>
            admin && ConsoleName(q.name) && q.name in f.profiles && !InUse(f, q.name) && q.profileUnlinked)
      && f.profiles - {q.name} <= g.profiles <= f.profiles && f.authFiles - {q.name} <= g.authFiles <= f.authFiles
      && (reply != Accepted ==> g.authFiles == f.authFiles)
      && (InUse(f, q.name) ==> g == f)
      && g.desired == f.desired
  {}

  /** The status of every refusal. */
  lemma RefusalStatus(admin: bool, f: Files, q: Request)
    ensures var reply := HandleRequest(admin, f, q).1;
      && (!admin ==> reply == Refused(403))
      && (admin && q.Connect? && !ConsoleName(q.profile) ==> reply == Refused(400))
      && (admin && q.Connect? && ConsoleName(q.profile) && q.profile !in f.profiles ==> reply == Refused(404))
      && (admin && q.Connect? && ConsoleName(q.profile) && q.profile in f.profiles && q.credentials == Malformed ==>
            reply == Refused(400))
      && (admin && q.SaveProfile? && (!ConsoleName(q.name) || !q.contentUsable) ==> reply == Refused(400))
      && (admin && q.DeleteProfile? && !ConsoleName(q.name) ==> reply == Refused(400))
      && (admin && q.DeleteProfile? && ConsoleName(q.name) && q.name !in f.profiles ==> reply == Refused(404))
      && (admin && q.DeleteProfile? && ConsoleName(q.name) && q.name in f.profiles && InUse(f, q.name) ==>
            reply == Refused(409))
  {}

  // ---- back-off and launch choices ----------------------------------------------------------

  /** The next delay doubles the last between 3 and 60 seconds. */
  lemma BackoffDoubles(backoff: real)
    ensures 3.0 <= BumpedBackoff(backoff) <= 60.0
    ensures backoff <= 1.5 ==> BumpedBackoff(backoff) == 3.0
    ensures 1.5 <= backoff <= 30.0 ==> BumpedBackoff(backoff) == 2.0 * backoff
    ensures backoff >= 30.0 ==> BumpedBackoff(backoff) == 60.0
  {}

  /** A child is started for the profile with the gateway and reconnection choices desired, and with
      credentials when they are desired and there. */
  lemma LaunchChoices(f: Files, profile: string)
    ensures var l := ArgvChoices(f, profile);
      && l.profile == profile && l.redirectGateway == f.desired.redirectGateway
      && l.autoReconnect == f.desired.autoReconnect
      && (l.useAuth <==> f.desired.auth && profile in f.authFiles)
  {}

  // ---- the decision of a pass ------------------------------------------------------------------

  /** A running child of another epoch. */
  predicate Stale(w: World) {
    w.sup.child.Running? && w.sup.activeEpoch != w.files.desired.epoch
  }

  /** No child, not given up on this epoch, and the retry time has come. */
  predicate Due(w: World, now: real) {
    w.sup.child.NoChild? && (w.files.desired.autoReconnect || w.sup.gaveUpEpoch != w.files.desired.epoch)
    && now >= w.sup.nextStartAt
  }

  /** In a good world a pass attempts a launch exactly when a connection is wanted and the child is of
      another epoch, or missing and due, or exited with auto-reconnect on and its delay already over;
      the attempt succeeds exactly when Popen does. */
  lemma PassAttemptsIff(w: World, r: Readings)
    requires Inv(w) && Enabled(w, ReconcileStep(r))
    ensures var attempt, d := AttemptOf(w, ReconcileStep(r)), w.files.desired;
      && (attempt != NoAttempt <==>
            d.connect && (Stale(w) || Due(w, r.startCheck)
              || (w.sup.child.Exited? && d.autoReconnect
                  && r.startCheck >= r.exitSeen + if w.sup.backoff == 0.0 then 3.0 else 2.0 * w.sup.backoff)))
      && (attempt == Launched <==> attempt != NoAttempt && r.popenOk)
  {
    TargetIsWanted(w.files);
  }

  /** And what it leaves: a launched child of the wanted profile and epoch, the same running child if its
      epoch is current, or none. */
  lemma PassLeaves(w: World, r: Readings)
    requires Inv(w) && Enabled(w, ReconcileStep(r))
    ensures var s, d, attempt := Next(w, ReconcileStep(r)).sup, w.files.desired, AttemptOf(w, ReconcileStep(r));
      if attempt == Launched then
        s.child.Running? && d.profile == Some(s.child.launch.profile)
        && s.activeProfile == d.profile && s.activeEpoch == d.epoch
      else if d.connect && w.sup.child.Running? && w.sup.activeEpoch == d.epoch then
        s.child == w.sup.child && s.activeEpoch == d.epoch
      else s.child == NoChild && s.activeProfile == None
  {
    TargetIsWanted(w.files);
  }

  /** An attempt, and a pass without a wanted connection, clear the back-off; collecting an exit with
      auto-reconnect on sets it to 3 seconds; any other pass leaves it. */
  lemma PassBackoff(w: World, r: Readings)
    requires Inv(w) && Enabled(w, ReconcileStep(r))
    ensures var s, d := Next(w, ReconcileStep(r)).sup, w.files.desired;
      s.backoff == if AttemptOf(w, ReconcileStep(r)) != NoAttempt || !d.connect then 0.0
                   else if w.sup.child.Exited? && d.autoReconnect then 3.0
                   else w.sup.backoff
  {
    TargetIsWanted(w.files);
  }
}
