/** The two programs that share the VPN volume, updating it and themselves in place. */
module VpnServices {
  import opened Common
  import opened VpnModel

  /** /data/agent/vpn: desired.json plus the profile and credential files. */
  class SharedVolume {
    var desired: Desired
    var profiles: set<string>
    var authFiles: set<string>

    constructor (profiles: set<string>, authFiles: set<string>)
      ensures View() == Files(NO_DESIRED, profiles, authFiles)
    {
      this.desired := NO_DESIRED;
      this.profiles := profiles;
      this.authFiles := authFiles;
    }

    function View(): Files
      reads this
    {
      Files(desired, profiles, authFiles)
    }
  }

  /** vpn_service.py: the control plane. */
  class Console {
    const volume: SharedVolume
    const admin: bool

    constructor (volume: SharedVolume, admin: bool)
      ensures this.volume == volume && this.admin == admin
    {
      this.volume := volume;
      this.admin := admin;
    }

    method Connect(profile: string, redirectGateway: bool, credentials: Credentials, autoReconnect: bool,
                   authWrite: WriteResult, desiredWritten: bool) returns (reply: Reply)
      modifies volume
      ensures (volume.View(), reply) == HandleRequest(admin, old(volume.View()),
        Request.Connect(profile, redirectGateway, credentials, autoReconnect, authWrite, desiredWritten))
    {
      if !admin { return Refused(403); }
      if !ConsoleName(profile) { return Refused(400); }
      if profile !in volume.profiles { return Refused(404); }
      var useAuth := false;
      if credentials != Absent {
        if credentials == Malformed { return Refused(400); }
        volume.authFiles := AfterWrite(volume.authFiles, profile, authWrite);
        if authWrite != Written { return Refused(500); }
        useAuth := true;
      } else {
        useAuth := profile in volume.authFiles;
      }
      var epoch := NextEpoch(volume.desired);
      if !desiredWritten { return Refused(500); }
      volume.desired := Desired(true, Some(profile), redirectGateway, useAuth, autoReconnect, Some(epoch));
      return Accepted;
    }

    method Disconnect(desiredWritten: bool) returns (reply: Reply)
      modifies volume
      ensures (volume.View(), reply) == HandleRequest(admin, old(volume.View()), Request.Disconnect(desiredWritten))
    {
      if !admin { return Refused(403); }
      var previous := volume.desired;
      if !desiredWritten { return Refused(500); }
      volume.desired := Desired(false, previous.profile, false, false, true, Some(NextEpoch(previous)));
      return Accepted;
    }

    method SetAutoReconnect(on: bool, desiredWritten: bool) returns (reply: Reply)
      modifies volume
      ensures (volume.View(), reply) == HandleRequest(admin, old(volume.View()),
        Request.SetAutoReconnect(on, desiredWritten))
    {
      if !admin { return Refused(403); }
      if !desiredWritten { return Refused(500); }
      volume.desired := volume.desired.(autoReconnect := on);
      return Accepted;
    }

    method SaveProfile(name: string, contentUsable: bool, profileWrite: WriteResult) returns (reply: Reply)
      modifies volume
      ensures (volume.View(), reply) == HandleRequest(admin, old(volume.View()),
        Request.SaveProfile(name, contentUsable, profileWrite))
    {
      if !admin { return Refused(403); }
      if !ConsoleName(name) { return Refused(400); }
      if !contentUsable { return Refused(400); }
      volume.profiles := AfterWrite(volume.profiles, name, profileWrite);
      if profileWrite != Written { return Refused(500); }
      return Accepted;
    }

    method DeleteProfile(name: string, profileUnlinked: bool, authUnlinked: bool) returns (reply: Reply)
      modifies volume
      ensures (volume.View(), reply) == HandleRequest(admin, old(volume.View()),
        Request.DeleteProfile(name, profileUnlinked, authUnlinked))
    {
      if !admin { return Refused(403); }
      if !ConsoleName(name) { return Refused(400); }
      if name !in volume.profiles { return Refused(404); }
      if volume.desired.connect && volume.desired.profile == Some(name) { return Refused(409); }
      if !profileUnlinked { return Refused(500); }
      volume.profiles := volume.profiles - {name};
      if !authUnlinked { return Refused(500); }
      volume.authFiles := volume.authFiles - {name};
      return Accepted;
    }
  }

  /** supervisor.py: the data plane. */
  class Supervisor {
    const volume: SharedVolume
    var child: Child
    var activeProfile: Option<string>
    var activeEpoch: Option<nat>
    var gaveUpEpoch: Option<nat>
    var backoff: real
    var nextStartAt: real

    constructor (volume: SharedVolume)
      ensures this.volume == volume && View() == FRESH_SUPERVISOR
    {
      this.volume := volume;
      child, activeProfile, activeEpoch, gaveUpEpoch := NoChild, None, None, None;
      backoff, nextStartAt := 0.0, 0.0;
    }

    function View(): SupervisorState
      reads this
    {
      SupervisorState(child, activeProfile, activeEpoch, gaveUpEpoch, backoff, nextStartAt)
    }

    method StopProc()
      modifies this
      ensures View() == Stopped(old(View()))
    {
      child := NoChild;
      activeProfile := None;
      activeEpoch := None;
    }

    method BumpBackoff(now: real)
      modifies this`backoff, this`nextStartAt
      ensures View() == Bumped(old(View()), now)
    {
      var doubled := backoff * 2.0;
      if doubled == 0.0 { doubled := BACKOFF_BASE; }
      if doubled < BACKOFF_BASE { doubled := BACKOFF_BASE; }
      backoff := if doubled < BACKOFF_MAX then doubled else BACKOFF_MAX;
      nextStartAt := now + backoff;
    }

    method Start(profile: string, r: Readings) returns (attempt: Attempt)
      modifies this
      ensures attempt == if r.popenOk then Launched else LaunchFailed
      ensures View() ==
        if r.popenOk then
          old(View()).(child := Running(ArgvChoices(volume.View(), profile)), activeProfile := Some(profile),
                       activeEpoch := volume.desired.epoch)
        else Bumped(old(View()).(child := NoChild), r.launchFailed)
    {
      if !r.popenOk {
        child := NoChild;
        BumpBackoff(r.launchFailed);
        return LaunchFailed;
      }
      child := Running(ArgvChoices(volume.View(), profile));
      activeProfile := Some(profile);
      activeEpoch := volume.desired.epoch;
      return Launched;
    }

    /** The tail of a pass once no child is running: collect an exited one, then start if due. */
    method RestartIfDue(wanted: string, r: Readings) returns (attempt: Attempt)
      requires !child.Running?
      modifies this
      ensures Pass(View(), attempt) ==
        StartIfDue(Collected(old(View()), volume.desired, r.exitSeen), volume.View(), wanted, r)
    {
      attempt := NoAttempt;
      var desired := volume.desired;
      if child.Exited? {
        child := NoChild;
        activeProfile := None;
        if !desired.autoReconnect {
          gaveUpEpoch := desired.epoch;
        } else {
          BumpBackoff(r.exitSeen);
        }
      }
      if !desired.autoReconnect && gaveUpEpoch == desired.epoch { return; }
      if r.startCheck >= nextStartAt {
        attempt := Start(wanted, r);
        backoff := 0.0;
      }
    }

    method ReconcileOnce(r: Readings) returns (attempt: Attempt)
      modifies this
      ensures Pass(View(), attempt) == Reconcile(old(View()), volume.View(), r)
    {
      var desired := volume.desired;
      var target := Target(volume.View());
      attempt := NoAttempt;
      if desired.connect && target == None {
        StopProc();
        return;
      }
      var running := child.Running?;
      if target == None {
        if running || (activeProfile.Some? && activeProfile.value != "") { StopProc(); }
        backoff := 0.0;
        return;
      }
      var wanted := target.value;
      var epochChanged := desired.epoch != activeEpoch;
      var profileChanged := activeProfile != None && activeProfile != Some(wanted);
      if gaveUpEpoch != None && gaveUpEpoch != desired.epoch { gaveUpEpoch := None; }
      if running && (profileChanged || epochChanged) {
        StopProc();
        backoff, nextStartAt := 0.0, 0.0;
        running := false;
      }
      if running { return; }
      attempt := RestartIfDue(wanted, r);
    }
  }
}
