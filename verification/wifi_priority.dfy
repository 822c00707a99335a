/** Wi-Fi auto-reconnect: recency promotion with pruning, and the operator's pinned band. */
module WifiPriority {
  import opened Common
  import opened Sorting
  import opened Text

  const PRIORITY_BASE := 100
  const PINNED_BASE := 200
  const PINNED_MAX := 10
  const HISTORY_KEEP := 3
  const SSID_MAX := 64

  /** A saved NetworkManager profile; names are unique. */
  datatype Profile = Profile(timestamp: int, priority: int, autoconnect: bool)

  type Profiles = map<string, Profile>

  /** One row of the saved-connection listing. */
  datatype Conn = Conn(name: string, timestamp: int)

  predicate DistinctNames(rows: seq<Conn>) {
    forall i, j :: 0 <= i < j < |rows| ==> rows[i].name != rows[j].name
  }

  predicate Named(rows: seq<Conn>, name: string) {
    exists i :: 0 <= i < |rows| && rows[i].name == name
  }

  /** `rows` lists the profiles, each once, in any order. */
  predicate ListingOf(rows: seq<Conn>, profiles: Profiles) {
    && DistinctNames(rows)
    && (forall i :: 0 <= i < |rows| ==>
          rows[i].name in profiles && profiles[rows[i].name].timestamp == rows[i].timestamp)
    && forall n :: n in profiles ==> Named(rows, n)
  }

  // ---- promotion and pruning -----------------------------------------------------------

  /** The sort key (name != active, -timestamp). */
  predicate RecencyLeq(active: string, a: Conn, b: Conn) {
    a.name == active || (b.name != active && a.timestamp >= b.timestamp)
  }

  function ByRecency(active: string): (Conn, Conn) -> bool {
    (a: Conn, b: Conn) => RecencyLeq(active, a, b)
  }

  function Unpinned(rows: seq<Conn>, pinned: seq<string>): seq<Conn> {
    if rows == [] then []
    else
      var n := |rows| - 1;
      if rows[n].name in pinned then Unpinned(rows[..n], pinned) else Unpinned(rows[..n], pinned) + [rows[n]]
  }

  /** `ranking` orders exactly the unpinned profiles: the active one first, then the most recent. */
  ghost predicate Ranking(ranking: seq<Conn>, profiles: Profiles, pinned: seq<string>, active: string) {
    && DistinctNames(ranking)
    && (forall i :: 0 <= i < |ranking| ==>
          ranking[i].name in profiles && ranking[i].name !in pinned
          && profiles[ranking[i].name].timestamp == ranking[i].timestamp)
    && (forall n :: n in profiles && n !in pinned ==> Named(ranking, n))
    && forall i, j :: 0 <= i < j < |ranking| ==> RecencyLeq(active, ranking[i], ranking[j])
  }

  /** Profile `n` was raised to `priority` and marked for auto-connection. */
  predicate IsRaised(before: Profiles, after: Profiles, n: string, priority: int) {
    n in before && n in after && after[n] == before[n].(autoconnect := true, priority := priority)
  }

  /** What promotion does to the profiles: the first `keep` of the ranking get descending
      priorities, the rest of it is deleted, and nothing else changes. A profile whose command
      fails is left as it was. */
  ghost predicate Promotion(before: Profiles, after: Profiles, ranking: seq<Conn>, keep: nat, failing: set<string>) {
    && (forall i :: 0 <= i < |ranking| && ranking[i].name !in failing ==>
          if i < keep then IsRaised(before, after, ranking[i].name, PRIORITY_BASE - i) else ranking[i].name !in after)
    && (forall n :: n in before && (n in failing || !Named(ranking, n)) ==> n in after && after[n] == before[n])
    && after.Keys <= before.Keys
  }

  /** A promotion by the ranking of the unpinned profiles. */
  ghost predicate Promoted(before: Profiles, after: Profiles, ranking: seq<Conn>, pinned: seq<string>, active: string,
                           keep: nat, failing: set<string>) {
    Ranking(ranking, before, pinned, active) && Promotion(before, after, ranking, keep, failing)
  }

  lemma {:induction false} UnpinnedRows(rows: seq<Conn>, pinned: seq<string>)
    requires DistinctNames(rows)
    ensures DistinctNames(Unpinned(rows, pinned))
    ensures forall c :: c in Unpinned(rows, pinned) <==> c in rows && c.name !in pinned
  {
    if rows != [] {
      var n := |rows| - 1;
      UnpinnedRows(rows[..n], pinned);
      assert rows == rows[..n] + [rows[n]];
      var front := Unpinned(rows[..n], pinned);
      forall i | 0 <= i < |front| ensures front[i].name != rows[n].name {
        assert front[i] in rows[..n];
      }
    }
  }

  /** Sorting the unpinned rows keeps their names distinct and puts them in recency order. */
  lemma SortedByRecency(unpinned: seq<Conn>, active: string)
    requires DistinctNames(unpinned)
    ensures var ranking := SortBy(unpinned, ByRecency(active));
      DistinctNames(ranking) && Sorted(ranking, ByRecency(active)) && forall c :: c in ranking <==> c in unpinned
  {
    var leq := ByRecency(active);
    SameElements(unpinned, leq);
    SortIsSorted(unpinned, leq);
    var name := (c: Conn) => c.name;
    SortKeepsDistinct(unpinned, leq, name);
    var ranking := SortBy(unpinned, leq);
    forall i, j | 0 <= i < j < |ranking| ensures ranking[i].name != ranking[j].name {
      assert name(ranking[i]) != name(ranking[j]);
    }
  }

  /** The sorted unpinned rows of any listing are a ranking. */
  lemma SortedIsRanking(rows: seq<Conn>, profiles: Profiles, pinned: seq<string>, active: string)
    requires ListingOf(rows, profiles)
    ensures Ranking(SortBy(Unpinned(rows, pinned), ByRecency(active)), profiles, pinned, active)
  {
    var unpinned := Unpinned(rows, pinned);
    UnpinnedRows(rows, pinned);
    SortedByRecency(unpinned, active);
    IsRanking(rows, SortBy(unpinned, ByRecency(active)), profiles, pinned, active);
  }

  lemma IsRanking(rows: seq<Conn>, ranking: seq<Conn>, profiles: Profiles, pinned: seq<string>, active: string)
    requires ListingOf(rows, profiles) && DistinctNames(ranking) && Sorted(ranking, ByRecency(active))
    requires forall c :: c in ranking <==> c in rows && c.name !in pinned
    ensures Ranking(ranking, profiles, pinned, active)
  {
    forall i | 0 <= i < |ranking|
      ensures ranking[i].name in profiles && ranking[i].name !in pinned
        && profiles[ranking[i].name].timestamp == ranking[i].timestamp
    {
      assert ranking[i] in rows;
    }
    forall n | n in profiles && n !in pinned ensures Named(ranking, n) {
      assert Named(rows, n);
      var i :| 0 <= i < |rows| && rows[i].name == n;
      assert rows[i] in ranking;
    }
    forall i, j | 0 <= i < j < |ranking| ensures RecencyLeq(active, ranking[i], ranking[j]) {
      assert ByRecency(active)(ranking[i], ranking[j]);
    }
  }

  // ---- pinning ---------------------------------------------------------------------------

  predicate HasControl(text: string) {
    exists i :: 0 <= i < |text| && (text[i] < ' ' || text[i] == '\U{7f}')
  }

  /** A stripped entry of the requested order that may be pinned. */
  predicate Acceptable(name: string) {
    name != "" && |name| <= SSID_MAX && !HasControl(name)
  }

  /** The acceptable entries, stripped, first occurrence only; an entry that is no string is None. */
  function Cleaned(order: seq<Option<string>>): seq<string> {
    if order == [] then []
    else
      var n := |order| - 1;
      var front := Cleaned(order[..n]);
      if order[n].Some? && Acceptable(Strip(order[n].value)) && Strip(order[n].value) !in front
      then front + [Strip(order[n].value)] else front
  }

  /** Those of `names` that the listing shows. */
  function Saved(names: seq<string>, listed: set<string>): seq<string> {
    if names == [] then []
    else
      var n := |names| - 1;
      if names[n] in listed then Saved(names[..n], listed) + [names[n]] else Saved(names[..n], listed)
  }

  predicate Distinct(names: seq<string>) {
    forall i, j :: 0 <= i < j < |names| ==> names[i] != names[j]
  }

  lemma {:induction false} CleanedIsDistinct(order: seq<Option<string>>)
    ensures Distinct(Cleaned(order))
  {
    if order != [] { CleanedIsDistinct(order[..|order| - 1]); }
  }

  lemma {:induction false} SavedNames(names: seq<string>, listed: set<string>)
    requires Distinct(names)
    ensures var s := Saved(names, listed);
      Distinct(s) && |s| <= |names| && forall n :: n in s <==> n in names && n in listed
  {
    if names != [] {
      var n := |names| - 1;
      SavedNames(names[..n], listed);
      assert names == names[..n] + [names[n]];
    }
  }

  /** Profile `n` leaves the pinned list and its command succeeds. */
  predicate Unpinning(n: string, oldOrder: seq<string>, newOrder: seq<string>,
                      listed: set<string>, failing: set<string>) {
    n in oldOrder && n !in newOrder && n in listed && n !in failing
  }

  /** What re-pinning does: the new order gets the pinned band top down, listed names dropped from
      the old order fall to zero, nothing else changes and nothing is deleted. */
  ghost predicate Repinning(before: Profiles, after: Profiles, oldOrder: seq<string>, newOrder: seq<string>,
                            listed: set<string>, failing: set<string>) {
    && after.Keys == before.Keys
    && (forall i :: 0 <= i < |newOrder| && newOrder[i] !in failing ==>
          IsRaised(before, after, newOrder[i], PINNED_BASE - i))
    && forall n :: n in before && n in after && (n !in newOrder || n in failing) ==>
         after[n] == if Unpinning(n, oldOrder, newOrder, listed, failing) then before[n].(priority := 0) else before[n]
  }

  /** The connect command: a new profile starts at NetworkManager's default priority 0; a known one
      may or may not have its activation time written yet. */
  predicate Connected(before: Profiles, after: Profiles, ssid: string) {
    && after.Keys == before.Keys + {ssid}
    && (forall n :: n in before && n != ssid ==> after[n] == before[n])
    && (if ssid in before then after[ssid] == before[ssid].(timestamp := after[ssid].timestamp)
        else after[ssid].priority == 0)
  }

  /** One such outcome of the command. */
  function AfterCommand(profiles: Profiles, ssid: string, activated: int): (after: Profiles)
    ensures Connected(profiles, after, ssid)
  {
    profiles[ssid := if ssid in profiles then profiles[ssid].(timestamp := activated) else Profile(activated, 0, true)]
  }

  // ---- the service -----------------------------------------------------------------------------

  /** How the connect command ends; one that does not succeed may leave a profile behind. */
  datatype Answer = Succeeded | Refused(left: bool) | TimedOut(left: bool)

  /** The radio is on or can be switched on; nmcli does not run; nmcli refuses to switch it on. */
  datatype Radio = Ready | NoNmcli | StaysOff

  /** Everything outside this code that one connect meets: is the control enabled, are password and
      interface name acceptable, the radio, the command's answer, the activation time shown
      afterwards, and the profiles whose own command fails. */
  datatype Surroundings = Surroundings(enabled: bool, passwordOk: bool, ifaceOk: bool, radio: Radio,
                                       answer: Answer, activated: int, failing: set<string>)

  predicate ValidSsid(ssid: string) {
    Strip(ssid) != "" && |ssid| <= SSID_MAX && !HasControl(ssid)
  }

  /** A connect whose command took effect on the profiles, and the promotion, if one followed. */
  ghost predicate ConnectOutcome(before: Profiles, mid: Profiles, after: Profiles, ranking: seq<Conn>,
                                 pinned: seq<string>, ssid: string, keep: nat, promoted: bool, failing: set<string>) {
    Connected(before, mid, ssid)
    && if promoted then Promoted(mid, after, ranking, pinned, ssid, keep, failing) else after == mid
  }

  /** The command is issued at all. */
  predicate Reached(ssid: string, u: Surroundings) {
    u.enabled && ValidSsid(ssid) && u.passwordOk && u.ifaceOk && u.radio.Ready?
  }

  /** The reply of a connect. */
  function ConnectStatus(ssid: string, u: Surroundings): nat {
    if !u.enabled then 403
    else if !ValidSsid(ssid) || !u.passwordOk || !u.ifaceOk then 400
    else if u.radio.NoNmcli? then 503
    else if u.radio.StaysOff? then 502
    else if u.answer.TimedOut? then 504
    else if u.answer.Refused? then 502
    else 200
  }

  class WifiService {
    var profiles: Profiles
    var pinned: seq<string>

    constructor (profiles: Profiles)
      ensures this.profiles == profiles && pinned == []
    {
      this.profiles := profiles;
      pinned := [];
    }

    /** connect; `listing` is what the listing command shows afterwards, None if it fails. */
    method Connect(ssid: string, u: Surroundings, listing: Option<seq<Conn>>) returns (status: nat)
      requires listing.Some? ==> ListingOf(listing.value, AfterCommand(profiles, ssid, u.activated))
      modifies this`profiles
      ensures status == ConnectStatus(ssid, u)
      ensures !Reached(ssid, u) || (!u.answer.Succeeded? && !u.answer.left) ==> profiles == old(profiles)
      ensures Reached(ssid, u) && !u.answer.Succeeded? && u.answer.left ==> Connected(old(profiles), profiles, ssid)
      ensures status == 200 ==> exists mid, ranking ::
        ConnectOutcome(old(profiles), mid, profiles, ranking, pinned, ssid, 3, listing.Some?, u.failing)
    {
      if !u.enabled { return 403; }
      if !ValidSsid(ssid) || !u.passwordOk || !u.ifaceOk { return 400; }
      if u.radio == NoNmcli { return 503; }
      if u.radio == StaysOff { return 502; }
      if u.answer == Succeeded || u.answer.left {
        profiles := AfterCommand(profiles, ssid, u.activated);
      }
      if u.answer.TimedOut? { return 504; }
      if u.answer.Refused? { return 502; }
      ghost var mid := profiles;
      var ranking := PromoteAndPrune(ssid, HISTORY_KEEP, listing, u.failing);
      ghost var promoted := listing.Some?;
      assert ConnectOutcome(old(profiles), mid, profiles, ranking, pinned, ssid, HISTORY_KEEP, promoted, u.failing);
      return 200;
    }

    /** promote_and_prune_wifi, given what the listing command shows and which profiles' commands fail. */
    method PromoteAndPrune(active: string, keep: int, listing: Option<seq<Conn>>, failing: set<string>)
      returns (ghost ranking: seq<Conn>)
      requires listing.Some? ==> ListingOf(listing.value, profiles)
      modifies this`profiles
      ensures keep <= 0 || listing.None? ==> profiles == old(profiles)
      ensures keep > 0 && listing.Some? ==> Promoted(old(profiles), profiles, ranking, pinned, active, keep, failing)
    {
      ranking := [];
      if keep <= 0 || listing == None { return; }
      var rows := Ranked(active, listing.value);
      ranking := rows;
      ApplyRanking(rows, keep, failing);
    }

    method Ranked(active: string, listing: seq<Conn>) returns (rows: seq<Conn>)
      requires ListingOf(listing, profiles)
      ensures Ranking(rows, profiles, pinned, active)
    {
      rows := SortBy(Unpinned(listing, pinned), ByRecency(active));
      SortedIsRanking(listing, profiles, pinned, active);
    }

    method ApplyRanking(rows: seq<Conn>, keep: nat, failing: set<string>)
      requires DistinctNames(rows) && forall i :: 0 <= i < |rows| ==> rows[i].name in profiles
      modifies this`profiles
      ensures Promotion(old(profiles), profiles, rows, keep, failing)
    {
      var kept := if keep <= |rows| then keep else |rows|;
      RaiseKept(rows, kept, failing);
      ghost var raised := profiles;
      DeletePruned(rows, kept, failing);
      IsPromotion(old(profiles), raised, profiles, rows, kept, keep, failing);
    }

    method RaiseKept(rows: seq<Conn>, kept: nat, failing: set<string>)
      requires DistinctNames(rows) && kept <= |rows| && forall i :: 0 <= i < |rows| ==> rows[i].name in profiles
      modifies this`profiles
      ensures RaisedFirst(old(profiles), profiles, rows, kept, failing)
    {
      for i := 0 to kept
        invariant RaisedFirst(old(profiles), profiles, rows, i, failing)
      {
        ghost var before := profiles;
        Raise(rows[i].name, PRIORITY_BASE - i, failing);
        RaisedOneMore(old(profiles), before, profiles, rows, i, failing);
      }
    }

    method Raise(name: string, priority: int, failing: set<string>)
      requires name in profiles
      modifies this`profiles
      ensures profiles == if name in failing then old(profiles)
                          else old(profiles)[name := old(profiles)[name].(autoconnect := true, priority := priority)]
    {
      if name !in failing {
        profiles := profiles[name := profiles[name].(autoconnect := true, priority := priority)];
      }
    }

    method DeletePruned(rows: seq<Conn>, kept: nat, failing: set<string>)
      requires DistinctNames(rows) && kept <= |rows|
      modifies this`profiles
      ensures forall j :: kept <= j < |rows| && rows[j].name !in failing ==> rows[j].name !in profiles
      ensures profiles.Keys <= old(profiles).Keys && forall n :: n in profiles ==> profiles[n] == old(profiles)[n]
      ensures forall n :: n in old(profiles) && n !in profiles ==> Named(rows[kept..], n) && n !in failing
    {
      var i := kept;
      while i < |rows|
        invariant kept <= i <= |rows|
        invariant forall j :: kept <= j < i && rows[j].name !in failing ==> rows[j].name !in profiles
        invariant profiles.Keys <= old(profiles).Keys && forall n :: n in profiles ==> profiles[n] == old(profiles)[n]
        invariant forall n :: n in old(profiles) && n !in profiles ==> Named(rows[kept..], n) && n !in failing
      {
        assert rows[kept..][i - kept] == rows[i];
        if rows[i].name !in failing {
          profiles := profiles - {rows[i].name};
        }
        i := i + 1;
      }
    }

    /** set_wifi_priority: `order` is None when it is no list, `listing` says whether the listing
        command answers, `written` whether the pinned file can be written. */
    method SetWifiPriority(enabled: bool, order: Option<seq<Option<string>>>, listing: bool, written: bool,
                           failing: set<string>) returns (status: nat)
      modifies this
      ensures status == if !enabled then 403
                        else if order.None? || |Cleaned(order.value)| > 10 then 400 else 200
      ensures status != 200 ==> profiles == old(profiles) && pinned == old(pinned)
      ensures status == 200 ==>
        var listed := if listing then old(profiles).Keys else {};
        var newOrder := Saved(Cleaned(order.value), listed);
        pinned == (if written then newOrder else old(pinned))
        && Repinning(old(profiles), profiles, old(pinned), newOrder, listed, failing)
    {
      if !enabled { return 403; }
      if order == None { return 400; }
      var cleaned := CleanOrder(order.value);
      if |cleaned| > PINNED_MAX { return 400; }
      var listed := if listing then profiles.Keys else {};
      var newOrder := Saved(cleaned, listed);
      CleanedIsDistinct(order.value);
      SavedNames(cleaned, listed);
      RaisePinned(newOrder, failing);
      ghost var raised := profiles;
      DropUnpinned(pinned, newOrder, listed, failing);
      IsRepinning(old(profiles), raised, profiles, pinned, newOrder, listed, failing);
      if written { pinned := newOrder; }
      return 200;
    }

    method RaisePinned(newOrder: seq<string>, failing: set<string>)
      requires Distinct(newOrder) && forall n :: n in newOrder ==> n in profiles
      modifies this`profiles
      ensures profiles.Keys == old(profiles).Keys
      ensures forall i :: 0 <= i < |newOrder| && newOrder[i] !in failing ==>
        IsRaised(old(profiles), profiles, newOrder[i], PINNED_BASE - i)
      ensures forall n :: n in profiles && (n !in newOrder || n in failing) ==> profiles[n] == old(profiles)[n]
    {
      for i := 0 to |newOrder|
        invariant profiles.Keys == old(profiles).Keys
        invariant forall j :: 0 <= j < i && newOrder[j] !in failing ==>
          IsRaised(old(profiles), profiles, newOrder[j], PINNED_BASE - j)
        invariant forall n :: n in profiles && (n !in newOrder[..i] || n in failing) ==> profiles[n] == old(profiles)[n]
      {
        var ssid := newOrder[i];
        assert newOrder[..i + 1] == newOrder[..i] + [ssid];
        if ssid !in failing {
          profiles := profiles[ssid := profiles[ssid].(autoconnect := true, priority := PINNED_BASE - i)];
        }
      }
      assert newOrder[..|newOrder|] == newOrder;
    }

    /** Names that left the pinned list drop back to priority zero. */
    method DropUnpinned(oldOrder: seq<string>, newOrder: seq<string>, listed: set<string>, failing: set<string>)
      requires listed <= profiles.Keys
      modifies this`profiles
      ensures profiles.Keys == old(profiles).Keys
      ensures forall n :: n in profiles ==>
        profiles[n] == if Unpinning(n, oldOrder, newOrder, listed, failing) then old(profiles)[n].(priority := 0)
                       else old(profiles)[n]
    {
      var i := 0;
      while i < |oldOrder|
        invariant 0 <= i <= |oldOrder| && profiles.Keys == old(profiles).Keys
        invariant forall n :: n in profiles ==>
          profiles[n] == if Unpinning(n, oldOrder[..i], newOrder, listed, failing) then old(profiles)[n].(priority := 0)
                         else old(profiles)[n]
      {
        var ssid := oldOrder[i];
        assert oldOrder[..i + 1] == oldOrder[..i] + [ssid];
        if ssid !in newOrder && ssid in listed && ssid !in failing {
          assert Unpinning(ssid, oldOrder[..i + 1], newOrder, listed, failing);
          profiles := profiles[ssid := profiles[ssid].(priority := 0)];
        }
        i := i + 1;
      }
      assert oldOrder[..i] == oldOrder;
    }
  }

  lemma IsRepinning(before: Profiles, raised: Profiles, after: Profiles, oldOrder: seq<string>, newOrder: seq<string>,
                    listed: set<string>, failing: set<string>)
    requires raised.Keys == before.Keys == after.Keys
    requires forall i :: 0 <= i < |newOrder| && newOrder[i] !in failing ==>
      IsRaised(before, raised, newOrder[i], PINNED_BASE - i)
    requires forall n :: n in raised && (n !in newOrder || n in failing) ==> raised[n] == before[n]
    requires forall n :: n in after ==>
      after[n] == if Unpinning(n, oldOrder, newOrder, listed, failing) then raised[n].(priority := 0) else raised[n]
    ensures Repinning(before, after, oldOrder, newOrder, listed, failing)
  {
    forall i | 0 <= i < |newOrder| && newOrder[i] !in failing
      ensures IsRaised(before, after, newOrder[i], PINNED_BASE - i)
    {
      assert IsRaised(before, raised, newOrder[i], PINNED_BASE - i);
    }
  }

  /** The loop that raises kept rows, after its first `i` rounds. */
  ghost predicate RaisedFirst(before: Profiles, now: Profiles, rows: seq<Conn>, i: nat, failing: set<string>)
    requires i <= |rows|
  {
    && now.Keys == before.Keys
    && (forall j :: 0 <= j < i && rows[j].name !in failing ==>
          IsRaised(before, now, rows[j].name, PRIORITY_BASE - j))
    && forall n :: n in now && (n in failing || !Named(rows[..i], n)) ==> now[n] == before[n]
  }

  lemma RaisedOneMore(before: Profiles, now: Profiles, next: Profiles, rows: seq<Conn>, i: nat, failing: set<string>)
    requires DistinctNames(rows) && i < |rows| && rows[i].name in now && RaisedFirst(before, now, rows, i, failing)
    requires next == if rows[i].name in failing then now
                     else now[rows[i].name := now[rows[i].name].(autoconnect := true, priority := PRIORITY_BASE - i)]
    ensures RaisedFirst(before, next, rows, i + 1, failing)
  {
    forall n ensures Named(rows[..i + 1], n) <==> Named(rows[..i], n) || rows[i].name == n { NamedPrefix(rows, i, n); }
    forall j | 0 <= j < |rows[..i]| ensures rows[..i][j].name != rows[i].name { assert rows[..i][j] == rows[j]; }
    assert !Named(rows[..i], rows[i].name);
    forall j | 0 <= j < i + 1 && rows[j].name !in failing
      ensures IsRaised(before, next, rows[j].name, PRIORITY_BASE - j)
    {
      if j < i { assert IsRaised(before, now, rows[j].name, PRIORITY_BASE - j); }
    }
  }

  lemma NamedSplit(rows: seq<Conn>, kept: nat, n: string)
    requires kept <= |rows|
    ensures Named(rows, n) <==> Named(rows[..kept], n) || Named(rows[kept..], n)
  {
    if Named(rows, n) {
      var i :| 0 <= i < |rows| && rows[i].name == n;
      if i < kept { assert rows[..kept][i].name == n; } else { assert rows[kept..][i - kept].name == n; }
    }
    if Named(rows[..kept], n) {
      var i :| 0 <= i < kept && rows[..kept][i].name == n;
      assert rows[i].name == n;
    }
    if Named(rows[kept..], n) {
      var i :| 0 <= i < |rows[kept..]| && rows[kept..][i].name == n;
      assert rows[kept + i].name == n;
    }
  }

  /** Raising the first `kept` rows and deleting the others is a promotion. */
  lemma IsPromotion(before: Profiles, raised: Profiles, after: Profiles, rows: seq<Conn>, kept: nat, keep: nat,
                    failing: set<string>)
    requires DistinctNames(rows) && kept == (if keep <= |rows| then keep else |rows|)
    requires RaisedFirst(before, raised, rows, kept, failing)
    requires forall j :: kept <= j < |rows| && rows[j].name !in failing ==> rows[j].name !in after
    requires after.Keys <= raised.Keys && forall n :: n in after ==> after[n] == raised[n]
    requires forall n :: n in raised && n !in after ==> Named(rows[kept..], n) && n !in failing
    ensures Promotion(before, after, rows, keep, failing)
  {
    forall i | 0 <= i < kept && rows[i].name !in failing
      ensures IsRaised(before, after, rows[i].name, PRIORITY_BASE - i)
    {
      assert IsRaised(before, raised, rows[i].name, PRIORITY_BASE - i);
      forall j | 0 <= j < |rows[kept..]| ensures rows[kept..][j].name != rows[i].name {
        assert rows[kept..][j] == rows[kept + j];
      }
    }
    forall n | n in before && (n in failing || !Named(rows, n)) ensures n in after && after[n] == before[n] {
      NamedSplit(rows, kept, n);
    }
  }

  lemma NamedPrefix(rows: seq<Conn>, i: nat, n: string)
    requires i < |rows|
    ensures Named(rows[..i + 1], n) <==> Named(rows[..i], n) || rows[i].name == n
  {
    if Named(rows[..i + 1], n) {
      var j :| 0 <= j < i + 1 && rows[..i + 1][j].name == n;
      if j < i { assert rows[..i][j].name == n; }
    }
    if Named(rows[..i], n) {
      var j :| 0 <= j < i && rows[..i][j].name == n;
      assert rows[..i + 1][j].name == n;
    }
    if rows[i].name == n { assert rows[..i + 1][i].name == n; }
  }

  /** The loop that keeps acceptable names, first occurrence only. */
  method CleanOrder(order: seq<Option<string>>) returns (cleaned: seq<string>)
    ensures cleaned == Cleaned(order)
  {
    cleaned := [];
    for i := 0 to |order|
      invariant cleaned == Cleaned(order[..i])
    {
      assert order[..i + 1][..i] == order[..i];
      if order[i].Some? {
        var name := Strip(order[i].value);
        if Acceptable(name) && name !in cleaned { cleaned := cleaned + [name]; }
      }
    }
    assert order[..|order|] == order;
  }

  // ---- the request and what becomes of it ----------------------------------------------------

  /** Names that may be pinned, spelled out. */
  lemma AcceptableIs(name: string)
    ensures Acceptable(name) <==>
      1 <= |name| <= 64 && forall i :: 0 <= i < |name| ==> ' ' <= name[i] && name[i] != '\U{7f}'
  {}

  /** The status of every connect. */
  lemma ConnectStatusIs(ssid: string, u: Surroundings)
    ensures ConnectStatus(ssid, u) == 200 <==> Reached(ssid, u) && u.answer == Succeeded
    ensures !u.enabled ==> ConnectStatus(ssid, u) == 403
    ensures u.enabled && (Blank(ssid) || |ssid| > 64 || !u.passwordOk || !u.ifaceOk) ==> ConnectStatus(ssid, u) == 400
    ensures Reached(ssid, u) && u.answer.Refused? ==> ConnectStatus(ssid, u) == 502
    ensures Reached(ssid, u) && u.answer.TimedOut? ==> ConnectStatus(ssid, u) == 504
  {
    if Blank(ssid) { BlankStrips(ssid); }
  }

  lemma {:induction false} BlankStrips(text: string)
    requires Blank(text)
    ensures Strip(text) == ""
    decreases |text|
  {
    if text != "" {
      assert IsSpace(text[0]);
      BlankStrips(text[1..]);
    }
  }

  /** Entry `i` of the request names `name`. */
  predicate Requests(order: seq<Option<string>>, i: nat, name: string)
    requires i < |order|
  {
    order[i].Some? && Strip(order[i].value) == name && Acceptable(name)
  }

  /** And is the first to do so. */
  predicate FirstRequest(order: seq<Option<string>>, i: nat, name: string)
    requires i < |order|
  {
    Requests(order, i, name) && forall j :: 0 <= j < i ==> !Requests(order, j, name)
  }

  /** The cleaned names are exactly the requested ones. */
  lemma {:induction false} CleanedHolds(order: seq<Option<string>>, name: string)
    ensures name in Cleaned(order) <==> exists i :: 0 <= i < |order| && Requests(order, i, name)
  {
    if order != [] {
      var n := |order| - 1;
      CleanedHolds(order[..n], name);
      assert forall i :: 0 <= i < n ==> (Requests(order, i, name) <==> Requests(order[..n], i, name));
      assert name in Cleaned(order) <==> name in Cleaned(order[..n]) || Requests(order, n, name);
    }
  }

  /** Cleaning a longer request only appends. */
  lemma CleanedOneMore(order: seq<Option<string>>)
    requires order != []
    ensures Cleaned(order[..|order| - 1]) <= Cleaned(order)
  {}

  lemma {:induction false} CleanedGrows(order: seq<Option<string>>, m: nat)
    requires m <= |order|
    ensures Cleaned(order[..m]) <= Cleaned(order)
    decreases |order|
  {
    if m < |order| {
      var n := |order| - 1;
      CleanedGrows(order[..n], m);
      CleanedOneMore(order);
      assert order[..n][..m] == order[..m];
    } else {
      assert order[..m] == order;
    }
  }

  lemma {:induction false} SavedGrows(names: seq<string>, m: nat, listed: set<string>)
    requires m <= |names|
    ensures Saved(names[..m], listed) <= Saved(names, listed)
    decreases |names|
  {
    if m < |names| {
      var n := |names| - 1;
      SavedGrows(names[..n], m, listed);
      assert names[..n][..m] == names[..m];
    } else {
      assert names[..m] == names;
    }
  }

  /** `a` comes before `b`. */
  ghost predicate Before(names: seq<string>, a: string, b: string) {
    exists x, y :: 0 <= x < y < |names| && names[x] == a && names[y] == b
  }

  /** In a longer list, what was there precedes what was not. */
  lemma PrefixComesBefore(front: seq<string>, names: seq<string>, a: string, b: string)
    requires front <= names && a in front && b in names && b !in front
    ensures Before(names, a, b)
  {
    var x :| 0 <= x < |front| && front[x] == a;
    var y :| 0 <= y < |names| && names[y] == b;
    assert forall z :: 0 <= z < |front| ==> front[z] == names[z];
  }

  lemma CleanedKeepsOrder(order: seq<Option<string>>, i: nat, j: nat, a: string, b: string)
    requires i < j < |order| && FirstRequest(order, i, a) && FirstRequest(order, j, b)
    ensures Before(Cleaned(order), a, b)
  {
    var front := order[..j];
    CleanedGrows(order, j);
    CleanedHolds(front, a);
    CleanedHolds(front, b);
    CleanedHolds(order, b);
    assert Requests(front, i, a);
    assert forall k :: 0 <= k < j ==> (Requests(front, k, b) <==> Requests(order, k, b));
    PrefixComesBefore(Cleaned(front), Cleaned(order), a, b);
  }

  lemma SavedKeepsOrder(names: seq<string>, listed: set<string>, a: string, b: string)
    requires Distinct(names) && Before(names, a, b) && a in listed && b in listed
    ensures Before(Saved(names, listed), a, b)
  {
    var x, y :| 0 <= x < y < |names| && names[x] == a && names[y] == b;
    var front := names[..y];
    assert front[x] == a && Distinct(front);
    SavedGrows(names, y, listed);
    SavedNames(front, listed);
    SavedNames(names, listed);
    PrefixComesBefore(Saved(front, listed), Saved(names, listed), a, b);
  }

  /** `a` is first requested at entry `i`, before `b` at entry `j`. */
  predicate InRequestOrder(order: seq<Option<string>>, i: int, j: int, a: string, b: string) {
    0 <= i < j < |order| && FirstRequest(order, i, a) && FirstRequest(order, j, b)
  }

  /** After a successful re-pinning exactly the requested names that are saved are pinned, in the order of
      their first request, and place `p` has priority 200 - p and connects by itself. */
  lemma RequestIsPinned(before: Profiles, after: Profiles, oldOrder: seq<string>, order: seq<Option<string>>)
    requires Repinning(before, after, oldOrder, Saved(Cleaned(order), before.Keys), before.Keys, {})
    ensures var pinned := Saved(Cleaned(order), before.Keys);
      && (forall n :: n in pinned <==> n in before && exists i :: 0 <= i < |order| && Requests(order, i, n))
      && (forall i, j, a, b :: InRequestOrder(order, i, j, a, b) && a in before && b in before ==> Before(pinned, a, b))
      && (forall p :: 0 <= p < |pinned| ==>
            pinned[p] in after && after[pinned[p]].priority == 200 - p && after[pinned[p]].autoconnect)
  {
    var cleaned := Cleaned(order);
    CleanedIsDistinct(order);
    SavedNames(cleaned, before.Keys);
    forall n ensures n in cleaned <==> exists i :: 0 <= i < |order| && Requests(order, i, n) { CleanedHolds(order, n); }
    forall i, j, a, b | InRequestOrder(order, i, j, a, b) && a in before && b in before
      ensures Before(Saved(cleaned, before.Keys), a, b)
    {
      CleanedKeepsOrder(order, i, j, a, b);
      SavedKeepsOrder(cleaned, before.Keys, a, b);
    }
    forall p | 0 <= p < |Saved(cleaned, before.Keys)|
      ensures IsRaised(before, after, Saved(cleaned, before.Keys)[p], PINNED_BASE - p)
    {
    }
  }

  /** So of two requested and saved names the one requested first ends with the higher priority. */
  lemma EarlierRequestOutranks(before: Profiles, after: Profiles, oldOrder: seq<string>, order: seq<Option<string>>,
                               i: nat, j: nat, a: string, b: string)
    requires Repinning(before, after, oldOrder, Saved(Cleaned(order), before.Keys), before.Keys, {})
    requires InRequestOrder(order, i, j, a, b) && a in before && b in before
    ensures a in after && b in after && after[a].priority > after[b].priority
  {
    RequestIsPinned(before, after, oldOrder, order);
    assert Before(Saved(Cleaned(order), before.Keys), a, b);
  }

  /** Kept profiles get 100 downwards and connect by themselves. */
  lemma KeptPriorities(before: Profiles, after: Profiles, ranking: seq<Conn>, pinned: seq<string>, active: string,
                       keep: nat, i: nat)
    requires Promoted(before, after, ranking, pinned, active, keep, {}) && i < keep && i < |ranking|
    ensures var n := ranking[i].name; n in after && after[n].priority == 100 - i && after[n].autoconnect
  {
    assert IsRaised(before, after, ranking[i].name, PRIORITY_BASE - i);
  }
}
