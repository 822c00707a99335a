/** Baseline lifecycle: approve a candidate, approve the live drift, roll back. */
module Lifecycle {
  import opened Common
  import opened Collector
  import opened Drift

  const HISTORY_DEPTH := 20

  /** detection-policy.json: the two baseline lists, and everything else it holds
      (thresholds, enabled rules), which this service only carries along. */
  datatype Policy = Policy(goose: seq<GooseEntry>, mms: seq<MmsEntry>, others: map<string, string>, version: string)

  datatype Version = Version(version: string, active: bool, snapshot: Option<Iec>)

  datatype Store = Store(policy: Policy, versions: seq<Version>)

  /** Each request carries the version stamp the clock gives it. */
  datatype Request =
    | ApproveCandidate(candidate: Option<Iec>, stamp: string)
    | ApproveDrift(live: Iec, stamp: string)
    | Rollback(version: string, stamp: string)

  datatype Reply = Applied | Failed(status: nat)

  function ListsOf(p: Policy): Iec {
    Iec(p.goose, p.mms)
  }

  predicate Usable(iec: Iec) {
    iec.goose != [] || iec.mms != []
  }

  /** `next(v for v in versions if v.version == version)`. */
  function FirstNamed(versions: seq<Version>, version: string): Option<Version> {
    if versions == [] then None
    else if versions[0].version == version then Some(versions[0])
    else FirstNamed(versions[1..], version)
  }

  function Deactivated(versions: seq<Version>): (r: seq<Version>)
    ensures |r| == |versions|
  {
    seq(|versions|, i requires 0 <= i < |versions| => versions[i].(active := false))
  }

  function Recorded(versions: seq<Version>, stamp: string, iec: Iec): seq<Version> {
    var all := [Version(stamp, true, Some(iec))] + Deactivated(versions);
    if |all| <= HISTORY_DEPTH then all else all[..HISTORY_DEPTH]
  }

  function Adopted(s: Store, iec: Iec, stamp: string): Store {
    Store(s.policy.(goose := iec.goose, mms := iec.mms, version := stamp), Recorded(s.versions, stamp, iec))
  }

  function Handle(s: Store, q: Request): (Store, Reply) {
    match q
    case ApproveCandidate(candidate, stamp) =>
      if candidate.None? then (s, Failed(404))
      else if !Usable(candidate.value) then (s, Failed(422))
      else (Adopted(s, candidate.value, stamp), Applied)
    case ApproveDrift(live, stamp) =>
      if !Usable(live) then (s, Failed(404)) else (Adopted(s, live, stamp), Applied)
    case Rollback(version, stamp) =>
      var target := FirstNamed(s.versions, version);
      if target.None? then (s, Failed(404))
      else if target.value.snapshot.None? then (s, Failed(422))
      else (Adopted(s, target.value.snapshot.value, stamp), Applied)
  }

  /** baseline_service.py over the policy and history documents. */
  class BaselineService {
    var policy: Policy
    var versions: seq<Version>

    constructor (policy: Policy)
      ensures View() == Store(policy, [])
    {
      this.policy := policy;
      versions := [];
    }

    function View(): Store
      reads this
    {
      Store(policy, versions)
    }

    method ApplyIec61850(observed: Iec, stamp: string)
      modifies this`policy
      ensures policy == old(policy).(goose := observed.goose, mms := observed.mms, version := stamp)
    {
      policy := policy.(goose := observed.goose, mms := observed.mms);
      policy := policy.(version := stamp);
    }

    method RecordHistory(stamp: string, observed: Iec)
      modifies this`versions
      ensures versions == Recorded(old(versions), stamp, observed)
    {
      var i := 0;
      while i < |versions|
        invariant 0 <= i <= |versions| == |old(versions)|
        invariant forall j :: 0 <= j < i ==> versions[j] == old(versions)[j].(active := false)
        invariant forall j :: i <= j < |versions| ==> versions[j] == old(versions)[j]
      {
        versions := versions[i := versions[i].(active := false)];
        i := i + 1;
      }
      assert versions == Deactivated(old(versions));
      versions := [Version(stamp, true, Some(observed))] + versions;
      if |versions| > HISTORY_DEPTH {
        versions := versions[..HISTORY_DEPTH];
      }
    }

    method Approve(candidate: Option<Iec>, stamp: string) returns (reply: Reply)
      modifies this
      ensures (View(), reply) == Handle(old(View()), ApproveCandidate(candidate, stamp))
    {
      if candidate == None { return Failed(404); }
      if candidate.value.goose == [] && candidate.value.mms == [] { return Failed(422); }
      ApplyIec61850(candidate.value, stamp);
      RecordHistory(stamp, candidate.value);
      return Applied;
    }

    method AcceptDrift(live: Iec, stamp: string) returns (reply: Reply)
      modifies this
      ensures (View(), reply) == Handle(old(View()), ApproveDrift(live, stamp))
    {
      if live.goose == [] && live.mms == [] { return Failed(404); }
      ApplyIec61850(live, stamp);
      RecordHistory(stamp, live);
      return Applied;
    }

    method RollbackTo(version: string, stamp: string) returns (reply: Reply)
      modifies this
      ensures (View(), reply) == Handle(old(View()), Rollback(version, stamp))
    {
      var i := 0;
      while i < |versions| && versions[i].version != version
        invariant 0 <= i <= |versions|
        invariant FirstNamed(versions, version) == FirstNamed(versions[i..], version)
      {
        i := i + 1;
      }
      if i == |versions| { return Failed(404); }
      var snapshot := versions[i].snapshot;
      if snapshot == None { return Failed(422); }
      ApplyIec61850(snapshot.value, stamp);
      RecordHistory(stamp, snapshot.value);
      return Applied;
    }
  }

  // ---- runs -------------------------------------------------------------------------

  /** A run: the stores it passes through, starting with no history, the requests, the replies. */
  datatype Run = Run(ws: seq<Store>, qs: seq<Request>, replies: seq<Reply>)

  predicate IsRun(r: Run) {
    |r.ws| == |r.qs| + 1 && |r.replies| == |r.qs| && r.ws[0].versions == []
    && forall k :: 0 <= k < |r.qs| ==> (r.ws[k + 1], r.replies[k]) == Handle(r.ws[k], r.qs[k])
  }

  /** One applied request: its position in the run, its stamp, and the lists in force after it. */
  datatype Entry = Entry(k: nat, stamp: string, lists: Iec)

  /** The applied requests among the first `n`, oldest first. */
  function LogOf(r: Run, n: nat): seq<Entry>
    requires IsRun(r) && n <= |r.qs|
  {
    if n == 0 then []
    else if r.replies[n - 1] == Applied then
      LogOf(r, n - 1) + [Entry(n - 1, r.qs[n - 1].stamp, ListsOf(r.ws[n].policy))]
    else LogOf(r, n - 1)
  }

  /** The history a log stands for: its last twenty entries, newest first, only the head active. */
  function HistoryOf(log: seq<Entry>): (h: seq<Version>)
    ensures |h| == if |log| <= HISTORY_DEPTH then |log| else HISTORY_DEPTH
  {
    seq(if |log| <= HISTORY_DEPTH then |log| else HISTORY_DEPTH,
        i requires 0 <= i < |log| => Version(log[|log| - 1 - i].stamp, i == 0, Some(log[|log| - 1 - i].lists)))
  }

  /** Every applied request adopts some block under its stamp; a refused one changes nothing. */
  lemma AppliedIsAdopted(r: Run, k: nat) returns (iec: Iec)
    requires IsRun(r) && k < |r.qs|
    ensures r.ws[k + 1] == if r.replies[k] == Applied then Adopted(r.ws[k], iec, r.qs[k].stamp) else r.ws[k]
  {
    var q := r.qs[k];
    assert (r.ws[k + 1], r.replies[k]) == Handle(r.ws[k], q);
    iec := Iec([], []);
    if r.replies[k] == Applied {
      iec := match q
        case ApproveCandidate(candidate, _) => candidate.value
        case ApproveDrift(live, _) => live
        case Rollback(version, _) => FirstNamed(r.ws[k].versions, version).value.snapshot.value;
    }
  }

  /** Approving a candidate succeeds exactly when there is one with something in it, and then exactly its
      lists are in force, under the stamp; without one the answer is 404, for an empty one 422. */
  lemma ApprovalAdopts(r: Run, k: nat)
    requires IsRun(r) && k < |r.qs| && r.qs[k].ApproveCandidate?
    ensures var c, p := r.qs[k].candidate, r.ws[k + 1].policy;
      if c == None then r.replies[k] == Failed(404)
      else if c.value.goose == [] && c.value.mms == [] then r.replies[k] == Failed(422)
      else r.replies[k] == Applied && p.goose == c.value.goose && p.mms == c.value.mms && p.version == r.qs[k].stamp
    ensures r.replies[k] != Applied ==> r.ws[k + 1] == r.ws[k]
  {
    assert (r.ws[k + 1], r.replies[k]) == Handle(r.ws[k], r.qs[k]);
  }

  /** Approving the drift does so exactly when there is something live. */
  lemma DriftApprovalAdopts(r: Run, k: nat)
    requires IsRun(r) && k < |r.qs| && r.qs[k].ApproveDrift?
    ensures var live, p := r.qs[k].live, r.ws[k + 1].policy;
      if live.goose == [] && live.mms == [] then r.replies[k] == Failed(404)
      else r.replies[k] == Applied && p.goose == live.goose && p.mms == live.mms && p.version == r.qs[k].stamp
    ensures r.replies[k] != Applied ==> r.ws[k + 1] == r.ws[k]
  {
    assert (r.ws[k + 1], r.replies[k]) == Handle(r.ws[k], r.qs[k]);
  }

  lemma RecordingExtendsLog(log: seq<Entry>, e: Entry)
    ensures Recorded(HistoryOf(log), e.stamp, e.lists) == HistoryOf(log + [e])
  {
    var h, h' := HistoryOf(log), HistoryOf(log + [e]);
    var r := Recorded(h, e.stamp, e.lists);
    assert |r| == |h'|;
    forall i | 0 <= i < |r| ensures r[i] == h'[i] {
      if i > 0 { assert r[i] == h[i - 1].(active := false); }
    }
  }

  /** Over any run the history is exactly what the log of applied requests stands for. */
  lemma {:induction false} HistoryMirrorsLog(r: Run, n: nat)
    requires IsRun(r) && n <= |r.qs|
    ensures r.ws[n].versions == HistoryOf(LogOf(r, n))
  {
    if n > 0 {
      HistoryMirrorsLog(r, n - 1);
      var iec := AppliedIsAdopted(r, n - 1);
      if r.replies[n - 1] == Applied {
        RecordingExtendsLog(LogOf(r, n - 1), Entry(n - 1, r.qs[n - 1].stamp, iec));
      }
    }
  }

  /** `e` describes one applied request among the first `n`. */
  predicate FromRun(r: Run, n: nat, e: Entry)
    requires IsRun(r) && n <= |r.qs|
  {
    e.k < n && r.replies[e.k] == Applied && e.stamp == r.qs[e.k].stamp && e.lists == ListsOf(r.ws[e.k + 1].policy)
  }

  lemma {:induction false} LogIsOrdered(r: Run, n: nat)
    requires IsRun(r) && n <= |r.qs|
    ensures forall i :: 0 <= i < |LogOf(r, n)| ==> FromRun(r, n, LogOf(r, n)[i])
    ensures forall i, j :: 0 <= i < j < |LogOf(r, n)| ==> LogOf(r, n)[i].k < LogOf(r, n)[j].k
  {
    if n > 0 {
      LogIsOrdered(r, n - 1);
      var before := LogOf(r, n - 1);
      forall i | 0 <= i < |before| ensures before[i].k < n - 1 && FromRun(r, n, before[i]) {
        assert FromRun(r, n - 1, before[i]);
      }
    }
  }

  /** Applied request `k` is at some place in the log. */
  lemma {:induction false} PlaceInLog(r: Run, n: nat, k: nat) returns (i: nat)
    requires IsRun(r) && k < n <= |r.qs| && r.replies[k] == Applied
    ensures i < |LogOf(r, n)| && LogOf(r, n)[i].k == k
  {
    if k == n - 1 {
      i := |LogOf(r, n)| - 1;
    } else {
      i := PlaceInLog(r, n - 1, k);
      assert LogOf(r, n)[i] == LogOf(r, n - 1)[i];
    }
  }

  /** The log holds the applied requests of the run, each once and in order. */
  lemma LogIsComplete(r: Run, n: nat)
    requires IsRun(r) && n <= |r.qs|
    ensures var log := LogOf(r, n);
      && (forall i :: 0 <= i < |log| ==> FromRun(r, n, log[i]))
      && (forall i, j :: 0 <= i < j < |log| ==> log[i].k < log[j].k)
      && forall k: nat :: k < n && r.replies[k] == Applied ==> exists i :: 0 <= i < |log| && log[i].k == k
  {
    LogIsOrdered(r, n);
    forall k: nat | k < n && r.replies[k] == Applied
      ensures exists i :: 0 <= i < |LogOf(r, n)| && LogOf(r, n)[i].k == k
    {
      var i := PlaceInLog(r, n, k);
    }
  }

  /** The history holds the latest twenty applied requests, or all if fewer: version `i` is the `i`-th
      latest, under its stamp, with the lists it put in force. */
  lemma HistoryKeepsTwenty(r: Run, n: nat, i: nat)
    requires IsRun(r) && n <= |r.qs|
    ensures var log, h := LogOf(r, n), r.ws[n].versions;
      && |h| == (if |log| <= 20 then |log| else 20)
      && (i < |h| ==> h[i] == Version(log[|log| - 1 - i].stamp, i == 0, Some(log[|log| - 1 - i].lists)))
  {
    HistoryMirrorsLog(r, n);
    if i < |r.ws[n].versions| { HistoryAt(LogOf(r, n), i); }
  }

  /** The lists in force are the head snapshot, only the head is active, at most twenty versions
      are kept, and thresholds and rules are never touched. */
  lemma {:induction false} PolicyIsHead(r: Run, n: nat)
    requires IsRun(r) && n <= |r.qs|
    ensures var s := r.ws[n];
      && s.policy.others == r.ws[0].policy.others
      && |s.versions| <= 20
      && (forall i :: 0 <= i < |s.versions| ==> (s.versions[i].active <==> i == 0))
      && (if s.versions == [] then ListsOf(s.policy) == ListsOf(r.ws[0].policy)
          else s.versions[0].snapshot == Some(ListsOf(s.policy)))
  {
    HistoryMirrorsLog(r, n);
    if n > 0 {
      PolicyIsHead(r, n - 1);
      var iec := AppliedIsAdopted(r, n - 1);
    }
  }

  lemma {:induction false} FirstNamedAt(versions: seq<Version>, version: string)
    ensures var found := FirstNamed(versions, version);
      if found.None? then forall i :: 0 <= i < |versions| ==> versions[i].version != version
      else exists i :: 0 <= i < |versions| && versions[i] == found.value && found.value.version == version
             && forall j :: 0 <= j < i ==> versions[j].version != version
  {
    if versions != [] && versions[0].version != version {
      FirstNamedAt(versions[1..], version);
      var found := FirstNamed(versions[1..], version);
      if found.Some? {
        var i :| 0 <= i < |versions[1..]| && versions[1..][i] == found.value
                 && forall j :: 0 <= j < i ==> versions[1..][j].version != version;
        assert versions[i + 1] == found.value;
        forall j | 0 <= j < i + 1 ensures versions[j].version != version {
          if j > 0 { assert versions[j] == versions[1..][j - 1]; }
        }
      } else {
        forall i | 0 <= i < |versions| ensures versions[i].version != version {
          if i > 0 { assert versions[i] == versions[1..][i - 1]; }
        }
      }
    }
  }

  predicate Listed(s: Store, version: string) {
    exists i :: 0 <= i < |s.versions| && s.versions[i].version == version
  }

  /** Applied request `k` is the last one before `n` to be stamped `version`. */
  predicate LatestStamped(r: Run, n: nat, k: nat, version: string)
    requires IsRun(r) && n <= |r.qs|
  {
    k < n && r.replies[k] == Applied && r.qs[k].stamp == version
    && forall j: nat :: k < j < n && r.replies[j] == Applied ==> r.qs[j].stamp != version
  }

  lemma HistoryAt(log: seq<Entry>, i: nat)
    requires i < |HistoryOf(log)|
    ensures HistoryOf(log)[i] == Version(log[|log| - 1 - i].stamp, i == 0, Some(log[|log| - 1 - i].lists))
  {}

  /** Of two entries of an ordered log the later one stands for the newer version. */
  lemma LaterEntryIsNewer(log: seq<Entry>, i: nat, at: nat)
    requires i < |HistoryOf(log)| && at < |log| && log[|log| - 1 - i].k < log[at].k
    requires forall x, y :: 0 <= x < y < |log| ==> log[x].k < log[y].k
    ensures |log| - 1 - at < i && HistoryOf(log)[|log| - 1 - at].version == log[at].stamp
  {}

  /** An applied request later than the one that made version `i` made a newer version. */
  lemma LaterIsNewer(r: Run, n: nat, i: nat, j: nat) returns (m: nat)
    requires IsRun(r) && j < n <= |r.qs| && i < |r.ws[n].versions| && r.replies[j] == Applied
    requires |r.ws[n].versions| <= |LogOf(r, n)| && LogOf(r, n)[|LogOf(r, n)| - 1 - i].k < j
    ensures m < i && r.ws[n].versions[m].version == r.qs[j].stamp
  {
    HistoryMirrorsLog(r, n);
    LogIsOrdered(r, n);
    var at := PlaceInLog(r, n, j);
    assert FromRun(r, n, LogOf(r, n)[at]);
    LaterEntryIsNewer(LogOf(r, n), i, at);
    m := |LogOf(r, n)| - 1 - at;
  }

  /** Version `i` was made by an applied request, under its stamp and with the lists it put in force. */
  lemma SourceOf(r: Run, n: nat, i: nat) returns (k: nat)
    requires IsRun(r) && n <= |r.qs| && i < |r.ws[n].versions|
    ensures k < n && r.replies[k] == Applied
    ensures r.ws[n].versions[i].version == r.qs[k].stamp
    ensures r.ws[n].versions[i].snapshot == Some(ListsOf(r.ws[k + 1].policy))
    ensures |r.ws[n].versions| <= |LogOf(r, n)| && LogOf(r, n)[|LogOf(r, n)| - 1 - i].k == k
  {
    HistoryMirrorsLog(r, n);
    LogIsOrdered(r, n);
    var log := LogOf(r, n);
    assert FromRun(r, n, log[|log| - 1 - i]);
    HistoryAt(log, i);
    k := log[|log| - 1 - i].k;
  }

  /** The entry a rollback finds belongs to the latest applied request stamped that way. */
  lemma FirstIsLatest(r: Run, n: nat, version: string, i: nat) returns (k: nat)
    requires IsRun(r) && n <= |r.qs|
    requires i < |r.ws[n].versions| && r.ws[n].versions[i].version == version
    requires forall j :: 0 <= j < i ==> r.ws[n].versions[j].version != version
    ensures LatestStamped(r, n, k, version)
    ensures r.ws[n].versions[i].snapshot == Some(ListsOf(r.ws[k + 1].policy))
  {
    k := SourceOf(r, n, i);
    forall j: nat | k < j < n && r.replies[j] == Applied ensures r.qs[j].stamp != version {
      var m := LaterIsNewer(r, n, i, j);
    }
  }

  /** Rolling back to a listed version succeeds and restores exactly the lists in force right after
      the latest request stamped with it (with distinct stamps: the one request). */
  lemma RollbackRestores(r: Run, n: nat, version: string, stamp: string) returns (k: nat)
    requires IsRun(r) && n <= |r.qs| && Listed(r.ws[n], version)
    ensures LatestStamped(r, n, k, version)
    ensures var (s, reply) := Handle(r.ws[n], Rollback(version, stamp));
      reply == Applied && ListsOf(s.policy) == ListsOf(r.ws[k + 1].policy) && s.policy.others == r.ws[0].policy.others
      && s.policy.version == stamp
  {
    PolicyIsHead(r, n);
    var h := r.ws[n].versions;
    FirstNamedAt(h, version);
    var found := FirstNamed(h, version);
    var i :| 0 <= i < |h| && h[i] == found.value && found.value.version == version
             && forall j :: 0 <= j < i ==> h[j].version != version;
    k := FirstIsLatest(r, n, version, i);
  }

  /** Any other rollback fails with 404 and changes nothing: the 422 answer never occurs. */
  lemma RollbackElsewhere(r: Run, n: nat, version: string, stamp: string)
    requires IsRun(r) && n <= |r.qs| && !Listed(r.ws[n], version)
    ensures Handle(r.ws[n], Rollback(version, stamp)) == (r.ws[n], Failed(404))
  {
    FirstNamedAt(r.ws[n].versions, version);
  }

  /** After approving the live block as the new baseline, unchanged live data shows no drift. */
  lemma ApprovedDriftIsZero(s: Store, live: Iec, stamp: string)
    requires Handle(s, ApproveDrift(live, stamp)).1 == Applied
    ensures DriftOf(ListsOf(Handle(s, ApproveDrift(live, stamp)).0.policy), live).Total() == 0
  {
    TotalZeroIffAgree(live, live);
  }
}
