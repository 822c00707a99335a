/** Sensor and console together: what the drift page shows at any later time, in terms of the
    packet trace, when a live snapshot was approved and possibly restored since. */
module BaselineEndToEnd {
  import opened Common
  import opened Collector
  import opened CollectorSpec
  import opened Drift
  import opened DriftWindow
  import opened Lifecycle

  /** No request between `i` and `n` was applied. */
  predicate Quiet(r: Run, i: nat, n: nat)
    requires IsRun(r) && n <= |r.qs|
  {
    forall j :: i <= j < n ==> r.replies[j] != Applied
  }

  lemma {:induction false} QuietKeepsPolicy(r: Run, i: nat, n: nat)
    requires IsRun(r) && i <= n <= |r.qs| && Quiet(r, i, n)
    ensures r.ws[n] == r.ws[i]
    decreases n
  {
    if i < n {
      QuietKeepsPolicy(r, i, n - 1);
      var iec := AppliedIsAdopted(r, n - 1);
    }
  }

  /** Step `k` approves the live snapshot `approved`, taken after `n1` trace entries. */
  ghost predicate ApprovedAt(r: Run, k: nat, trace: seq<Timed>, n1: nat, c1: Option<real>, approved: Iec)
    requires IsRun(r) && k < |r.qs|
  {
    r.replies[k] == Applied && r.qs[k] == ApproveDrift(approved, r.qs[k].stamp)
    && n1 <= |trace| && SnapshotOf(approved, IndexAt(trace, n1), c1)
  }

  lemma ListsAfterApproval(r: Run, k: nat, trace: seq<Timed>, n1: nat, c1: Option<real>, approved: Iec)
    requires IsRun(r) && k < |r.qs| && ApprovedAt(r, k, trace, n1, c1, approved)
    ensures ListsOf(r.ws[k + 1].policy) == approved
  {
    assert (r.ws[k + 1], r.replies[k]) == Handle(r.ws[k], r.qs[k]);
  }

  /** Until the next applied request, drift against the policy is exactly what entered and left the
      window since the approved snapshot was taken. */
  lemma DriftSinceApproval(r: Run, k: nat, n: nat, trace: seq<Timed>, n1: nat, c1: Option<real>, approved: Iec,
                           n2: nat, c2: Option<real>, live: Iec, s: Subject, ied: string, ip: string)
    requires IsRun(r) && k < n <= |r.qs| && ApprovedAt(r, k, trace, n1, c1, approved) && Quiet(r, k + 1, n)
    requires GoodTrace(trace) && n1 <= n2 <= |trace| && SnapshotOf(live, IndexAt(trace, n2), c2)
    requires s.Publisher? && GoodSubject(s)
    ensures var d := DriftOf(ListsOf(r.ws[n].policy), live);
      PublisherMoved(d, trace, n1, c1, n2, c2, s) && ClientMoved(d, trace, n1, c1, n2, c2, ied, ip)
  {
    ListsAfterApproval(r, k, trace, n1, c1, approved);
    QuietKeepsPolicy(r, k + 1, n);
    PublisherDrift(trace, n1, c1, approved, n2, c2, live, s);
    ClientDrift(trace, n1, c1, approved, n2, c2, live, ied, ip);
  }

  /** Rolling back to that approval, whatever was applied in between, shows the same movement again:
      everything since the approved snapshot was taken, not since the rollback. */
  lemma DriftSinceRollback(r: Run, k: nat, m: nat, stamp: string,
                           trace: seq<Timed>, n1: nat, c1: Option<real>, approved: Iec,
                           n2: nat, c2: Option<real>, live: Iec, s: Subject, ied: string, ip: string)
    requires IsRun(r) && k < m <= |r.qs| && ApprovedAt(r, k, trace, n1, c1, approved)
    requires LatestStamped(r, m, k, r.qs[k].stamp) && Listed(r.ws[m], r.qs[k].stamp)
    requires GoodTrace(trace) && n1 <= n2 <= |trace| && SnapshotOf(live, IndexAt(trace, n2), c2)
    requires s.Publisher? && GoodSubject(s)
    ensures var d := DriftOf(ListsOf(Handle(r.ws[m], Rollback(r.qs[k].stamp, stamp)).0.policy), live);
      PublisherMoved(d, trace, n1, c1, n2, c2, s) && ClientMoved(d, trace, n1, c1, n2, c2, ied, ip)
  {
    ListsAfterApproval(r, k, trace, n1, c1, approved);
    var k' := RollbackRestores(r, m, r.qs[k].stamp, stamp);
    assert k' == k;
    PublisherDrift(trace, n1, c1, approved, n2, c2, live, s);
    ClientDrift(trace, n1, c1, approved, n2, c2, live, ied, ip);
  }
}
