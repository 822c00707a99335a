/** Drift composed with the collector: what is reported when a snapshot taken after `n1` trace
    entries is the active baseline and the same collector has since run on to `n2`. */
module DriftWindow {
  import opened Common
  import opened Collector
  import opened CollectorSpec
  import opened Drift

  /** A snapshot's dictionaries are the collector's own tables. */
  lemma TablesOfSnapshot(iec: Iec, trace: seq<Timed>, n: nat, cutoff: Option<real>)
    requires n <= |trace| && GoodTrace(trace) && SnapshotOf(iec, IndexAt(trace, n), cutoff)
    ensures GooseByKey(iec) == GooseEntries(IndexAt(trace, n).goose, cutoff)
    ensures MmsByIp(iec) == MmsEntries(IndexAt(trace, n).mms, cutoff)
  {
    KeysAreJoined(trace, n);
    var gooseOrder :| Lists(iec.goose, gooseOrder, GooseEntries(IndexAt(trace, n).goose, cutoff));
    IndexOfListing(DriftKey, iec.goose, gooseOrder, GooseEntries(IndexAt(trace, n).goose, cutoff));
    var mmsOrder :| Lists(iec.mms, mmsOrder, MmsEntries(IndexAt(trace, n).mms, cutoff));
    IndexOfListing((e: MmsEntry) => e.iedIp, iec.mms, mmsOrder, MmsEntries(IndexAt(trace, n).mms, cutoff));
  }

  /** `approved` was observed after `n1` entries and `live` after `n2`, each with its own cutoff. */
  ghost predicate Observed(trace: seq<Timed>, n1: nat, c1: Option<real>, approved: Iec,
                           n2: nat, c2: Option<real>, live: Iec) {
    n1 <= n2 <= |trace| && GoodTrace(trace)
    && SnapshotOf(approved, IndexAt(trace, n1), c1) && SnapshotOf(live, IndexAt(trace, n2), c2)
  }

  /** A publisher's first frame does not change as the trace grows. */
  lemma ConfRevIsStable(trace: seq<Timed>, n1: nat, n2: nat, s: Subject)
    requires n1 <= n2 <= |trace| && GoodTrace(trace) && s.Publisher? && GoodSubject(s)
    requires SubjectKey(s) in IndexAt(trace, n1).goose
    ensures SubjectKey(s) in IndexAt(trace, n2).goose
    ensures IndexAt(trace, n1).goose[SubjectKey(s)].confRev == IndexAt(trace, n2).goose[SubjectKey(s)].confRev
  {
    RecordIsSummary(trace, n1, s);
    RecordIsSummary(trace, n2, s);
    var i :| Least(i, At(trace, n1, s));
    assert i in At(trace, n2, s);
    var j :| Least(j, At(trace, n2, s));
    assert j in At(trace, n1, s);
  }

  /** Report `d` adds publisher `s` exactly when it entered the window, removes it exactly when it
      left, and changes it exactly when its first non-test frame came after the approval; a
      configuration revision never changes and production only turns on. */
  ghost predicate PublisherMoved(d: Report, trace: seq<Timed>, n1: nat, c1: Option<real>,
                                 n2: nat, c2: Option<real>, s: Subject)
    requires n1 <= n2 <= |trace| && s.Publisher?
  {
    var k, before, after := SubjectKey(s), SeenSince(trace, n1, s, c1), SeenSince(trace, n2, s, c2);
    && (k in d.gooseAdded <==> after && !before)
    && (k in d.gooseRemoved <==> before && !after)
    && (k in d.gooseChanged <==>
          before && after && TestAt(trace, n1, s, false) == {} && TestAt(trace, n2, s, false) != {})
    && (k in d.gooseChanged ==> d.gooseChanged[k] == GooseChange(Some((false, true)), None))
  }

  lemma ChangedIff(a: Tables, l: Tables, k: string)
    ensures k in Compare(a, l).gooseChanged <==>
      k in a.goose && k in l.goose && GooseDiff(a.goose[k], l.goose[k]) != NO_GOOSE_CHANGE
    ensures k in Compare(a, l).gooseChanged ==> Compare(a, l).gooseChanged[k] == GooseDiff(a.goose[k], l.goose[k])
  {}

  /** For every trace, pair of cutoffs and publisher, drift reports exactly that movement. */
  lemma PublisherDrift(trace: seq<Timed>, n1: nat, c1: Option<real>, approved: Iec,
                       n2: nat, c2: Option<real>, live: Iec, s: Subject)
    requires Observed(trace, n1, c1, approved, n2, c2, live) && s.Publisher? && GoodSubject(s)
    ensures PublisherMoved(DriftOf(approved, live), trace, n1, c1, n2, c2, s)
  {
    TablesOfSnapshot(approved, trace, n1, c1);
    TablesOfSnapshot(live, trace, n2, c2);
    PublishersReported(trace, n1, c1, s);
    PublishersReported(trace, n2, c2, s);
    if SeenSince(trace, n1, s, c1) && SeenSince(trace, n2, s, c2) {
      ProductionIffSomeRealFrame(trace, n1, s);
      ProductionIffSomeRealFrame(trace, n2, s);
      ConfRevIsStable(trace, n1, n2, s);
      assert TestAt(trace, n1, s, false) <= TestAt(trace, n2, s, false);
    }
    ChangedIff(TablesOf(approved), TablesOf(live), SubjectKey(s));
  }

  function ChangeFor(d: Report, ied: string): ClientChange {
    if ied in d.clientChanges then d.clientChanges[ied] else NO_CLIENT_CHANGE
  }

  /** The same for an IED and, when the IED was present both times, for one of its clients. */
  ghost predicate ClientMoved(d: Report, trace: seq<Timed>, n1: nat, c1: Option<real>, n2: nat, c2: Option<real>,
                              ied: string, ip: string)
    requires n1 <= n2 <= |trace|
  {
    var iedBefore, iedAfter := SeenSince(trace, n1, Ied(ied), c1), SeenSince(trace, n2, Ied(ied), c2);
    var before, after := SeenSince(trace, n1, MmsClient(ied, ip), c1), SeenSince(trace, n2, MmsClient(ied, ip), c2);
    && (ied in d.mmsAdded <==> iedAfter && !iedBefore)
    && (ied in d.mmsRemoved <==> iedBefore && !iedAfter)
    && (ip in ChangeFor(d, ied).added <==> iedBefore && after && !before)
    && (ip in ChangeFor(d, ied).removed <==> iedAfter && before && !after)
  }

  lemma ClientChangedIff(a: Tables, l: Tables, ied: string, ip: string)
    ensures var change, both := ChangeFor(Compare(a, l), ied), ied in a.mms && ied in l.mms;
      && (ip in change.added <==> both && ip in l.mms[ied].clients && ip !in a.mms[ied].clients)
      && (ip in change.removed <==> both && ip in a.mms[ied].clients && ip !in l.mms[ied].clients)
  {
    if ied in a.mms && ied in l.mms {
      var change := ClientDiff(a.mms[ied], l.mms[ied]);
      assert change == NO_CLIENT_CHANGE ==> ip !in change.added && ip !in change.removed;
    }
  }

  /** And drift reports exactly that movement. */
  lemma ClientDrift(trace: seq<Timed>, n1: nat, c1: Option<real>, approved: Iec,
                    n2: nat, c2: Option<real>, live: Iec, ied: string, ip: string)
    requires Observed(trace, n1, c1, approved, n2, c2, live)
    ensures ClientMoved(DriftOf(approved, live), trace, n1, c1, n2, c2, ied, ip)
  {
    TablesOfSnapshot(approved, trace, n1, c1);
    TablesOfSnapshot(live, trace, n2, c2);
    IedsReported(trace, n1, c1, ied, ip);
    IedsReported(trace, n2, c2, ied, ip);
    ClientChangedIff(TablesOf(approved), TablesOf(live), ied, ip);
  }

  lemma SeenStays(trace: seq<Timed>, n1: nat, n2: nat, s: Subject)
    requires n1 <= n2 <= |trace| && SeenSince(trace, n1, s, None)
    ensures SeenSince(trace, n2, s, None)
  {
    var i :| 0 <= i < n1 && Mentions(trace[i], s);
    assert Fresh(trace[i].at, None);
  }

  /** Without a window nothing is ever removed. */
  lemma NoWindowNoRemoval(trace: seq<Timed>, n1: nat, approved: Iec, n2: nat, live: Iec)
    requires Observed(trace, n1, None, approved, n2, None, live)
    ensures var d := DriftOf(approved, live);
      d.Removed() == 0 && forall ied :: ied in d.clientChanges ==> d.clientChanges[ied].removed == {}
  {
    var d := DriftOf(approved, live);
    TablesOfSnapshot(approved, trace, n1, None);
    KeysAreJoined(trace, n1);
    forall k | k in d.gooseRemoved ensures false {
      var o := IndexAt(trace, n1).goose[k];
      var s := Publisher(o.mac, o.appid, o.gocbRef);
      PublisherDrift(trace, n1, None, approved, n2, None, live, s);
      SeenStays(trace, n1, n2, s);
    }
    forall ied | ied in d.mmsRemoved ensures false {
      ClientDrift(trace, n1, None, approved, n2, None, live, ied, "");
      SeenStays(trace, n1, n2, Ied(ied));
    }
    forall ied | ied in d.clientChanges ensures d.clientChanges[ied].removed == {} {
      forall ip | ip in d.clientChanges[ied].removed ensures false {
        ClientDrift(trace, n1, None, approved, n2, None, live, ied, ip);
        SeenStays(trace, n1, n2, MmsClient(ied, ip));
      }
    }
    assert d.gooseRemoved == {} && d.mmsRemoved == {};
  }
}
