/** The port-scan sliding window: per-source event lists pruned on every query. */
module PortScan {
  datatype Sample = Sample(at: real, port: int)

  /** `[(t, p) for t, p in events if t >= cutoff]`. */
  function Since(events: seq<Sample>, cutoff: real): seq<Sample> {
    if events == [] then []
    else
      var n := |events| - 1;
      if events[n].at >= cutoff then Since(events[..n], cutoff) + [events[n]] else Since(events[..n], cutoff)
  }

  /** The ports of samples at or after the cutoff. */
  function PortsSince(events: seq<Sample>, cutoff: real): set<int> {
    set i | 0 <= i < |events| && events[i].at >= cutoff :: events[i].port
  }

  /** The pruned lists, by source. */
  type Lists = map<string, seq<Sample>>

  datatype Call = Record(src: string, port: int, now: real) | Query(src: string, windowSec: real, now: real)

  function ListFor(lists: Lists, src: string): seq<Sample> {
    if src in lists then lists[src] else []
  }

  function Apply(lists: Lists, call: Call): Lists {
    match call
    case Record(src, port, now) => lists[src := ListFor(lists, src) + [Sample(now, port)]]
    case Query(src, windowSec, now) => lists[src := Since(ListFor(lists, src), now - windowSec)]
  }

  /** inventory.py, the port-scan part. */
  class Inventory {
    var events: Lists

    constructor ()
      ensures events == map[]
    {
      events := map[];
    }

    method RecordPortScanSample(src: string, port: int, now: real)
      modifies this
      ensures events == Apply(old(events), Record(src, port, now))
    {
      if src !in events {
        events := events[src := []];
      }
      events := events[src := events[src] + [Sample(now, port)]];
    }

    method UniquePortsInWindow(src: string, windowSec: real, now: real) returns (ports: set<int>)
      modifies this
      ensures events == Apply(old(events), Query(src, windowSec, now))
      ensures ports == PortsSince(ListFor(events, src), now - windowSec)
    {
      var cutoff := now - windowSec;
      var list := if src in events then events[src] else [];
      events := events[src := Since(list, cutoff)];
      ports := set i | 0 <= i < |events[src]| && events[src][i].at >= cutoff :: events[src][i].port;
    }
  }

  // ---- pruning loses nothing ------------------------------------------------------------

  lemma SinceAppend(events: seq<Sample>, s: Sample, cutoff: real)
    ensures Since(events + [s], cutoff) == if s.at >= cutoff then Since(events, cutoff) + [s] else Since(events, cutoff)
  {
    assert (events + [s])[..|events|] == events;
  }

  /** Two filters commute. */
  lemma {:induction false} SinceCommutes(events: seq<Sample>, c: real, d: real)
    ensures Since(Since(events, c), d) == Since(Since(events, d), c)
  {
    if events != [] {
      var n := |events| - 1;
      var e, byC, byD := events[n], Since(events[..n], c), Since(events[..n], d);
      SinceCommutes(events[..n], c, d);
      SinceAppend(byC, e, d);
      SinceAppend(byD, e, c);
    }
  }

  lemma {:induction false} SinceKeepsAll(events: seq<Sample>, cutoff: real)
    requires forall i :: 0 <= i < |events| ==> events[i].at >= cutoff
    ensures Since(events, cutoff) == events
  {
    if events != [] {
      SinceKeepsAll(events[..|events| - 1], cutoff);
    }
  }

  lemma {:induction false} SinceNoLonger(events: seq<Sample>, cutoff: real)
    ensures |Since(events, cutoff)| <= |events|
  {
    if events != [] { SinceNoLonger(events[..|events| - 1], cutoff); }
  }

  lemma {:induction false} SinceLoses(events: seq<Sample>, cutoff: real, i: nat)
    requires i < |events| && events[i].at < cutoff
    ensures |Since(events, cutoff)| < |events|
  {
    var n := |events| - 1;
    if i == n { SinceNoLonger(events[..n], cutoff); } else { SinceLoses(events[..n], cutoff, i); }
  }

  lemma {:induction false} SinceHolds(events: seq<Sample>, cutoff: real, s: Sample)
    ensures s in Since(events, cutoff) <==> s in events && s.at >= cutoff
  {
    if events != [] {
      var n := |events| - 1;
      SinceHolds(events[..n], cutoff, s);
      assert events == events[..n] + [events[n]];
    }
  }

  lemma PortsAppend(events: seq<Sample>, s: Sample, cutoff: real)
    ensures PortsSince(events + [s], cutoff) == PortsSince(events, cutoff) + if s.at >= cutoff then {s.port} else {}
  {
    var all := events + [s];
    forall p
      ensures p in PortsSince(all, cutoff) <==> p in PortsSince(events, cutoff) || (s.at >= cutoff && p == s.port)
    {
      if p in PortsSince(events, cutoff) {
        var i :| 0 <= i < |events| && events[i].at >= cutoff && events[i].port == p;
        assert all[i] == events[i];
      }
      if s.at >= cutoff && p == s.port { assert all[|events|] == s; }
    }
  }

  lemma {:induction false} PortsOfSince(events: seq<Sample>, cutoff: real)
    ensures PortsSince(Since(events, cutoff), cutoff) == PortsSince(events, cutoff)
  {
    if events != [] {
      var n := |events| - 1;
      var front, kept := events[..n], Since(events[..n], cutoff);
      PortsOfSince(front, cutoff);
      assert events == front + [events[n]];
      PortsAppend(front, events[n], cutoff);
      if events[n].at >= cutoff {
        PortsAppend(kept, events[n], cutoff);
      }
    }
  }

  // ---- whole runs -----------------------------------------------------------------------------

  function ListsAfter(calls: seq<Call>, k: nat): Lists
    requires k <= |calls|
  {
    if k == 0 then map[] else Apply(ListsAfter(calls, k - 1), calls[k - 1])
  }

  /** Everything recorded for a source, never pruned. */
  function History(calls: seq<Call>, k: nat, src: string): seq<Sample>
    requires k <= |calls|
  {
    if k == 0 then []
    else
      var call, history := calls[k - 1], History(calls, k - 1, src);
      if call.Record? && call.src == src then history + [Sample(call.now, call.port)] else history
  }

  predicate TimeOrdered(calls: seq<Call>) {
    forall i, j :: 0 <= i < j < |calls| ==> calls[i].now <= calls[j].now
  }

  /** Every query uses the one configured window. */
  predicate OneWindow(calls: seq<Call>, windowSec: real) {
    forall i :: 0 <= i < |calls| && calls[i].Query? ==> calls[i].windowSec == windowSec
  }

  function CutoffOf(call: Call): real
    requires call.Query?
  {
    call.now - call.windowSec
  }

  /** No query for `src` among the first `k` calls had a cutoff after `cutoff`. */
  predicate NoLaterCutoff(calls: seq<Call>, k: nat, src: string, cutoff: real)
    requires k <= |calls|
  {
    forall j :: 0 <= j < k && calls[j].Query? && calls[j].src == src ==> CutoffOf(calls[j]) <= cutoff
  }

  predicate Recorded(calls: seq<Call>, i: nat, src: string, s: Sample)
    requires i < |calls|
  {
    calls[i] == Record(src, s.port, s.at)
  }

  predicate Prunes(calls: seq<Call>, j: nat, src: string, at: real)
    requires j < |calls|
  {
    calls[j].Query? && calls[j].src == src && at < CutoffOf(calls[j])
  }

  /** Query `j` for `src` came after a sample of `src` inside [cutoff, its own cutoff) was recorded. */
  ghost predicate Drops(calls: seq<Call>, j: nat, src: string, cutoff: real)
    requires j < |calls|
  {
    exists i, s :: 0 <= i < j && Recorded(calls, i, src, s) && s.at >= cutoff && Prunes(calls, j, src, s.at)
  }

  /** Some query among the first `k` calls dropped a sample that a query from `cutoff` would count. */
  ghost predicate Dropped(calls: seq<Call>, k: nat, src: string, cutoff: real)
    requires k <= |calls|
  {
    exists j :: 0 <= j < k && Drops(calls, j, src, cutoff)
  }

  /** How a call changes the pruned list, and the full history, of source `src`. */
  predicate ListMoves(list: seq<Sample>, list': seq<Sample>, call: Call, src: string) {
    list' == if call.src != src then list
             else if call.Record? then list + [Sample(call.now, call.port)]
             else Since(list, call.now - call.windowSec)
  }

  predicate HistoryMoves(history: seq<Sample>, history': seq<Sample>, call: Call, src: string) {
    history' == if call.Record? && call.src == src then history + [Sample(call.now, call.port)] else history
  }

  lemma ApplyFor(lists: Lists, call: Call, src: string)
    ensures ListMoves(ListFor(lists, src), ListFor(Apply(lists, call), src), call, src)
  {}

  lemma HistoryGrows(calls: seq<Call>, k: nat, src: string)
    requires 0 < k <= |calls|
    ensures HistoryMoves(History(calls, k - 1, src), History(calls, k, src), calls[k - 1], src)
  {}

  /** What the history holds is what was recorded. */
  lemma {:induction false} HistoryHolds(calls: seq<Call>, k: nat, src: string, s: Sample)
    requires k <= |calls|
    ensures s in History(calls, k, src) <==> exists i :: 0 <= i < k && Recorded(calls, i, src, s)
  {
    if k > 0 {
      HistoryHolds(calls, k - 1, src, s);
      HistoryGrows(calls, k, src);
      assert s in History(calls, k, src) <==> s in History(calls, k - 1, src) || Recorded(calls, k - 1, src, s);
    }
  }

  /** From `cutoff` on, the pruned list is the history when nothing was dropped, else it is shorter. */
  predicate Matches(list: seq<Sample>, history: seq<Sample>, cutoff: real, dropped: bool) {
    if dropped then |Since(list, cutoff)| < |Since(history, cutoff)| else Since(list, cutoff) == Since(history, cutoff)
  }

  lemma RecordKeepsMatch(list: seq<Sample>, history: seq<Sample>, s: Sample, cutoff: real, dropped: bool)
    requires Matches(list, history, cutoff, dropped)
    ensures Matches(list + [s], history + [s], cutoff, dropped)
  {
    SinceAppend(list, s, cutoff);
    SinceAppend(history, s, cutoff);
  }

  /** A call drops something that counts from `cutoff` on: a query of the source, whose history holds
      a sample between the two cutoffs. */
  ghost predicate DropsNow(history: seq<Sample>, call: Call, src: string, cutoff: real) {
    call.Query? && call.src == src && exists s :: s in history && cutoff <= s.at < CutoffOf(call)
  }

  lemma PruneKeepsMatch(list: seq<Sample>, history: seq<Sample>, pruned: real, cutoff: real, dropped: bool)
    requires Matches(list, history, cutoff, dropped)
    ensures var drops := exists s :: s in history && cutoff <= s.at < pruned;
      Matches(Since(list, pruned), history, cutoff, dropped || drops)
  {
    var counted := Since(list, cutoff);
    SinceCommutes(list, pruned, cutoff);
    SinceNoLonger(counted, pruned);
    if !dropped {
      forall s ensures s in counted <==> s in history && s.at >= cutoff { SinceHolds(history, cutoff, s); }
      if s :| s in history && cutoff <= s.at < pruned {
        var i :| 0 <= i < |counted| && counted[i] == s;
        SinceLoses(counted, pruned, i);
      } else {
        forall i | 0 <= i < |counted| ensures counted[i].at >= pruned { assert counted[i] in counted; }
        SinceKeepsAll(counted, pruned);
      }
    }
  }

  lemma DroppedStep(calls: seq<Call>, k: nat, src: string, cutoff: real)
    requires 0 < k <= |calls|
    ensures Dropped(calls, k, src, cutoff)
         == (Dropped(calls, k - 1, src, cutoff) || DropsNow(History(calls, k - 1, src), calls[k - 1], src, cutoff))
  {
    var j := k - 1;
    var history := History(calls, j, src);
    forall s ensures s in history <==> exists i :: 0 <= i < j && Recorded(calls, i, src, s) {
      HistoryHolds(calls, j, src, s);
    }
    assert Drops(calls, k - 1, src, cutoff) <==> DropsNow(History(calls, k - 1, src), calls[k - 1], src, cutoff);
  }

  /** One call keeps a source's pruned list in step with its history. */
  lemma CallKeepsMatch(list: seq<Sample>, list': seq<Sample>, history: seq<Sample>, history': seq<Sample>,
                       call: Call, src: string, cutoff: real, dropped: bool, dropped': bool)
    requires Matches(list, history, cutoff, dropped)
    requires ListMoves(list, list', call, src) && HistoryMoves(history, history', call, src)
    requires dropped' == (dropped || DropsNow(history, call, src, cutoff))
    ensures Matches(list', history', cutoff, dropped')
  {
    if call.src == src {
      if call.Record? {
        RecordKeepsMatch(list, history, Sample(call.now, call.port), cutoff, dropped);
      } else {
        PruneKeepsMatch(list, history, CutoffOf(call), cutoff, dropped);
      }
    }
  }

  lemma {:induction false} PrunedMatches(calls: seq<Call>, k: nat, src: string, cutoff: real)
    requires k <= |calls|
    ensures Matches(ListFor(ListsAfter(calls, k), src), History(calls, k, src), cutoff, Dropped(calls, k, src, cutoff))
  {
    if k > 0 {
      PrunedMatches(calls, k - 1, src, cutoff);
      ApplyFor(ListsAfter(calls, k - 1), calls[k - 1], src);
      HistoryGrows(calls, k, src);
      DroppedStep(calls, k, src, cutoff);
      CallKeepsMatch(ListFor(ListsAfter(calls, k - 1), src), ListFor(ListsAfter(calls, k), src),
                     History(calls, k - 1, src), History(calls, k, src), calls[k - 1], src, cutoff,
                     Dropped(calls, k - 1, src, cutoff), Dropped(calls, k, src, cutoff));
    }
  }

  /** From any cutoff on, a source's pruned list is its full history if and only if no earlier query
      of that source dropped a recorded sample lying in [cutoff, that query's cutoff). */
  lemma PrunedAgrees(calls: seq<Call>, k: nat, src: string, cutoff: real)
    requires k <= |calls|
    ensures Since(ListFor(ListsAfter(calls, k), src), cutoff) == Since(History(calls, k, src), cutoff)
       <==> !Dropped(calls, k, src, cutoff)
  {
    PrunedMatches(calls, k, src, cutoff);
  }

  // ---- what a query answers ---------------------------------------------------------------------

  /** Sample `i` of `src` has outlived every query of `src` before call `k`. */
  predicate Survives(calls: seq<Call>, i: nat, k: nat, src: string, at: real)
    requires k <= |calls|
  {
    forall j :: i < j < k ==> !Prunes(calls, j, src, at)
  }

  ghost predicate Survived(calls: seq<Call>, k: nat, src: string, s: Sample)
    requires k <= |calls|
  {
    exists i :: 0 <= i < k && Recorded(calls, i, src, s) && Survives(calls, i, k, src, s.at)
  }

  lemma SurvivorsStep(calls: seq<Call>, k: nat, src: string, s: Sample)
    requires 0 < k <= |calls|
    ensures Survived(calls, k, src, s) <==>
      Recorded(calls, k - 1, src, s) || (!Prunes(calls, k - 1, src, s.at) && Survived(calls, k - 1, src, s))
  {
    if Survived(calls, k - 1, src, s) && !Prunes(calls, k - 1, src, s.at) {
      var i :| 0 <= i < k - 1 && Recorded(calls, i, src, s) && Survives(calls, i, k - 1, src, s.at);
      assert Survives(calls, i, k, src, s.at);
    }
    if Survived(calls, k, src, s) && !Recorded(calls, k - 1, src, s) {
      var i :| 0 <= i < k && Recorded(calls, i, src, s) && Survives(calls, i, k, src, s.at);
      assert Survives(calls, i, k - 1, src, s.at);
    }
    if Recorded(calls, k - 1, src, s) { assert Survives(calls, k - 1, k, src, s.at); }
  }

  lemma MoveHolds(list: seq<Sample>, list': seq<Sample>, call: Call, src: string, s: Sample)
    requires ListMoves(list, list', call, src)
    ensures s in list' <==> call == Record(src, s.port, s.at)
                            || (s in list && !(call.Query? && call.src == src && s.at < CutoffOf(call)))
  {
    if call.src == src && call.Query? { SinceHolds(list, CutoffOf(call), s); }
  }

  /** The pruned list holds exactly the recorded samples that survived. */
  lemma {:induction false} ListHolds(calls: seq<Call>, k: nat, src: string, s: Sample)
    requires k <= |calls|
    ensures s in ListFor(ListsAfter(calls, k), src) <==> Survived(calls, k, src, s)
  {
    if k > 0 {
      ListHolds(calls, k - 1, src, s);
      ApplyFor(ListsAfter(calls, k - 1), calls[k - 1], src);
      MoveHolds(ListFor(ListsAfter(calls, k - 1), src), ListFor(ListsAfter(calls, k), src), calls[k - 1], src, s);
      SurvivorsStep(calls, k, src, s);
    }
  }

  lemma PortsHold(events: seq<Sample>, cutoff: real, port: int)
    ensures port in PortsSince(events, cutoff) <==> exists s :: s in events && s.at >= cutoff && s.port == port
  {
    if s :| s in events && s.at >= cutoff && s.port == port {
      var i :| 0 <= i < |events| && events[i] == s;
    }
  }

  /** The answer to the query at call `k`, and what the full history would answer. */
  function Answer(calls: seq<Call>, k: nat): set<int>
    requires k < |calls| && calls[k].Query?
  {
    PortsSince(ListFor(ListsAfter(calls, k + 1), calls[k].src), CutoffOf(calls[k]))
  }

  function FullAnswer(calls: seq<Call>, k: nat): set<int>
    requires k < |calls| && calls[k].Query?
  {
    PortsSince(History(calls, k, calls[k].src), CutoffOf(calls[k]))
  }

  lemma AnswerBeforePruning(calls: seq<Call>, k: nat)
    requires k < |calls| && calls[k].Query?
    ensures Answer(calls, k) == PortsSince(ListFor(ListsAfter(calls, k), calls[k].src), CutoffOf(calls[k]))
  {
    ApplyFor(ListsAfter(calls, k), calls[k], calls[k].src);
    PortsOfSince(ListFor(ListsAfter(calls, k), calls[k].src), CutoffOf(calls[k]));
  }

  /** Sample `s` of the queried source, recorded at call `i`, is inside the window. */
  predicate InWindow(calls: seq<Call>, k: nat, i: nat, s: Sample)
    requires i < |calls| && k < |calls| && calls[k].Query?
  {
    i < k && Recorded(calls, i, calls[k].src, s) && s.at >= CutoffOf(calls[k])
  }

  /** Some sample inside the window names `port`; and one does that no earlier query pruned. */
  ghost predicate Named(calls: seq<Call>, k: nat, port: int)
    requires k < |calls| && calls[k].Query?
  {
    exists i, s :: 0 <= i < k && InWindow(calls, k, i, s) && s.port == port
  }

  ghost predicate NamedBySurvivor(calls: seq<Call>, k: nat, port: int)
    requires k < |calls| && calls[k].Query?
  {
    exists i, s :: 0 <= i < k && InWindow(calls, k, i, s) && s.port == port && Survives(calls, i, k, calls[k].src, s.at)
  }

  /** A query answers with exactly the ports that a surviving sample inside the window names. */
  lemma AnswerIs(calls: seq<Call>, k: nat, port: int)
    requires k < |calls| && calls[k].Query?
    ensures port in Answer(calls, k) <==> NamedBySurvivor(calls, k, port)
  {
    var src, cutoff := calls[k].src, CutoffOf(calls[k]);
    var list := ListFor(ListsAfter(calls, k), src);
    AnswerBeforePruning(calls, k);
    PortsHold(list, cutoff, port);
    if port in Answer(calls, k) {
      var s :| s in list && s.at >= cutoff && s.port == port;
      ListHolds(calls, k, src, s);
      var i :| 0 <= i < k && Recorded(calls, i, src, s) && Survives(calls, i, k, src, s.at);
      assert InWindow(calls, k, i, s);
    }
    if NamedBySurvivor(calls, k, port) {
      var i, s :| 0 <= i < k && InWindow(calls, k, i, s) && s.port == port && Survives(calls, i, k, src, s.at);
      ListHolds(calls, k, src, s);
    }
  }

  lemma FullAnswerIs(calls: seq<Call>, k: nat, port: int)
    requires k < |calls| && calls[k].Query?
    ensures port in FullAnswer(calls, k) <==> Named(calls, k, port)
  {
    var src, cutoff := calls[k].src, CutoffOf(calls[k]);
    PortsHold(History(calls, k, src), cutoff, port);
    if port in FullAnswer(calls, k) {
      var s :| s in History(calls, k, src) && s.at >= cutoff && s.port == port;
      HistoryHolds(calls, k, src, s);
      var i :| 0 <= i < k && Recorded(calls, i, src, s);
      assert InWindow(calls, k, i, s);
    }
    if Named(calls, k, port) {
      var i, s :| 0 <= i < k && InWindow(calls, k, i, s) && s.port == port;
      HistoryHolds(calls, k, src, s);
    }
  }

  /** A query answers exactly as the full unpruned history would if and only if every port recorded
      inside the window is named by a sample there that no earlier query of the source pruned. */
  lemma QueryExactIff(calls: seq<Call>, k: nat)
    requires k < |calls| && calls[k].Query?
    ensures Answer(calls, k) == FullAnswer(calls, k) <==>
      forall port :: Named(calls, k, port) ==> NamedBySurvivor(calls, k, port)
  {
    forall port
      ensures port in Answer(calls, k) <==> NamedBySurvivor(calls, k, port)
      ensures port in FullAnswer(calls, k) <==> Named(calls, k, port)
    {
      AnswerIs(calls, k, port);
      FullAnswerIs(calls, k, port);
    }
    forall port | NamedBySurvivor(calls, k, port) ensures Named(calls, k, port) {}
    if forall port :: Named(calls, k, port) ==> NamedBySurvivor(calls, k, port) {
      assert Answer(calls, k) == FullAnswer(calls, k);
    }
  }

  /** In particular, over any interleaving of records and queries for many sources, a query is exact
      when no earlier query of the same source had a later cutoff. */
  lemma QueryIsExact(calls: seq<Call>, k: nat)
    requires k < |calls| && calls[k].Query? && NoLaterCutoff(calls, k, calls[k].src, CutoffOf(calls[k]))
    ensures Answer(calls, k) == FullAnswer(calls, k)
  {
    var src, cutoff := calls[k].src, CutoffOf(calls[k]);
    AnswerBeforePruning(calls, k);
    PrunedAgrees(calls, k, src, cutoff);
    PortsOfSince(ListFor(ListsAfter(calls, k), src), cutoff);
    PortsOfSince(History(calls, k, src), cutoff);
  }

  /** So with the one configured window and time going forward every query is exact. */
  lemma QueriesAreExact(calls: seq<Call>, windowSec: real, k: nat)
    requires TimeOrdered(calls) && OneWindow(calls, windowSec) && k < |calls| && calls[k].Query?
    ensures Answer(calls, k) == FullAnswer(calls, k)
  {
    forall j | 0 <= j < k && calls[j].Query? && calls[j].src == calls[k].src
      ensures CutoffOf(calls[j]) <= CutoffOf(calls[k])
    {
      assert calls[j].now <= calls[k].now;
    }
    QueryIsExact(calls, k);
  }

  /** The condition can fail: for every source, port and window, a query with a shorter window in
      between makes the longer one miss a port recorded inside it. */
  lemma LongerWindowMisses(src: string, port: int, at: real, now: real, short: real, long: real)
    requires now - long <= at < now - short
    ensures var calls := [Record(src, port, at), Query(src, short, now), Query(src, long, now)];
      port in FullAnswer(calls, 2) && port !in Answer(calls, 2)
  {
    var calls := [Record(src, port, at), Query(src, short, now), Query(src, long, now)];
    var s := Sample(at, port);
    AnswerIs(calls, 2, port);
    FullAnswerIs(calls, 2, port);
    assert Recorded(calls, 0, src, s) && InWindow(calls, 2, 0, s);
    assert Prunes(calls, 1, src, at);
  }
}
