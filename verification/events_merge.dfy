/** Merging the recent events of several JSONL files: newest first, one per event id, at most `limit`. */
module EventsMerge {
  import opened Common
  import opened Sorting

  /** A parsed event: its id, stripped and "" when absent; its timestamp when one parses; the rest. */
  datatype Event = Event(id: string, timestamp: Option<real>, content: string)

  function Time(e: Event): real {
    if e.timestamp.Some? then e.timestamp.value else 0.0
  }

  predicate NotOlder(a: Event, b: Event) {
    Time(a) >= Time(b)
  }

  function Combined(perFile: seq<seq<Event>>): seq<Event> {
    if perFile == [] then [] else Combined(perFile[..|perFile| - 1]) + perFile[|perFile| - 1]
  }

  predicate Repeats(e: Event, seen: set<string>) {
    e.id != "" && e.id in seen
  }

  function Remember(e: Event, seen: set<string>): set<string> {
    if e.id == "" then seen else seen + {e.id}
  }

  /** The events the loop keeps and those it leaves out, when it may still keep `room`. */
  function Kept(events: seq<Event>, seen: set<string>, room: nat): (kept: seq<Event>)
    ensures |kept| <= room
  {
    if events == [] || room == 0 then []
    else if Repeats(events[0], seen) then Kept(events[1..], seen, room)
    else [events[0]] + Kept(events[1..], Remember(events[0], seen), room - 1)
  }

  function Omitted(events: seq<Event>, seen: set<string>, room: nat): seq<Event> {
    if events == [] || room == 0 then events
    else if Repeats(events[0], seen) then [events[0]] + Omitted(events[1..], seen, room)
    else Omitted(events[1..], Remember(events[0], seen), room - 1)
  }

  function Newest(perFile: seq<seq<Event>>): seq<Event> {
    SortBy(Combined(perFile), NotOlder)
  }

  method Combine(perFile: seq<seq<Event>>) returns (combined: seq<Event>)
    ensures combined == Combined(perFile)
  {
    combined := [];
    for i := 0 to |perFile|
      invariant combined == Combined(perFile[..i])
    {
      combined := combined + perFile[i];
      assert perFile[..i + 1][..i] == perFile[..i];
    }
    assert perFile[..|perFile|] == perFile;
  }

  /** What remains to be kept from position `k` on, in terms of position `k + 1`. */
  lemma KeptFrom(out: seq<Event>, events: seq<Event>, k: nat, seen: set<string>, room: nat)
    requires k < |events| && room > 0
    ensures out + Kept(events[k..], seen, room) ==
      if Repeats(events[k], seen) then out + Kept(events[k + 1..], seen, room)
      else out + [events[k]] + Kept(events[k + 1..], Remember(events[k], seen), room - 1)
  {
    assert events[k..][1..] == events[k + 1..];
  }

  method ReadMergedTail(perFile: seq<seq<Event>>, limit: int) returns (out: seq<Event>)
    ensures out == Kept(Newest(perFile), {}, if limit <= 0 then 0 else limit)
  {
    if limit <= 0 { return []; }
    var combined := Combine(perFile);
    combined := SortBy(combined, NotOlder);
    out := PickFresh(combined, limit);
  }

  method PickFresh(combined: seq<Event>, limit: nat) returns (out: seq<Event>)
    ensures out == Kept(combined, {}, limit)
  {
    var seen: set<string> := {};
    out := [];
    assert combined[0..] == combined;
    var k := 0;
    while k < |combined| && |out| < limit
      invariant 0 <= k <= |combined| && |out| <= limit
      invariant out + Kept(combined[k..], seen, limit - |out|) == Kept(combined, {}, limit)
    {
      var e := combined[k];
      KeptFrom(out, combined, k, seen, limit - |out|);
      if !Repeats(e, seen) {
        seen := Remember(e, seen);
        out := out + [e];
      }
      k := k + 1;
    }
  }

  // ---- what a merge is for ------------------------------------------------------------------

  lemma NotOlderOrders()
    ensures TotalPreorder(NotOlder)
  {
  }

  lemma GoesOneWay(e: Event, rest: seq<Event>, one: seq<Event>, other: seq<Event>)
    requires multiset(one) + multiset(other) == multiset(rest)
    ensures multiset([e] + one) + multiset(other) == multiset([e] + rest)
  {}

  /** How the kept and the omitted part of a list grow from those of its tail. */
  lemma RepeatedFirst(e: Event, rest: seq<Event>, seen: set<string>, room: nat)
    requires room > 0 && Repeats(e, seen)
    ensures Kept([e] + rest, seen, room) == Kept(rest, seen, room)
    ensures Omitted([e] + rest, seen, room) == [e] + Omitted(rest, seen, room)
  {
    assert ([e] + rest)[1..] == rest;
  }

  lemma FreshFirst(e: Event, rest: seq<Event>, seen: set<string>, room: nat)
    requires room > 0 && !Repeats(e, seen)
    ensures Kept([e] + rest, seen, room) == [e] + Kept(rest, Remember(e, seen), room - 1)
    ensures Omitted([e] + rest, seen, room) == Omitted(rest, Remember(e, seen), room - 1)
  {
    assert ([e] + rest)[1..] == rest;
  }

  /** `one` and `other` share out the events of `all`. */
  ghost predicate Shares(one: seq<Event>, other: seq<Event>, all: seq<Event>) {
    multiset(one) + multiset(other) == multiset(all)
  }

  lemma {:induction false} SharedOut(events: seq<Event>, seen: set<string>, room: nat)
    ensures Shares(Kept(events, seen, room), Omitted(events, seen, room), events)
  {
    if events != [] && room > 0 {
      var e, rest := events[0], events[1..];
      assert events == [e] + rest;
      if Repeats(e, seen) {
        SharedOut(rest, seen, room);
        RepeatedFirst(e, rest, seen, room);
        GoesOneWay(e, rest, Omitted(rest, seen, room), Kept(rest, seen, room));
      } else {
        var seen' := Remember(e, seen);
        SharedOut(rest, seen', room - 1);
        FreshFirst(e, rest, seen, room);
        GoesOneWay(e, rest, Kept(rest, seen', room - 1), Omitted(rest, seen', room - 1));
      }
    }
  }

  lemma Conserved(events: seq<Event>, seen: set<string>, room: nat)
    ensures multiset(Kept(events, seen, room)) + multiset(Omitted(events, seen, room)) == multiset(events)
    ensures |Kept(events, seen, room)| <= room
  {
    SharedOut(events, seen, room);
  }

  lemma {:induction false} KeptAreCandidates(events: seq<Event>, seen: set<string>, room: nat)
    ensures forall e :: e in Kept(events, seen, room) ==> e in events && !Repeats(e, seen)
  {
    if events != [] && room > 0 {
      if Repeats(events[0], seen) {
        KeptAreCandidates(events[1..], seen, room);
      } else {
        KeptAreCandidates(events[1..], Remember(events[0], seen), room - 1);
      }
    }
  }

  /** No two of them share an id that is not blank. */
  ghost predicate DistinctIds(events: seq<Event>) {
    forall i, j :: 0 <= i < j < |events| && events[i].id != "" ==> events[i].id != events[j].id
  }

  lemma {:induction false} KeptInOrder(events: seq<Event>, seen: set<string>, room: nat)
    requires Sorted(events, NotOlder)
    ensures Sorted(Kept(events, seen, room), NotOlder) && DistinctIds(Kept(events, seen, room))
  {
    if events != [] && room > 0 {
      var e, rest := events[0], events[1..];
      if Repeats(e, seen) {
        KeptInOrder(rest, seen, room);
      } else {
        KeptInOrder(rest, Remember(e, seen), room - 1);
        KeptAreCandidates(rest, Remember(e, seen), room - 1);
        var tail := Kept(rest, Remember(e, seen), room - 1);
        forall x | x in tail ensures NotOlder(e, x) && (e.id != "" ==> e.id != x.id) {
          var i :| 0 <= i < |rest| && rest[i] == x;
          assert events[0] == e && events[i + 1] == x;
        }
      }
    }
  }

  /** `e` repeats the id of an event that is kept and no older, or of one already seen. */
  ghost predicate Superseded(e: Event, kept: seq<Event>, seen: set<string>) {
    e.id != "" && (e.id in seen || exists k :: k in kept && k.id == e.id && NotOlder(k, e))
  }

  ghost predicate NoNewerThanAny(e: Event, kept: seq<Event>) {
    forall k :: k in kept ==> NotOlder(k, e)
  }

  lemma OmittedInRest(events: seq<Event>, seen: set<string>, room: nat, o: Event)
    requires Sorted(events, NotOlder) && events != [] && o in Omitted(events[1..], seen, room)
    ensures NotOlder(events[0], o)
  {
    Conserved(events[1..], seen, room);
    assert o in multiset(events[1..]);
    var i :| 0 <= i < |events[1..]| && events[1..][i] == o;
    assert events[i + 1] == o;
  }

  /** A reason to omit `o` is still one when `e`, no older than `o`, is kept first. */
  lemma KeptOneMore(e: Event, kept: seq<Event>, seen: set<string>, room: nat, o: Event)
    requires room > 0 && NotOlder(e, o)
    requires Superseded(o, kept, Remember(e, seen)) || (|kept| == room - 1 && NoNewerThanAny(o, kept))
    ensures Superseded(o, [e] + kept, seen) || (|[e] + kept| == room && NoNewerThanAny(o, [e] + kept))
  {
    assert e in [e] + kept;
    if Superseded(o, kept, Remember(e, seen)) && o.id !in Remember(e, seen) {
      var k :| k in kept && k.id == o.id && NotOlder(k, o);
      assert k in [e] + kept;
    }
  }

  lemma {:induction false} OmittedForAReason(events: seq<Event>, seen: set<string>, room: nat, o: Event)
    requires Sorted(events, NotOlder) && o in Omitted(events, seen, room)
    ensures var kept := Kept(events, seen, room);
      Superseded(o, kept, seen) || (|kept| == room && NoNewerThanAny(o, kept))
  {
    if events != [] && room > 0 {
      var e, rest := events[0], events[1..];
      if !Repeats(e, seen) {
        var seen' := Remember(e, seen);
        OmittedForAReason(rest, seen', room - 1, o);
        OmittedInRest(events, seen', room - 1, o);
        KeptOneMore(e, Kept(rest, seen', room - 1), seen, room, o);
      } else if o != e {
        OmittedForAReason(rest, seen, room, o);
      }
    }
  }

  /** For any candidate lists: at most `limit` events, newest first, no nonblank id twice; kept and
      omitted events together are exactly the candidates, and an omitted one either repeats the id
      of a kept event that is no older, or the merge is full and nothing it kept is older. */
  lemma MergeIsRight(perFile: seq<seq<Event>>, limit: nat)
    ensures var out, left := Kept(Newest(perFile), {}, limit), Omitted(Newest(perFile), {}, limit);
      && |out| <= limit && Sorted(out, NotOlder) && DistinctIds(out)
      && multiset(out) + multiset(left) == multiset(Combined(perFile))
      && forall o :: o in left ==> Superseded(o, out, {}) || (|out| == limit && NoNewerThanAny(o, out))
  {
    var events := Newest(perFile);
    NotOlderOrders();
    SortIsSorted(Combined(perFile), NotOlder);
    Conserved(events, {}, limit);
    KeptInOrder(events, {}, limit);
    forall o | o in Omitted(events, {}, limit)
      ensures var kept := Kept(events, {}, limit);
        Superseded(o, kept, {}) || (|kept| == limit && NoNewerThanAny(o, kept))
    {
      OmittedForAReason(events, {}, limit, o);
    }
  }

  // ---- on the files themselves ----------------------------------------------------------------

  /** All events of all files. */
  function AllOf(perFile: seq<seq<Event>>): multiset<Event> {
    if perFile == [] then multiset{} else multiset(perFile[0]) + AllOf(perFile[1..])
  }

  lemma {:induction false} AllOfLast(perFile: seq<seq<Event>>, file: seq<Event>)
    ensures AllOf(perFile + [file]) == AllOf(perFile) + multiset(file)
  {
    if perFile == [] {
      assert [] + [file] == [file] && [file][1..] == [];
    } else {
      assert (perFile + [file])[1..] == perFile[1..] + [file];
      AllOfLast(perFile[1..], file);
    }
  }

  lemma {:induction false} CombinedIsAll(perFile: seq<seq<Event>>)
    ensures multiset(Combined(perFile)) == AllOf(perFile)
  {
    if perFile != [] {
      var n := |perFile| - 1;
      CombinedIsAll(perFile[..n]);
      AllOfLast(perFile[..n], perFile[n]);
      assert perFile == perFile[..n] + [perFile[n]];
    }
  }

  /** The candidates are the files' events, file after file. */
  lemma {:induction false} CombinedAt(perFile: seq<seq<Event>>, f: nat, i: nat)
    requires f < |perFile| && i < |perFile[f]|
    ensures var before := |Combined(perFile[..f])|;
      before + i < |Combined(perFile)| && Combined(perFile)[before + i] == perFile[f][i]
    decreases |perFile|
  {
    var n := |perFile| - 1;
    if f < n {
      CombinedAt(perFile[..n], f, i);
      assert perFile[..n][..f] == perFile[..f];
    }
  }

  /** Events of one time stay in the order of the files, and of the list read from each. */
  lemma TiesInFileOrder(perFile: seq<seq<Event>>, e: Event)
    ensures Tied(Newest(perFile), e, NotOlder) == Tied(Combined(perFile), e, NotOlder)
  {
    NotOlderOrders();
    SortIsStable(Combined(perFile), e, NotOlder);
  }

  lemma {:induction false} InAllOf(perFile: seq<seq<Event>>, f: nat, e: Event)
    requires f < |perFile| && e in perFile[f]
    ensures e in AllOf(perFile)
  {
    if f > 0 { InAllOf(perFile[1..], f - 1, e); }
  }

  /** An event's time: its timestamp if one parses, else the epoch. */
  function When(e: Event): real {
    match e.timestamp case Some(t) => t case None => 0.0
  }

  /** Why `e` may be missing: a kept event, no older, has its id, or the merge is full of such events. */
  ghost predicate Excused(e: Event, out: seq<Event>, limit: nat) {
    || (e.id != "" && exists k :: k in out && k.id == e.id && When(k) >= When(e))
    || (|out| == limit && forall k :: k in out ==> When(k) >= When(e))
  }

  lemma OmittedIsExcused(o: Event, out: seq<Event>, limit: nat)
    requires Superseded(o, out, {}) || (|out| == limit && NoNewerThanAny(o, out))
    ensures Excused(o, out, limit)
  {
    if Superseded(o, out, {}) {
      var k :| k in out && k.id == o.id && NotOlder(k, o);
    } else {
      forall k | k in out ensures When(k) >= When(o) { assert NotOlder(k, o); }
    }
  }

  lemma EveryEventAccounted(perFile: seq<seq<Event>>, limit: nat, f: nat, e: Event)
    requires f < |perFile| && e in perFile[f]
    ensures var out := Kept(Newest(perFile), {}, limit); e in out || Excused(e, out, limit)
  {
    var out, left := Kept(Newest(perFile), {}, limit), Omitted(Newest(perFile), {}, limit);
    MergeIsRight(perFile, limit);
    CombinedIsAll(perFile);
    InAllOf(perFile, f, e);
    assert e in multiset(out) + multiset(left);
    if e in left { OmittedIsExcused(e, out, limit); }
  }

  lemma NewestFirst(perFile: seq<seq<Event>>, limit: nat)
    ensures var out := Kept(Newest(perFile), {}, limit);
      forall i, j :: 0 <= i < j < |out| ==> When(out[i]) >= When(out[j])
  {
    var out := Kept(Newest(perFile), {}, limit);
    MergeIsRight(perFile, limit);
    forall i, j | 0 <= i < j < |out| ensures When(out[i]) >= When(out[j]) { assert NotOlder(out[i], out[j]); }
  }

  /** For any files read: what is kept and what is omitted are together all their events; what is kept comes
      newest first; and every event of every file is kept, or has a nonblank id that a kept event no
      older than it has too, or the merge is full of events no older than it. */
  lemma MergeOfFiles(perFile: seq<seq<Event>>, limit: nat)
    ensures var out, left := Kept(Newest(perFile), {}, limit), Omitted(Newest(perFile), {}, limit);
      && |out| <= limit && multiset(out) + multiset(left) == AllOf(perFile)
      && (forall i, j :: 0 <= i < j < |out| ==> When(out[i]) >= When(out[j]))
      && forall i, j :: 0 <= i < j < |out| && out[i].id != "" ==> out[i].id != out[j].id
    ensures forall f, e :: 0 <= f < |perFile| && e in perFile[f] ==>
      e in Kept(Newest(perFile), {}, limit) || Excused(e, Kept(Newest(perFile), {}, limit), limit)
  {
    MergeIsRight(perFile, limit);
    CombinedIsAll(perFile);
    NewestFirst(perFile, limit);
    forall f, e | 0 <= f < |perFile| && e in perFile[f]
      ensures e in Kept(Newest(perFile), {}, limit) || Excused(e, Kept(Newest(perFile), {}, limit), limit)
    {
      EveryEventAccounted(perFile, limit, f, e);
    }
  }
}
