/** The recent events of one JSONL file, and the merge of several files from their bytes. */
module EventsRecent {
  import opened Utf8
  import opened EventsTail
  import opened EventsMerge
  import opened Sorting

  const TAIL_RECENT_BYTES := 256 * 1024

  /** What a line holds; parsing itself is a parameter. */
  datatype Parsed = NotJson | NotObject | Object(event: Event)

  type Parser = string -> Parsed

  /** The events of some lines, oldest line first. */
  function EventsOf(lines: seq<string>, parse: Parser): seq<Event> {
    if lines == [] then []
    else
      var n := |lines| - 1;
      match parse(lines[n])
      case Object(e) => EventsOf(lines[..n], parse) + [e]
      case _ => EventsOf(lines[..n], parse)
  }

  /** The loop over the lines from the last one back, when it has `have` events already. Its limit is
      only looked at after a line of JSON. */
  function Recent(lines: seq<string>, parse: Parser, have: nat, limit: int): seq<Event> {
    if lines == [] then []
    else
      var n := |lines| - 1;
      match parse(lines[n])
      case NotJson => Recent(lines[..n], parse, have, limit)
      case NotObject => if have >= limit then [] else Recent(lines[..n], parse, have, limit)
      case Object(e) => if have + 1 >= limit then [e] else [e] + Recent(lines[..n], parse, have + 1, limit)
  }

  /** What the loop returns from its state before line `n - 1`. */
  function Resumed(recent: seq<Event>, lines: seq<string>, n: nat, parse: Parser, limit: int): seq<Event>
    requires n <= |lines|
  {
    recent + Recent(lines[..n], parse, |recent|, limit)
  }

  method ScanRecent(lines: seq<string>, parse: Parser, limit: int) returns (recent: seq<Event>)
    ensures recent == Recent(lines, parse, 0, limit)
  {
    recent := [];
    var n := |lines|;
    assert lines[..n] == lines;
    while n > 0
      invariant 0 <= n <= |lines|
      invariant Resumed(recent, lines, n, parse, limit) == Recent(lines, parse, 0, limit)
    {
      RecentStep(recent, lines, n, parse, limit);
      n := n - 1;
      var parsed := parse(lines[n]);
      if parsed.NotJson? { continue; }
      if parsed.Object? { recent := recent + [parsed.event]; }
      if |recent| >= limit { return; }
    }
  }

  lemma RecentStep(recent: seq<Event>, lines: seq<string>, n: nat, parse: Parser, limit: int)
    requires 0 < n <= |lines|
    ensures Resumed(recent, lines, n, parse, limit) ==
      match parse(lines[n - 1])
      case NotJson => Resumed(recent, lines, n - 1, parse, limit)
      case NotObject => if |recent| >= limit then recent else Resumed(recent, lines, n - 1, parse, limit)
      case Object(e) =>
        if |recent| + 1 >= limit then recent + [e] else Resumed(recent + [e], lines, n - 1, parse, limit)
  {
    assert lines[..n][..n - 1] == lines[..n - 1];
  }

  /** `got` holds the last `room` events of `all`, or all if fewer, from the last one back. */
  predicate LastOf(got: seq<Event>, all: seq<Event>, room: int) {
    |got| == (if |all| <= room then |all| else room) && forall i :: 0 <= i < |got| ==> got[i] == all[|all| - 1 - i]
  }

  lemma LastOneMore(e: Event, got: seq<Event>, all: seq<Event>, room: int)
    requires LastOf(got, all, room) && room >= 0
    ensures LastOf([e] + got, all + [e], room + 1)
  {}

  /** With a positive limit the loop reads the last events of the lines, that many at most. */
  lemma {:induction false} RecentIs(lines: seq<string>, parse: Parser, have: nat, limit: int)
    requires have < limit
    ensures LastOf(Recent(lines, parse, have, limit), EventsOf(lines, parse), limit - have)
  {
    if lines != [] {
      var front, last := lines[..|lines| - 1], parse(lines[|lines| - 1]);
      if last.Object? {
        if have + 1 < limit {
          RecentIs(front, parse, have + 1, limit);
          LastOneMore(last.event, Recent(front, parse, have + 1, limit), EventsOf(front, parse), limit - have - 1);
        }
      } else {
        RecentIs(front, parse, have, limit);
      }
    }
  }

  // ---- several files --------------------------------------------------------------------------------

  /** How many events of each file take part in a merge. */
  function PerFile(limit: int): int {
    var raised := if limit * 3 >= limit then limit * 3 else limit;
    if raised <= 200 then raised else 200
  }

  function RecentOf(file: seq<Byte>, parse: Parser, limit: int): seq<Event> {
    Recent(ReadTail(file, TAIL_RECENT_BYTES), parse, 0, limit)
  }

  function RecentLists(files: seq<seq<Byte>>, parse: Parser, limit: int): (lists: seq<seq<Event>>)
    ensures |lists| == |files|
  {
    seq(|files|, f requires 0 <= f < |files| => RecentOf(files[f], parse, limit))
  }

  /** read_merged_jsonl_tail, from the files' bytes. */
  function Merged(files: seq<seq<Byte>>, parse: Parser, limit: int): seq<Event> {
    Kept(Newest(RecentLists(files, parse, PerFile(limit))), {}, if limit <= 0 then 0 else limit)
  }

  lemma MergedIs(files: seq<seq<Byte>>, parse: Parser, limit: nat)
    requires limit > 0
    ensures Merged(files, parse, limit) == Kept(Newest(RecentLists(files, parse, PerFile(limit))), {}, limit)
  {}

  lemma ListAt(files: seq<seq<Byte>>, parse: Parser, limit: int, f: nat)
    requires f < |files|
    ensures RecentLists(files, parse, limit)[f] == RecentOf(files[f], parse, limit)
  {}

  method ReadMergedFiles(files: seq<seq<Byte>>, parse: Parser, limit: int) returns (out: seq<Event>)
    ensures out == Merged(files, parse, limit)
  {
    if limit <= 0 { return []; }
    var perFile := PerFile(limit);
    var lists: seq<seq<Event>> := [];
    for f := 0 to |files|
      invariant lists == RecentLists(files, parse, perFile)[..f]
    {
      var recent := ScanRecent(ReadTail(files[f], TAIL_RECENT_BYTES), parse, perFile);
      lists := lists + [recent];
      ListAt(files, parse, perFile, f);
    }
    assert lists == RecentLists(files, parse, perFile);
    out := ReadMergedTail(lists, limit);
  }

  lemma RecentOfLines(file: seq<Byte>, lines: seq<string>, parse: Parser, limit: int)
    requires ReadTail(file, TAIL_RECENT_BYTES) == lines && limit > 0
    ensures LastOf(RecentOf(file, parse, limit), EventsOf(lines, parse), limit)
  {
    RecentIs(lines, parse, 0, limit);
  }

  /** Event `i` from the end is among the 200, or three times `limit`, that a merge reads. */
  predicate Recently(i: nat, limit: int) {
    i < 200 && i < 3 * limit
  }

  lemma LastIsAccounted(perFile: seq<seq<Event>>, limit: nat, f: nat, all: seq<Event>, room: int, i: nat)
    requires f < |perFile| && LastOf(perFile[f], all, room) && i < room && i < |all|
    ensures var out, e := Kept(Newest(perFile), {}, limit), all[|all| - 1 - i]; e in out || Excused(e, out, limit)
  {
    EveryEventAccounted(perFile, limit, f, perFile[f][i]);
  }

  lemma ShownFromList(files: seq<seq<Byte>>, parse: Parser, limit: nat, f: nat, all: seq<Event>, i: nat)
    requires 0 < limit && f < |files| && i < PerFile(limit) && i < |all|
    requires LastOf(RecentLists(files, parse, PerFile(limit))[f], all, PerFile(limit))
    ensures var out, e := Merged(files, parse, limit), all[|all| - 1 - i]; e in out || Excused(e, out, limit)
  {
    LastIsAccounted(RecentLists(files, parse, PerFile(limit)), limit, f, all, PerFile(limit), i);
    MergedIs(files, parse, limit);
  }

  /** Of every file each of the last 200, or three times `limit`, events of its last 256 KiB is shown, or
      has a nonblank id that is shown with an event no older, or `limit` events no older are shown. */
  lemma RecentIsShown(files: seq<seq<Byte>>, parse: Parser, limit: nat, f: nat, i: nat)
    requires f < |files| && Recently(i, limit) && i < |EventsOf(ReadTail(files[f], 262144), parse)|
    ensures var all, out := EventsOf(ReadTail(files[f], 262144), parse), Merged(files, parse, limit);
      all[|all| - 1 - i] in out || Excused(all[|all| - 1 - i], out, limit)
  {
    RecentOfLines(files[f], ReadTail(files[f], TAIL_RECENT_BYTES), parse, PerFile(limit));
    ListAt(files, parse, PerFile(limit), f);
    ShownFromList(files, parse, limit, f, EventsOf(ReadTail(files[f], TAIL_RECENT_BYTES), parse), i);
  }

  lemma {:induction false} FromCombined(perFile: seq<seq<Event>>, e: Event) returns (f: nat)
    requires e in Combined(perFile)
    ensures f < |perFile| && e in perFile[f]
  {
    f := |perFile| - 1;
    if e !in perFile[f] { f := FromCombined(perFile[..f], e); }
  }

  lemma RecentComesFrom(file: seq<Byte>, parse: Parser, limit: int, e: Event) returns (i: nat)
    requires limit > 0 && e in RecentOf(file, parse, limit)
    ensures i < limit
    ensures var all := EventsOf(ReadTail(file, TAIL_RECENT_BYTES), parse); i < |all| && all[|all| - 1 - i] == e
  {
    var got := RecentOf(file, parse, limit);
    RecentOfLines(file, ReadTail(file, TAIL_RECENT_BYTES), parse, limit);
    i :| 0 <= i < |got| && got[i] == e;
  }

  lemma ShownIsCandidate(perFile: seq<seq<Event>>, limit: nat, e: Event)
    requires e in Kept(Newest(perFile), {}, limit)
    ensures e in Combined(perFile)
  {
    KeptAreCandidates(Newest(perFile), {}, limit);
    SameElements(Combined(perFile), NotOlder);
  }

  lemma ShownIsListed(files: seq<seq<Byte>>, parse: Parser, limit: nat, e: Event) returns (f: nat)
    requires limit > 0 && e in Merged(files, parse, limit)
    ensures f < |files| && e in RecentLists(files, parse, PerFile(limit))[f]
  {
    var lists := RecentLists(files, parse, PerFile(limit));
    MergedIs(files, parse, limit);
    ShownIsCandidate(lists, limit, e);
    f := FromCombined(lists, e);
  }

  lemma PerFileIs(limit: nat, i: nat)
    requires limit > 0
    ensures i < PerFile(limit) <==> Recently(i, limit)
  {}

  /** And nothing else is shown: every event comes from some file's last ones. */
  lemma ShownWasWritten(files: seq<seq<Byte>>, parse: Parser, limit: nat, e: Event) returns (f: nat, i: nat)
    requires limit > 0 && e in Merged(files, parse, limit)
    ensures f < |files| && Recently(i, limit)
    ensures var all := EventsOf(ReadTail(files[f], 262144), parse); i < |all| && all[|all| - 1 - i] == e
  {
    f := ShownIsListed(files, parse, limit, e);
    ListAt(files, parse, PerFile(limit), f);
    PerFileIs(limit, 0);
    i := RecentComesFrom(files[f], parse, PerFile(limit), e);
    PerFileIs(limit, i);
  }
}
