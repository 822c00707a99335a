/** The collector against its specification: direct comprehensions over the packet trace. */
module CollectorSpec {
  import opened Common
  import opened GooseKey
  import opened Collector
  import opened Sorting

  // ---- subjects and who mentions them -------------------------------------------

  datatype Subject =
    | Publisher(mac: string, appid: nat, gocbRef: string)
    | Ied(ip: string)
    | MmsClient(ied: string, ip: string)
    | ModbusServer(ip: string)
    | CommPair(src: string, dst: string)

  /** On a PDU to or from TCP port 102 the end with that port, the destination first, is the IED, and the
      other end its client. */
  predicate MmsServes(p: MmsPdu, ip: string) {
    (p.dstPort == 102 && p.dstIp == ip) || (p.dstPort != 102 && p.srcPort == 102 && p.srcIp == ip)
  }

  function MmsPeer(p: MmsPdu): string {
    if p.dstPort == 102 then p.srcIp else p.dstIp
  }

  /** The same for Modbus and port 502. */
  predicate ModbusServes(f: ModbusFrame, ip: string) {
    (f.dstPort == 502 && f.dstIp == ip) || (f.dstPort != 502 && f.srcPort == 502 && f.srcIp == ip)
  }

  function ModbusPeer(f: ModbusFrame): string {
    if f.dstPort == 502 then f.srcIp else f.dstIp
  }

  predicate Mentions(e: Timed, s: Subject) {
    match s
    case Publisher(mac, appid, gocbRef) =>
      e.feed.Goose? && e.feed.frame.mac == mac && e.feed.frame.appid == appid && e.feed.frame.gocbRef == gocbRef
    case Ied(ip) => e.feed.Mms? && MmsServes(e.feed.pdu, ip)
    case MmsClient(ied, ip) => ip != "" && e.feed.Mms? && MmsServes(e.feed.pdu, ied) && MmsPeer(e.feed.pdu) == ip
    case ModbusServer(ip) =>
      e.feed.Modbus? && ModbusServes(e.feed.request, ip)
    case CommPair(src, dst) => src != "" && dst != "" && e.feed.Endpoints? && e.feed.srcIp == src && e.feed.dstIp == dst
  }

  /** The clock never goes back, and every MAC is plain. */
  predicate GoodTrace(trace: seq<Timed>) {
    && (forall i, j :: 0 <= i < j < |trace| ==> trace[i].at <= trace[j].at)
    && forall i :: 0 <= i < |trace| && trace[i].feed.Goose? ==> PlainMac(trace[i].feed.frame.mac)
  }

  predicate GoodSubject(s: Subject) {
    s.Publisher? ==> PlainMac(s.mac)
  }

  /** `s` is mentioned at or after the cutoff among the first `n` entries. */
  ghost predicate SeenSince(trace: seq<Timed>, n: nat, s: Subject, cutoff: Option<real>)
    requires n <= |trace|
  {
    exists i :: 0 <= i < n && Mentions(trace[i], s) && Fresh(trace[i].at, cutoff)
  }

  // ---- when a subject was last seen ------------------------------------------------

  function SubjectKey(s: Subject): string
    requires s.Publisher?
  {
    Joined(s.mac, s.appid, s.gocbRef)
  }

  function LastSeen(ix: Index, s: Subject): Option<real> {
    match s
    case Publisher(_, _, _) =>
      if SubjectKey(s) in ix.goose then Some(ix.goose[SubjectKey(s)].lastSeen) else None
    case Ied(ip) => if ip in ix.mms then Some(ix.mms[ip].lastSeen) else None
    case MmsClient(ied, ip) =>
      if ied in ix.mms && ip in ix.mms[ied].clients then Some(ix.mms[ied].clients[ip]) else None
    case ModbusServer(ip) => if ip in ix.modbus then Some(ix.modbus[ip].lastSeen) else None
    case CommPair(src, dst) => if (src, dst) in ix.commPairs then Some(ix.commPairs[(src, dst)]) else None
  }

  lemma GooseLastSeen(ix: Index, f: GooseFrame, at: real, s: Subject)
    requires GoodSubject(s) && PlainMac(f.mac)
    ensures var e := Timed(Goose(f), at);
      LastSeen(Absorb(ix, e), s) == if Mentions(e, s) then Some(at) else LastSeen(ix, s)
  {
    if s.Publisher? {
      JoinedInjective(f.mac, f.appid, f.gocbRef, s.mac, s.appid, s.gocbRef);
    }
  }

  lemma MmsLastSeen(ix: Index, p: MmsPdu, at: real, s: Subject)
    ensures var e := Timed(Mms(p), at);
      LastSeen(Absorb(ix, e), s) == if Mentions(e, s) then Some(at) else LastSeen(ix, s)
  {}

  lemma AbsorbLastSeen(ix: Index, e: Timed, s: Subject)
    requires GoodSubject(s) && (e.feed.Goose? ==> PlainMac(e.feed.frame.mac))
    ensures LastSeen(Absorb(ix, e), s) == if Mentions(e, s) then Some(e.at) else LastSeen(ix, s)
  {
    match e.feed
    case Goose(f) => GooseLastSeen(ix, f, e.at, s);
    case Mms(p) => MmsLastSeen(ix, p, e.at, s);
    case Modbus(_) =>
    case Endpoints(_, _, _) =>
  }

  /** The index remembers, for every subject, the time of its latest mention. */
  lemma {:induction false} LastSeenIsLatest(trace: seq<Timed>, n: nat, s: Subject)
    requires n <= |trace| && GoodTrace(trace) && GoodSubject(s)
    ensures var seen := LastSeen(IndexAt(trace, n), s);
      if seen.None? then forall i :: 0 <= i < n ==> !Mentions(trace[i], s)
      else (exists i :: 0 <= i < n && Mentions(trace[i], s) && trace[i].at == seen.value)
           && forall i :: 0 <= i < n && Mentions(trace[i], s) ==> trace[i].at <= seen.value
  {
    if n > 0 {
      LastSeenIsLatest(trace, n - 1, s);
      AbsorbLastSeen(IndexAt(trace, n - 1), trace[n - 1], s);
    }
  }

  /** So freshness in the index is exactly having been mentioned since the cutoff. */
  lemma FreshIffSeen(trace: seq<Timed>, n: nat, s: Subject, cutoff: Option<real>)
    requires n <= |trace| && GoodTrace(trace) && GoodSubject(s)
    ensures var seen := LastSeen(IndexAt(trace, n), s);
      (seen.Some? && Fresh(seen.value, cutoff)) <==> SeenSince(trace, n, s, cutoff)
  {
    LastSeenIsLatest(trace, n, s);
  }

  // ---- windowed outputs --------------------------------------------------------------

  /** Which publishers are reported. */
  lemma PublishersReported(trace: seq<Timed>, n: nat, cutoff: Option<real>, s: Subject)
    requires n <= |trace| && GoodTrace(trace) && s.Publisher? && GoodSubject(s)
    ensures SubjectKey(s) in GooseEntries(IndexAt(trace, n).goose, cutoff) <==> SeenSince(trace, n, s, cutoff)
  {
    FreshIffSeen(trace, n, s, cutoff);
  }

  lemma ClientSeenIedSeen(trace: seq<Timed>, n: nat, cutoff: Option<real>, ied: string, ip: string)
    requires n <= |trace| && SeenSince(trace, n, MmsClient(ied, ip), cutoff)
    ensures SeenSince(trace, n, Ied(ied), cutoff)
  {
    var i :| 0 <= i < n && Mentions(trace[i], MmsClient(ied, ip)) && Fresh(trace[i].at, cutoff);
    assert Mentions(trace[i], Ied(ied));
  }

  /** Which IEDs are reported, with exactly which clients; a fresh client always has a fresh IED. */
  lemma IedsReported(trace: seq<Timed>, n: nat, cutoff: Option<real>, ied: string, ip: string)
    requires n <= |trace| && GoodTrace(trace)
    ensures var reported := MmsEntries(IndexAt(trace, n).mms, cutoff);
      && (ied in reported <==> SeenSince(trace, n, Ied(ied), cutoff))
      && ((ied in reported && ip in reported[ied].clients) <==> SeenSince(trace, n, MmsClient(ied, ip), cutoff))
  {
    FreshIffSeen(trace, n, Ied(ied), cutoff);
    FreshIffSeen(trace, n, MmsClient(ied, ip), cutoff);
    if SeenSince(trace, n, MmsClient(ied, ip), cutoff) {
      ClientSeenIedSeen(trace, n, cutoff, ied, ip);
    }
  }

  /** Which Modbus servers and which communication pairs are reported. */
  lemma ServersAndPairsReported(trace: seq<Timed>, n: nat, cutoff: Option<real>, ip: string, src: string, dst: string)
    requires n <= |trace| && GoodTrace(trace)
    ensures ip in ModbusEntries(IndexAt(trace, n).modbus, cutoff) <==> SeenSince(trace, n, ModbusServer(ip), cutoff)
    ensures src != "" && dst != "" ==>
      ((src, dst) in FreshPairs(IndexAt(trace, n), cutoff) <==> SeenSince(trace, n, CommPair(src, dst), cutoff))
  {
    FreshIffSeen(trace, n, ModbusServer(ip), cutoff);
    FreshIffSeen(trace, n, CommPair(src, dst), cutoff);
  }

  predicate MentionsMac(e: Timed, mac: string) {
    e.feed.Endpoints? && e.feed.srcMac == mac
  }

  predicate MentionsIp(e: Timed, ip: string) {
    e.feed.Endpoints? && (e.feed.srcIp == ip || e.feed.dstIp == ip)
  }

  /** The address sets hold every address ever seen; they have no window. */
  lemma {:induction false} AddressesSeen(trace: seq<Timed>, n: nat, address: string)
    requires n <= |trace| && address != ""
    ensures address in IndexAt(trace, n).macs <==> exists i :: 0 <= i < n && MentionsMac(trace[i], address)
    ensures address in IndexAt(trace, n).ips <==> exists i :: 0 <= i < n && MentionsIp(trace[i], address)
  {
    if n > 0 {
      AddressesSeen(trace, n - 1, address);
      AbsorbAddress(IndexAt(trace, n - 1), trace[n - 1], address);
    }
  }

  lemma AbsorbAddress(ix: Index, e: Timed, address: string)
    requires address != ""
    ensures address in Absorb(ix, e).macs <==> address in ix.macs || MentionsMac(e, address)
    ensures address in Absorb(ix, e).ips <==> address in ix.ips || MentionsIp(e, address)
  {}

  predicate Pairs(e: Timed, mac: string) {
    mac != "" && MentionsMac(e, mac) && e.feed.srcIp != ""
  }

  /** The MAC table holds the latest source address seen with a MAC. */
  lemma {:induction false} MacTableIsLatest(trace: seq<Timed>, n: nat, mac: string)
    requires n <= |trace|
    ensures if mac in IndexAt(trace, n).macIp then
        exists i :: 0 <= i < n && Pairs(trace[i], mac) && trace[i].feed.srcIp == IndexAt(trace, n).macIp[mac]
          && forall j :: i < j < n ==> !Pairs(trace[j], mac)
      else forall i :: 0 <= i < n ==> !Pairs(trace[i], mac)
  {
    if n > 0 {
      MacTableIsLatest(trace, n - 1, mac);
      var table := IndexAt(trace, n - 1).macIp;
      if Pairs(trace[n - 1], mac) {
        assert IndexAt(trace, n).macIp[mac] == trace[n - 1].feed.srcIp;
      } else if mac in table {
        var i :| 0 <= i < n - 1 && Pairs(trace[i], mac) && trace[i].feed.srcIp == table[mac]
                 && forall j :: i < j < n - 1 ==> !Pairs(trace[j], mac);
        assert IndexAt(trace, n).macIp[mac] == table[mac];
        assert forall j :: i < j < n ==> !Pairs(trace[j], mac);
      }
    }
  }

  // ---- contents of a publisher record ----------------------------------------------------

  function At(trace: seq<Timed>, n: nat, s: Subject): set<int>
    requires n <= |trace|
  {
    set i | 0 <= i < n && Mentions(trace[i], s)
  }

  function TestAt(trace: seq<Timed>, n: nat, s: Subject, test: bool): set<int>
    requires n <= |trace| && s.Publisher?
  {
    set i | 0 <= i < n && Mentions(trace[i], s) && trace[i].feed.frame.test == test
  }

  function NamedAt(trace: seq<Timed>, n: nat, s: Subject): set<int>
    requires n <= |trace| && s.Publisher?
  {
    set i | 0 <= i < n && Mentions(trace[i], s) && trace[i].feed.frame.goId != ""
  }

  predicate Least(i: int, s: set<int>) {
    i in s && forall j :: j in s ==> i <= j
  }

  function FrameAt(trace: seq<Timed>, i: int): GooseFrame
    requires 0 <= i < |trace| && trace[i].feed.Goose?
  {
    trace[i].feed.frame
  }

  /** Positions holding GOOSE frames. */
  predicate GooseAt(trace: seq<Timed>, at: set<int>) {
    forall i :: i in at ==> 0 <= i < |trace| && trace[i].feed.Goose?
  }

  ghost predicate IdentityOk(o: GooseObs, s: Subject)
    requires s.Publisher?
  {
    o.mac == s.mac && o.appid == s.appid && o.gocbRef == s.gocbRef
  }

  /** The configuration revision is that of the first frame. */
  ghost predicate ConfRevOk(o: GooseObs, trace: seq<Timed>, at: set<int>)
    requires GooseAt(trace, at)
  {
    exists i :: Least(i, at) && o.confRev == FrameAt(trace, i).confRev
  }

  /** The go_id is the first one that is not empty. */
  ghost predicate GoIdOk(o: GooseObs, trace: seq<Timed>, named: set<int>)
    requires GooseAt(trace, named)
  {
    if named == {} then o.goId == "" else exists i :: Least(i, named) && o.goId == FrameAt(trace, i).goId
  }

  /** The state-number bounds are attained and bound every frame. */
  ghost predicate RangeOk(o: GooseObs, trace: seq<Timed>, at: set<int>)
    requires GooseAt(trace, at)
  {
    && o.stNumMin.Some? && o.stNumMax.Some?
    && (exists i :: i in at && o.stNumMin.value == FrameAt(trace, i).stNum)
    && (exists i :: i in at && o.stNumMax.value == FrameAt(trace, i).stNum)
    && forall i :: i in at ==> o.stNumMin.value <= FrameAt(trace, i).stNum <= o.stNumMax.value
  }

  /** What the record of publisher `s` must say after the first `n` entries. */
  ghost predicate RecordOk(o: GooseObs, trace: seq<Timed>, n: nat, s: Subject)
    requires n <= |trace| && s.Publisher?
  {
    && IdentityOk(o, s)
    && CountsOk(o, trace, n, s)
    && ConfRevOk(o, trace, At(trace, n, s))
    && GoIdOk(o, trace, NamedAt(trace, n, s))
    && RangeOk(o, trace, At(trace, n, s))
  }

  lemma AtGrows(trace: seq<Timed>, n: nat, s: Subject)
    requires 0 < n <= |trace|
    ensures At(trace, n, s) == At(trace, n - 1, s) + if Mentions(trace[n - 1], s) then {n - 1} else {}
  {}

  lemma PositionsGrow(trace: seq<Timed>, n: nat, s: Subject)
    requires 0 < n <= |trace| && s.Publisher?
    ensures At(trace, n, s) == At(trace, n - 1, s) + if Mentions(trace[n - 1], s) then {n - 1} else {}
    ensures NamedAt(trace, n, s) == NamedAt(trace, n - 1, s)
      + if Mentions(trace[n - 1], s) && trace[n - 1].feed.frame.goId != "" then {n - 1} else {}
  {}

  lemma TestsGrow(trace: seq<Timed>, n: nat, s: Subject, test: bool)
    requires 0 < n <= |trace| && s.Publisher?
    ensures TestAt(trace, n, s, test) == TestAt(trace, n - 1, s, test)
      + if Mentions(trace[n - 1], s) && trace[n - 1].feed.frame.test == test then {n - 1} else {}
  {}

  lemma FirstsUpdated(trace: seq<Timed>, i: int, at: set<int>, named: set<int>, o: GooseObs)
    requires 0 <= i < |trace| && trace[i].feed.Goose? && GooseAt(trace, at) && named <= at
    requires (forall j :: j in at ==> j < i) && (forall j :: j in named ==> FrameAt(trace, j).goId != "")
    requires if at == {} then o == FirstGoose(FrameAt(trace, i)) else ConfRevOk(o, trace, at) && GoIdOk(o, trace, named)
    ensures var o' := NextGoose(o, FrameAt(trace, i), trace[i].at);
      var named' := named + if FrameAt(trace, i).goId != "" then {i} else {};
      ConfRevOk(o', trace, at + {i}) && GoIdOk(o', trace, named')
  {
    var at', f := at + {i}, FrameAt(trace, i);
    var named' := named + if f.goId != "" then {i} else {};
    if at == {} {
      assert Least(i, at') && (f.goId != "" ==> Least(i, named'));
    } else {
      var first :| Least(first, at) && o.confRev == FrameAt(trace, first).confRev;
      assert Least(first, at');
      if named != {} {
        var name :| Least(name, named) && o.goId == FrameAt(trace, name).goId;
        assert Least(name, named');
      } else if f.goId != "" {
        assert Least(i, named');
      }
    }
  }

  lemma RangeUpdated(trace: seq<Timed>, i: int, at: set<int>, o: GooseObs)
    requires 0 <= i < |trace| && trace[i].feed.Goose? && GooseAt(trace, at)
    requires if at == {} then o == FirstGoose(FrameAt(trace, i)) else RangeOk(o, trace, at)
    ensures RangeOk(NextGoose(o, FrameAt(trace, i), trace[i].at), trace, at + {i})
  {
    assert i in at + {i};
    if at != {} {
      var lo :| lo in at && o.stNumMin.value == FrameAt(trace, lo).stNum;
      var hi :| hi in at && o.stNumMax.value == FrameAt(trace, hi).stNum;
      assert lo in at + {i} && hi in at + {i};
    }
  }

  ghost predicate CountsOk(o: GooseObs, trace: seq<Timed>, n: nat, s: Subject)
    requires n <= |trace| && s.Publisher?
  {
    && o.frames == |At(trace, n, s)|
    && o.testFrames == |TestAt(trace, n, s, true)|
    && o.productionFrames == |TestAt(trace, n, s, false)|
  }

  lemma CountsUpdated(trace: seq<Timed>, n: nat, s: Subject, o: GooseObs)
    requires 0 < n <= |trace| && s.Publisher? && Mentions(trace[n - 1], s)
    requires CountsOk(o, trace, n - 1, s)
    ensures CountsOk(NextGoose(o, trace[n - 1].feed.frame, trace[n - 1].at), trace, n, s)
  {
    FramesCounted(trace, n, s);
    TestsCounted(trace, n, s, true);
    TestsCounted(trace, n, s, false);
  }

  lemma FramesCounted(trace: seq<Timed>, n: nat, s: Subject)
    requires 0 < n <= |trace| && s.Publisher? && Mentions(trace[n - 1], s)
    ensures |At(trace, n, s)| == |At(trace, n - 1, s)| + 1
  {
    AtGrows(trace, n, s);
    OneMore(At(trace, n - 1, s), At(trace, n, s), n - 1, true);
  }

  lemma TestsCounted(trace: seq<Timed>, n: nat, s: Subject, test: bool)
    requires 0 < n <= |trace| && s.Publisher? && Mentions(trace[n - 1], s)
    ensures |TestAt(trace, n, s, test)|
         == |TestAt(trace, n - 1, s, test)| + if trace[n - 1].feed.frame.test == test then 1 else 0
  {
    TestsGrow(trace, n, s, test);
    OneMore(TestAt(trace, n - 1, s, test), TestAt(trace, n, s, test), n - 1, trace[n - 1].feed.frame.test == test);
  }

  lemma OneMore(at: set<int>, at': set<int>, i: int, more: bool)
    requires i !in at && at' == at + if more then {i} else {}
    ensures |at'| == |at| + if more then 1 else 0
  {}

  lemma ContentsUpdated(trace: seq<Timed>, n: nat, s: Subject, o: GooseObs)
    requires 0 < n <= |trace| && s.Publisher? && Mentions(trace[n - 1], s)
    requires var at := At(trace, n - 1, s);
      if at == {} then o == FirstGoose(FrameAt(trace, n - 1))
      else ConfRevOk(o, trace, at) && GoIdOk(o, trace, NamedAt(trace, n - 1, s)) && RangeOk(o, trace, at)
    ensures var o' := NextGoose(o, FrameAt(trace, n - 1), trace[n - 1].at);
      && ConfRevOk(o', trace, At(trace, n, s)) && GoIdOk(o', trace, NamedAt(trace, n, s))
      && RangeOk(o', trace, At(trace, n, s))
  {
    PositionsGrow(trace, n, s);
    var at, named := At(trace, n - 1, s), NamedAt(trace, n - 1, s);
    assert named <= at;
    FirstsUpdated(trace, n - 1, at, named, o);
    RangeUpdated(trace, n - 1, at, o);
  }

  lemma RecordUpdated(trace: seq<Timed>, n: nat, s: Subject, o: GooseObs)
    requires 0 < n <= |trace| && s.Publisher? && Mentions(trace[n - 1], s)
    requires if At(trace, n - 1, s) == {} then o == FirstGoose(trace[n - 1].feed.frame)
             else RecordOk(o, trace, n - 1, s)
    ensures RecordOk(NextGoose(o, trace[n - 1].feed.frame, trace[n - 1].at), trace, n, s)
  {
    var at := At(trace, n - 1, s);
    if at == {} {
      assert TestAt(trace, n - 1, s, true) <= at && TestAt(trace, n - 1, s, false) <= at;
    }
    CountsUpdated(trace, n, s, o);
    ContentsUpdated(trace, n, s, o);
  }

  lemma RecordUntouched(trace: seq<Timed>, n: nat, s: Subject, o: GooseObs)
    requires 0 < n <= |trace| && s.Publisher? && !Mentions(trace[n - 1], s) && RecordOk(o, trace, n - 1, s)
    ensures RecordOk(o, trace, n, s)
  {
    PositionsGrow(trace, n, s);
    TestsGrow(trace, n, s, true);
    TestsGrow(trace, n, s, false);
  }

  function RecordOf(ix: Index, s: Subject): Option<GooseObs>
    requires s.Publisher?
  {
    if SubjectKey(s) in ix.goose then Some(ix.goose[SubjectKey(s)]) else None
  }

  /** How one entry changes the record of publisher `s`. */
  predicate RecordStep(o: Option<GooseObs>, o': Option<GooseObs>, e: Timed, s: Subject)
    requires s.Publisher?
  {
    o' == if !Mentions(e, s) then o
          else Some(NextGoose(if o.Some? then o.value else FirstGoose(e.feed.frame), e.feed.frame, e.at))
  }

  lemma AbsorbRecord(ix: Index, e: Timed, s: Subject)
    requires s.Publisher? && GoodSubject(s) && (e.feed.Goose? ==> PlainMac(e.feed.frame.mac))
    ensures RecordStep(RecordOf(ix, s), RecordOf(Absorb(ix, e), s), e, s)
  {
    if e.feed.Goose? {
      JoinedInjective(e.feed.frame.mac, e.feed.frame.appid, e.feed.frame.gocbRef, s.mac, s.appid, s.gocbRef);
    }
  }

  /** The record, if any, says what it must; without one the publisher has not been mentioned. */
  ghost predicate Summary(o: Option<GooseObs>, trace: seq<Timed>, n: nat, s: Subject)
    requires n <= |trace| && s.Publisher?
  {
    if o.Some? then RecordOk(o.value, trace, n, s) else At(trace, n, s) == {}
  }

  lemma StepSummarises(o: Option<GooseObs>, o': Option<GooseObs>, trace: seq<Timed>, n: nat, s: Subject)
    requires 0 < n <= |trace| && s.Publisher?
    requires Summary(o, trace, n - 1, s) && RecordStep(o, o', trace[n - 1], s)
    ensures Summary(o', trace, n, s)
  {
    if Mentions(trace[n - 1], s) {
      if o.Some? {
        assert ConfRevOk(o.value, trace, At(trace, n - 1, s));
        RecordUpdated(trace, n, s, o.value);
      } else {
        RecordUpdated(trace, n, s, FirstGoose(trace[n - 1].feed.frame));
      }
    } else if o.Some? {
      RecordUntouched(trace, n, s, o.value);
    } else {
      PositionsGrow(trace, n, s);
    }
  }

  /** The publisher record is a summary of the whole trace: total, test and production frame
      counts, the first conf_rev, the first nonempty go_id, and the extreme state numbers. */
  lemma {:induction false} RecordIsSummary(trace: seq<Timed>, n: nat, s: Subject)
    requires n <= |trace| && GoodTrace(trace) && s.Publisher? && GoodSubject(s)
    ensures Summary(RecordOf(IndexAt(trace, n), s), trace, n, s)
  {
    if n > 0 {
      RecordIsSummary(trace, n - 1, s);
      AbsorbRecord(IndexAt(trace, n - 1), trace[n - 1], s);
      StepSummarises(RecordOf(IndexAt(trace, n - 1), s), RecordOf(IndexAt(trace, n), s), trace, n, s);
    }
  }

  /** The reported `production` flag: some frame was not a test frame. */
  lemma ProductionIffSomeRealFrame(trace: seq<Timed>, n: nat, s: Subject)
    requires n <= |trace| && GoodTrace(trace) && s.Publisher? && GoodSubject(s)
    requires SubjectKey(s) in IndexAt(trace, n).goose
    ensures GooseEntryOf(IndexAt(trace, n).goose[SubjectKey(s)]).production <==> TestAt(trace, n, s, false) != {}
  {
    RecordIsSummary(trace, n, s);
    var i :| Least(i, At(trace, n, s));
    assert i in TestAt(trace, n, s, true) || i in TestAt(trace, n, s, false);
  }

  /** Every key of the index is the joined key of the record under it. */
  lemma {:induction false} KeysAreJoined(trace: seq<Timed>, n: nat)
    requires n <= |trace| && GoodTrace(trace)
    ensures forall k :: k in IndexAt(trace, n).goose ==>
      var o := IndexAt(trace, n).goose[k]; k == Joined(o.mac, o.appid, o.gocbRef) && PlainMac(o.mac)
  {
    if n > 0 { KeysAreJoined(trace, n - 1); }
  }

  // ---- contents of IED and Modbus records ---------------------------------------------------

  function KindAt(trace: seq<Timed>, n: nat, ied: string, kind: PduType): set<int>
    requires n <= |trace|
  {
    set i | 0 <= i < n && Mentions(trace[i], Ied(ied)) && trace[i].feed.pdu.kind == kind
  }

  lemma KindsGrow(trace: seq<Timed>, n: nat, ied: string, kind: PduType)
    requires 0 < n <= |trace|
    ensures KindAt(trace, n, ied, kind) == KindAt(trace, n - 1, ied, kind)
      + if Mentions(trace[n - 1], Ied(ied)) && trace[n - 1].feed.pdu.kind == kind then {n - 1} else {}
  {}

  /** How one entry changes the record of an IED. */
  predicate IedStep(mms: map<string, MmsObs>, mms': map<string, MmsObs>, e: Timed, ied: string) {
    if Mentions(e, Ied(ied)) then
      ied in mms' && mms'[ied] == NextMms(if ied in mms then mms[ied] else NO_MMS,
                                          MmsPeer(e.feed.pdu), e.feed.pdu.kind, e.at)
    else (ied in mms' <==> ied in mms) && (ied in mms ==> mms'[ied] == mms[ied])
  }

  lemma AbsorbIed(ix: Index, e: Timed, ied: string)
    ensures IedStep(ix.mms, Absorb(ix, e).mms, e, ied)
  {
    if e.feed.Mms? { MmsStep(ix.mms, e.feed.pdu, e.at, ied); }
  }

  lemma MmsStep(mms: map<string, MmsObs>, p: MmsPdu, at: real, ied: string)
    ensures IedStep(mms, MmsAfter(mms, p, at), Timed(Mms(p), at), ied)
  {}

  predicate IedCounted(mms: map<string, MmsObs>, trace: seq<Timed>, n: nat, ied: string)
    requires n <= |trace|
  {
    if ied in mms then
      mms[ied].readCount == |KindAt(trace, n, ied, Read)| && mms[ied].writeCount == |KindAt(trace, n, ied, Write)|
    else KindAt(trace, n, ied, Read) == KindAt(trace, n, ied, Write) == {}
  }

  lemma StepCounts(mms: map<string, MmsObs>, mms': map<string, MmsObs>, trace: seq<Timed>, n: nat, ied: string)
    requires 0 < n <= |trace| && IedStep(mms, mms', trace[n - 1], ied) && IedCounted(mms, trace, n - 1, ied)
    ensures IedCounted(mms', trace, n, ied)
  {
    KindsGrow(trace, n, ied, Read);
    KindsGrow(trace, n, ied, Write);
  }

  /** Read and write counts of an IED cover the whole trace. */
  lemma {:induction false} IedCounts(trace: seq<Timed>, n: nat, ied: string)
    requires n <= |trace|
    ensures IedCounted(IndexAt(trace, n).mms, trace, n, ied)
  {
    if n > 0 {
      IedCounts(trace, n - 1, ied);
      AbsorbIed(IndexAt(trace, n - 1), trace[n - 1], ied);
      StepCounts(IndexAt(trace, n - 1).mms, IndexAt(trace, n).mms, trace, n, ied);
    }
  }

  predicate ModbusAt(trace: seq<Timed>, at: set<int>) {
    forall i :: i in at ==> 0 <= i < |trace| && trace[i].feed.Modbus?
  }

  /** What the record of a Modbus server must say when the entries at `at` concern it. */
  ghost predicate ModbusOk(o: ModbusObs, trace: seq<Timed>, at: set<int>)
    requires ModbusAt(trace, at)
  {
    && o.units == (set i | i in at :: trace[i].feed.request.unitId)
    && o.functionCodes == (set i | i in at :: trace[i].feed.request.functionCode)
    && o.clients == (set i | i in at :: ModbusPeer(trace[i].feed.request)) - {""}
  }

  lemma ModbusUpdated(o: ModbusObs, trace: seq<Timed>, at: set<int>, i: int)
    requires ModbusAt(trace, at + {i}) && ModbusAt(trace, at) && ModbusOk(o, trace, at)
    requires 0 <= i < |trace| && trace[i].feed.Modbus?
    ensures var f := trace[i].feed.request;
      ModbusOk(NextModbus(o, ModbusPeer(f), f, trace[i].at), trace, at + {i})
  {}

  /** How one entry changes the record of a Modbus server. */
  predicate ModbusStep(modbus: map<string, ModbusObs>, modbus': map<string, ModbusObs>, e: Timed, ip: string) {
    if Mentions(e, ModbusServer(ip)) then
      ip in modbus' && modbus'[ip] == NextModbus(if ip in modbus then modbus[ip] else NO_MODBUS,
                                                 ModbusPeer(e.feed.request), e.feed.request, e.at)
    else (ip in modbus' <==> ip in modbus) && (ip in modbus ==> modbus'[ip] == modbus[ip])
  }

  lemma AbsorbModbus(ix: Index, e: Timed, ip: string)
    ensures ModbusStep(ix.modbus, Absorb(ix, e).modbus, e, ip)
  {
    if e.feed.Modbus? { RequestStep(ix.modbus, e.feed.request, e.at, ip); }
  }

  lemma RequestStep(modbus: map<string, ModbusObs>, f: ModbusFrame, at: real, ip: string)
    ensures ModbusStep(modbus, ModbusAfter(modbus, f, at), Timed(Modbus(f), at), ip)
  {}

  ghost predicate ListsAll(o: Option<ModbusObs>, trace: seq<Timed>, at: set<int>) {
    ModbusAt(trace, at) && if o.Some? then ModbusOk(o.value, trace, at) else at == {}
  }

  /** The record of server `ip`, if any, lists everything seen among the first `n` entries. */
  ghost predicate Cumulative(modbus: map<string, ModbusObs>, trace: seq<Timed>, n: nat, ip: string)
    requires n <= |trace|
  {
    ListsAll(if ip in modbus then Some(modbus[ip]) else None, trace, At(trace, n, ModbusServer(ip)))
  }

  lemma OneMoreRequest(o: Option<ModbusObs>, trace: seq<Timed>, at: set<int>, i: nat)
    requires ListsAll(o, trace, at) && i < |trace| && trace[i].feed.Modbus?
    ensures var f, before := trace[i].feed.request, if o.Some? then o.value else NO_MODBUS;
      ListsAll(Some(NextModbus(before, ModbusPeer(f), f, trace[i].at)), trace, at + {i})
  {
    ModbusUpdated(if o.Some? then o.value else NO_MODBUS, trace, at, i);
  }

  lemma StepCumulates(modbus: map<string, ModbusObs>, modbus': map<string, ModbusObs>,
                      trace: seq<Timed>, n: nat, ip: string)
    requires 0 < n <= |trace| && ModbusStep(modbus, modbus', trace[n - 1], ip) && Cumulative(modbus, trace, n - 1, ip)
    ensures Cumulative(modbus', trace, n, ip)
  {
    AtGrows(trace, n, ModbusServer(ip));
    if Mentions(trace[n - 1], ModbusServer(ip)) {
      var o := if ip in modbus then Some(modbus[ip]) else None;
      OneMoreRequest(o, trace, At(trace, n - 1, ModbusServer(ip)), n - 1);
    }
  }

  /** A Modbus record lists every unit, function code and client ever seen: only the server
      itself ages out. */
  lemma {:induction false} ModbusIsCumulative(trace: seq<Timed>, n: nat, ip: string)
    requires n <= |trace|
    ensures Cumulative(IndexAt(trace, n).modbus, trace, n, ip)
  {
    if n > 0 {
      ModbusIsCumulative(trace, n - 1, ip);
      AbsorbModbus(IndexAt(trace, n - 1), trace[n - 1], ip);
      StepCumulates(IndexAt(trace, n - 1).modbus, IndexAt(trace, n).modbus, trace, n, ip);
    }
  }

  // ---- what is reported, field by field --------------------------------------------------------

  /** Every reported publisher carries its identity, the number of all its frames, the revision of the
      first, the first go_id that is not empty, and whether some frame was no test frame. */
  lemma PublisherEntry(trace: seq<Timed>, n: nat, cutoff: Option<real>, s: Subject)
    requires n <= |trace| && GoodTrace(trace) && s.Publisher? && GoodSubject(s)
    requires SubjectKey(s) in GooseEntries(IndexAt(trace, n).goose, cutoff)
    ensures var e := GooseEntries(IndexAt(trace, n).goose, cutoff)[SubjectKey(s)];
      && e.mac == s.mac && e.appid == s.appid && e.gocbRef == s.gocbRef
      && e.observedFrames == |At(trace, n, s)|
      && (exists i :: Least(i, At(trace, n, s)) && e.confRev == Some(FrameAt(trace, i).confRev))
      && (if NamedAt(trace, n, s) == {} then e.goId == ""
          else exists i :: Least(i, NamedAt(trace, n, s)) && e.goId == FrameAt(trace, i).goId)
      && (e.production <==> TestAt(trace, n, s, false) != {})
  {
    RecordIsSummary(trace, n, s);
    ProductionIffSomeRealFrame(trace, n, s);
  }

  /** Every reported IED carries its address and its read and write counts over the whole trace. */
  lemma IedEntry(trace: seq<Timed>, n: nat, cutoff: Option<real>, ied: string)
    requires n <= |trace| && ied in MmsEntries(IndexAt(trace, n).mms, cutoff)
    ensures var e := MmsEntries(IndexAt(trace, n).mms, cutoff)[ied];
      && e.iedIp == ied
      && e.readCount == |KindAt(trace, n, ied, Read)| && e.writeCount == |KindAt(trace, n, ied, Write)|
  {
    IedCounts(trace, n, ied);
  }

  /** Every reported Modbus server carries its address and every unit, function code and client ever seen. */
  lemma ServerEntry(trace: seq<Timed>, n: nat, cutoff: Option<real>, ip: string)
    requires n <= |trace| && ip in ModbusEntries(IndexAt(trace, n).modbus, cutoff)
    ensures var e, at := ModbusEntries(IndexAt(trace, n).modbus, cutoff)[ip], At(trace, n, ModbusServer(ip));
      && e.serverIp == ip && ModbusAt(trace, at)
      && e.units == (set i | i in at :: trace[i].feed.request.unitId)
      && e.functionCodes == (set i | i in at :: trace[i].feed.request.functionCode)
      && e.clients == (set i | i in at :: ModbusPeer(trace[i].feed.request)) - {""}
  {
    ModbusIsCumulative(trace, n, ip);
  }

  /** A window of `w` seconds takes in what was seen at most `w` seconds ago; no window, and a window of
      zero, take in everything. */
  lemma WindowIs(at: real, now: real, windowSec: Option<real>)
    ensures Fresh(at, CutoffOf(now, windowSec)) <==>
      windowSec == None || windowSec == Some(0.0) || now - at <= windowSec.value
  {}

  /** The order of the publishers reported: by appid, then by the text of the MAC. */
  lemma PublishersInOrder(out: seq<GooseEntry>, i: nat, j: nat)
    requires Sorted(out, PUBLISHER_ORDER) && i < j < |out|
    ensures out[i].appid < out[j].appid || (out[i].appid == out[j].appid && TextLeq(out[i].mac, out[j].mac))
  {
    assert PUBLISHER_ORDER(out[i], out[j]);
  }

  lemma IedsInOrder(out: seq<MmsEntry>, i: nat, j: nat)
    requires Sorted(out, IED_ORDER) && i < j < |out|
    ensures TextLeq(out[i].iedIp, out[j].iedIp)
  {
    assert IED_ORDER(out[i], out[j]);
  }

  lemma ServersInOrder(out: seq<ModbusEntry>, i: nat, j: nat)
    requires Sorted(out, SERVER_ORDER) && i < j < |out|
    ensures TextLeq(out[i].serverIp, out[j].serverIp)
  {
    assert SERVER_ORDER(out[i], out[j]);
  }
}
