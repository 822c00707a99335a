/** The baseline collector: an index updated frame by frame, and the proof that it answers
    every windowed question exactly as a scan of the whole packet trace would. */
module Collector {
  import opened Common
  import opened GooseKey
  import opened Sorting

  const MMS_PORT := 102
  const MODBUS_PORT := 502

  // ---- parsed frames ----------------------------------------------------------

  datatype GooseFrame = GooseFrame(
    mac: string, appid: nat, gocbRef: string, goId: string, confRev: int, stNum: int, test: bool)

  datatype PduType = Read | Write | OtherPdu

  datatype MmsPdu = MmsPdu(srcIp: string, dstIp: string, srcPort: nat, dstPort: nat, kind: PduType)

  datatype ModbusFrame = ModbusFrame(
    srcIp: string, dstIp: string, srcPort: nat, dstPort: nat, unitId: int, functionCode: int)

  /** One feed call; a missing address is the empty string. */
  datatype Feed =
    | Endpoints(srcMac: string, srcIp: string, dstIp: string)
    | Goose(frame: GooseFrame)
    | Mms(pdu: MmsPdu)
    | Modbus(request: ModbusFrame)

  datatype Timed = Timed(feed: Feed, at: real)

  /** Server and client of a conversation, told apart by the well-known port. */
  datatype Ends = Ends(server: string, client: string)

  function EndsOf(port: nat, srcIp: string, dstIp: string, srcPort: nat, dstPort: nat): Option<Ends> {
    if dstPort == port then Some(Ends(dstIp, srcIp))
    else if srcPort == port then Some(Ends(srcIp, dstIp))
    else None
  }

  function MmsEnds(p: MmsPdu): Option<Ends> {
    EndsOf(MMS_PORT, p.srcIp, p.dstIp, p.srcPort, p.dstPort)
  }

  function ModbusEnds(f: ModbusFrame): Option<Ends> {
    EndsOf(MODBUS_PORT, f.srcIp, f.dstIp, f.srcPort, f.dstPort)
  }

  function FrameKey(f: GooseFrame): string {
    Joined(f.mac, f.appid, f.gocbRef)
  }

  // ---- the index ----------------------------------------------------------------

  datatype GooseObs = GooseObs(
    mac: string, appid: nat, gocbRef: string, goId: string, confRev: int,
    frames: nat, testFrames: nat, productionFrames: nat,
    stNumMin: Option<int>, stNumMax: Option<int>, lastSeen: real)

  datatype MmsObs = MmsObs(clients: map<string, real>, readCount: nat, writeCount: nat, lastSeen: real)

  datatype ModbusObs = ModbusObs(units: set<int>, functionCodes: set<int>, clients: set<string>, lastSeen: real)

  datatype Index = Index(
    goose: map<string, GooseObs>,
    mms: map<string, MmsObs>,
    modbus: map<string, ModbusObs>,
    commPairs: map<(string, string), real>,
    macs: set<string>,
    ips: set<string>,
    macIp: map<string, string>)

  const EMPTY_INDEX := Index(map[], map[], map[], map[], {}, {}, map[])

  function FirstGoose(f: GooseFrame): GooseObs {
    GooseObs(f.mac, f.appid, f.gocbRef, f.goId, f.confRev, 0, 0, 0, None, None, 0.0)
  }

  function NextGoose(o: GooseObs, f: GooseFrame, now: real): GooseObs {
    o.(frames := o.frames + 1,
       testFrames := o.testFrames + if f.test then 1 else 0,
       productionFrames := o.productionFrames + if f.test then 0 else 1,
       stNumMin := Some(if o.stNumMin.Some? && o.stNumMin.value <= f.stNum then o.stNumMin.value else f.stNum),
       stNumMax := Some(if o.stNumMax.Some? && o.stNumMax.value >= f.stNum then o.stNumMax.value else f.stNum),
       goId := if o.goId == "" then f.goId else o.goId,
       lastSeen := now)
  }

  function NextMms(o: MmsObs, client: string, kind: PduType, now: real): MmsObs {
    MmsObs(if client == "" then o.clients else o.clients[client := now],
           o.readCount + if kind.Read? then 1 else 0,
           o.writeCount + if kind.Write? then 1 else 0,
           now)
  }

  function NextModbus(o: ModbusObs, client: string, f: ModbusFrame, now: real): ModbusObs {
    ModbusObs(o.units + {f.unitId}, o.functionCodes + {f.functionCode},
              if client == "" then o.clients else o.clients + {client}, now)
  }

  /** The three tables after one more frame. */
  function GooseAfter(goose: map<string, GooseObs>, f: GooseFrame, now: real): map<string, GooseObs> {
    goose[FrameKey(f) := NextGoose(if FrameKey(f) in goose then goose[FrameKey(f)] else FirstGoose(f), f, now)]
  }

  const NO_MMS := MmsObs(map[], 0, 0, 0.0)
  const NO_MODBUS := ModbusObs({}, {}, {}, 0.0)

  function MmsAfter(mms: map<string, MmsObs>, p: MmsPdu, now: real): map<string, MmsObs> {
    match MmsEnds(p)
    case None => mms
    case Some(ends) =>
      mms[ends.server := NextMms(if ends.server in mms then mms[ends.server] else NO_MMS, ends.client, p.kind, now)]
  }

  function ModbusAfter(modbus: map<string, ModbusObs>, f: ModbusFrame, now: real): map<string, ModbusObs> {
    match ModbusEnds(f)
    case None => modbus
    case Some(ends) =>
      var o := if ends.server in modbus then modbus[ends.server] else NO_MODBUS;
      modbus[ends.server := NextModbus(o, ends.client, f, now)]
  }

  function PairsAfter(pairs: map<(string, string), real>, src: string, dst: string, now: real)
    : map<(string, string), real>
  {
    if src != "" && dst != "" then pairs[(src, dst) := now] else pairs
  }

  /** The index after one more feed call. */
  function Absorb(ix: Index, e: Timed): Index {
    match e.feed
    case Endpoints(mac, src, dst) =>
      ix.(commPairs := PairsAfter(ix.commPairs, src, dst, e.at),
          macs := if mac != "" then ix.macs + {mac} else ix.macs,
          ips := ix.ips + ({src, dst} - {""}),
          macIp := if src != "" && mac != "" then ix.macIp[mac := src] else ix.macIp)
    case Goose(f) => ix.(goose := GooseAfter(ix.goose, f, e.at))
    case Mms(p) => ix.(mms := MmsAfter(ix.mms, p, e.at))
    case Modbus(f) => ix.(modbus := ModbusAfter(ix.modbus, f, e.at))
  }

  /** The index after the first `n` entries of a trace. */
  function IndexAt(trace: seq<Timed>, n: nat): Index
    requires n <= |trace|
  {
    if n == 0 then EMPTY_INDEX else Absorb(IndexAt(trace, n - 1), trace[n - 1])
  }

  predicate Fresh(lastSeen: real, cutoff: Option<real>) {
    cutoff.None? || lastSeen >= cutoff.value
  }

  /** to_candidate's cutoff: no window, and a zero window, mean no cutoff. */
  function CutoffOf(now: real, windowSec: Option<real>): Option<real> {
    if windowSec.Some? && windowSec.value != 0.0 then Some(now - windowSec.value) else None
  }

  // ---- what the console reads ------------------------------------------------------

  datatype GooseEntry = GooseEntry(
    mac: string, appid: nat, gocbRef: string, goId: string, confRev: Option<int>, production: bool, observedFrames: nat)

  datatype MmsEntry = MmsEntry(iedIp: string, clients: set<string>, readCount: nat, writeCount: nat)

  datatype ModbusEntry = ModbusEntry(serverIp: string, units: set<int>, functionCodes: set<int>, clients: set<string>)

  function GooseEntryOf(o: GooseObs): GooseEntry {
    GooseEntry(o.mac, o.appid, o.gocbRef, o.goId, Some(o.confRev),
               o.productionFrames > 0 || o.testFrames == 0, o.frames)
  }

  function FreshClients(o: MmsObs, cutoff: Option<real>): set<string> {
    set c | c in o.clients && Fresh(o.clients[c], cutoff)
  }

  function MmsEntryOf(ip: string, o: MmsObs, cutoff: Option<real>): MmsEntry {
    MmsEntry(ip, FreshClients(o, cutoff), o.readCount, o.writeCount)
  }

  function ModbusEntryOf(ip: string, o: ModbusObs): ModbusEntry {
    ModbusEntry(ip, o.units, o.functionCodes, o.clients)
  }

  function GooseEntries(goose: map<string, GooseObs>, cutoff: Option<real>): map<string, GooseEntry> {
    map k | k in goose && Fresh(goose[k].lastSeen, cutoff) :: GooseEntryOf(goose[k])
  }

  function MmsEntries(mms: map<string, MmsObs>, cutoff: Option<real>): map<string, MmsEntry> {
    map ip | ip in mms && Fresh(mms[ip].lastSeen, cutoff) :: MmsEntryOf(ip, mms[ip], cutoff)
  }

  function ModbusEntries(modbus: map<string, ModbusObs>, cutoff: Option<real>): map<string, ModbusEntry> {
    map ip | ip in modbus && Fresh(modbus[ip].lastSeen, cutoff) :: ModbusEntryOf(ip, modbus[ip])
  }

  function FreshPairs(ix: Index, cutoff: Option<real>): set<(string, string)> {
    set p | p in ix.commPairs && Fresh(ix.commPairs[p], cutoff)
  }

  /** `out` lists the values of `m` in the key order `order`, each key once. */
  predicate Lists<V(==)>(out: seq<V>, order: seq<string>, m: map<string, V>) {
    && |out| == |order|
    && (forall i :: 0 <= i < |order| ==> order[i] in m && out[i] == m[order[i]])
    && (forall i, j :: 0 <= i < j < |order| ==> order[i] != order[j])
    && forall k :: k in m ==> k in order
  }

  /** An `iec61850` block: the two lists a policy and a snapshot hold. */
  datatype Iec = Iec(goose: seq<GooseEntry>, mms: seq<MmsEntry>)

  /** `iec` lists exactly what index `ix` has seen since the cutoff. */
  ghost predicate SnapshotOf(iec: Iec, ix: Index, cutoff: Option<real>) {
    && (exists order :: Lists(iec.goose, order, GooseEntries(ix.goose, cutoff)))
    && exists order :: Lists(iec.mms, order, MmsEntries(ix.mms, cutoff))
  }

  lemma ListOneMore<V>(out: seq<V>, order: seq<string>, m: map<string, V>, key: string, v: V)
    requires Lists(out, order, m) && key !in m
    ensures Lists(out + [v], order + [key], m[key := v])
  {
    forall k | k in m[key := v] ensures k in order + [key] {
      if k != key { assert k in order; }
    }
  }

  /** How a report grows when one more record has been looked at. */
  lemma PublisherOneMore(goose: map<string, GooseObs>, todo: set<string>, key: string, cutoff: Option<real>)
    requires key in todo && todo <= goose.Keys
    ensures var before := GooseEntries(goose - todo, cutoff);
      && key !in before
      && GooseEntries(goose - (todo - {key}), cutoff)
         == if Fresh(goose[key].lastSeen, cutoff) then before[key := GooseEntryOf(goose[key])] else before
  {}

  lemma IedOneMore(mms: map<string, MmsObs>, todo: set<string>, ip: string, cutoff: Option<real>)
    requires ip in todo && todo <= mms.Keys
    ensures var before := MmsEntries(mms - todo, cutoff);
      && ip !in before
      && MmsEntries(mms - (todo - {ip}), cutoff)
         == if Fresh(mms[ip].lastSeen, cutoff) then before[ip := MmsEntryOf(ip, mms[ip], cutoff)] else before
  {}

  lemma ServerOneMore(modbus: map<string, ModbusObs>, todo: set<string>, ip: string, cutoff: Option<real>)
    requires ip in todo && todo <= modbus.Keys
    ensures var before := ModbusEntries(modbus - todo, cutoff);
      && ip !in before
      && ModbusEntries(modbus - (todo - {ip}), cutoff)
         == if Fresh(modbus[ip].lastSeen, cutoff) then before[ip := ModbusEntryOf(ip, modbus[ip])] else before
  {}

  // ---- sorted listings ------------------------------------------------------------------

  /** The sort keys of the three reports. */
  const PUBLISHER_ORDER: (GooseEntry, GooseEntry) -> bool :=
    (a: GooseEntry, b: GooseEntry) => a.appid < b.appid || (a.appid == b.appid && TextLeq(a.mac, b.mac))
  const IED_ORDER: (MmsEntry, MmsEntry) -> bool := (a: MmsEntry, b: MmsEntry) => TextLeq(a.iedIp, b.iedIp)
  const SERVER_ORDER: (ModbusEntry, ModbusEntry) -> bool :=
    (a: ModbusEntry, b: ModbusEntry) => TextLeq(a.serverIp, b.serverIp)

  lemma OrdersAreTotal()
    ensures TotalPreorder(PUBLISHER_ORDER) && TotalPreorder(IED_ORDER) && TotalPreorder(SERVER_ORDER)
  {
    ByTextOrders(PUBLISHER_ORDER, (e: GooseEntry) => e.appid, (e: GooseEntry) => e.mac);
    ByTextOrders(IED_ORDER, (_: MmsEntry) => 0, (e: MmsEntry) => e.iedIp);
    ByTextOrders(SERVER_ORDER, (_: ModbusEntry) => 0, (e: ModbusEntry) => e.serverIp);
  }

  /** Sorting a listing gives a listing of the same table. */
  lemma {:induction false} SortedLists<V>(out: seq<V>, order: seq<string>, m: map<string, V>, leq: (V, V) -> bool)
    returns (order': seq<string>)
    requires Lists(out, order, m)
    ensures Lists(SortBy(out, leq), order', m)
    decreases |out|
  {
    if out == [] {
      order' := [];
    } else {
      var n := |out| - 1;
      var key, rest := order[n], m - {order[n]};
      ListOneLess(out, order, m);
      var front := SortedLists(out[..n], order[..n], rest, leq);
      order' := InsertedLists(SortBy(out[..n], leq), front, rest, key, out[n], leq);
    }
  }

  lemma ListOneLess<V>(out: seq<V>, order: seq<string>, m: map<string, V>)
    requires Lists(out, order, m) && out != []
    ensures var n := |out| - 1;
      Lists(out[..n], order[..n], m - {order[n]}) && order[n] in m && (m - {order[n]})[order[n] := out[n]] == m
  {
    var n := |out| - 1;
    assert (m - {order[n]})[order[n] := m[order[n]]] == m;
    forall k | k in m - {order[n]} ensures k in order[..n] {
      assert k in order;
      var i :| 0 <= i < |order| && order[i] == k;
      assert order[..n][i] == k;
    }
  }

  lemma SwapUpdates<V>(m: map<string, V>, a: string, x: V, b: string, y: V)
    requires a != b
    ensures m[a := x][b := y] == m[b := y][a := x]
  {}

  lemma {:induction false} InsertedLists<V>(out: seq<V>, order: seq<string>, m: map<string, V>, key: string, v: V,
                                            leq: (V, V) -> bool) returns (order': seq<string>)
    requires Lists(out, order, m) && key !in m
    ensures Lists(Insert(out, v, leq), order', m[key := v])
    decreases |out|
  {
    if out == [] || leq(out[|out| - 1], v) {
      order' := order + [key];
      ListOneMore(out, order, m, key, v);
    } else {
      var n := |out| - 1;
      var lastKey, last, rest := order[n], out[n], m - {order[n]};
      ListOneLess(out, order, m);
      var front := InsertedLists(out[..n], order[..n], rest, key, v, leq);
      order' := front + [lastKey];
      ListOneMore(Insert(out[..n], v, leq), front, rest[key := v], lastKey, last);
      SwapUpdates(rest, key, v, lastKey, last);
    }
  }

  /** collector.py: the dictionaries and the feed calls that update them. */
  class BaselineCollector {
    var goose: map<string, GooseObs>
    var mms: map<string, MmsObs>
    var modbus: map<string, ModbusObs>
    var commPairs: map<(string, string), real>
    var macs: set<string>
    var ips: set<string>
    var macIp: map<string, string>

    constructor ()
      ensures View() == EMPTY_INDEX
    {
      goose, mms, modbus, commPairs := map[], map[], map[], map[];
      macs, ips, macIp := {}, {}, map[];
    }

    function View(): Index
      reads this
    {
      Index(goose, mms, modbus, commPairs, macs, ips, macIp)
    }

    method FeedEndpoints(srcMac: string, srcIp: string, dstIp: string, now: real)
      modifies this`commPairs, this`macs, this`ips, this`macIp
      ensures View() == Absorb(old(View()), Timed(Endpoints(srcMac, srcIp, dstIp), now))
    {
      if srcMac != "" {
        macs := macs + {srcMac};
      }
      if srcIp != "" {
        ips := ips + {srcIp};
        if srcMac != "" {
          macIp := macIp[srcMac := srcIp];
        }
      }
      if dstIp != "" {
        ips := ips + {dstIp};
      }
      if srcIp != "" && dstIp != "" {
        commPairs := commPairs[(srcIp, dstIp) := now];
      }
      assert ips == old(ips) + ({srcIp, dstIp} - {""});
    }

    method FeedGoose(frame: GooseFrame, now: real)
      modifies this`goose
      ensures View() == Absorb(old(View()), Timed(Goose(frame), now))
    {
      var key := FrameKey(frame);
      if key !in goose {
        goose := goose[key := FirstGoose(frame)];
      }
      var obs := CountFrame(goose[key], frame, now);
      goose := goose[key := obs];
      assert goose == GooseAfter(old(goose), frame, now);
    }

    method FeedMms(pdu: MmsPdu, now: real)
      modifies this`mms
      ensures View() == Absorb(old(View()), Timed(Mms(pdu), now))
    {
      var iedIp, clientIp;
      if pdu.dstPort == MMS_PORT {
        iedIp, clientIp := pdu.dstIp, pdu.srcIp;
      } else if pdu.srcPort == MMS_PORT {
        iedIp, clientIp := pdu.srcIp, pdu.dstIp;
      } else {
        return;
      }
      if iedIp !in mms {
        mms := mms[iedIp := NO_MMS];
      }
      var rec := CountPdu(mms[iedIp], clientIp, pdu.kind, now);
      mms := mms[iedIp := rec];
      assert mms == MmsAfter(old(mms), pdu, now);
    }

    method FeedModbus(frame: ModbusFrame, now: real)
      modifies this`modbus
      ensures View() == Absorb(old(View()), Timed(Modbus(frame), now))
    {
      var serverIp, clientIp;
      if frame.dstPort == MODBUS_PORT {
        serverIp, clientIp := frame.dstIp, frame.srcIp;
      } else if frame.srcPort == MODBUS_PORT {
        serverIp, clientIp := frame.srcIp, frame.dstIp;
      } else {
        return;
      }
      if serverIp !in modbus {
        modbus := modbus[serverIp := NO_MODBUS];
      }
      var rec := CountRequest(modbus[serverIp], clientIp, frame, now);
      modbus := modbus[serverIp := rec];
      assert modbus == ModbusAfter(old(modbus), frame, now);
    }

    method GoosePublishers(cutoff: Option<real>) returns (out: seq<GooseEntry>)
      ensures Sorted(out, PUBLISHER_ORDER) && exists keys :: Lists(out, keys, GooseEntries(goose, cutoff))
    {
      out := [];
      ghost var keys: seq<string> := [];
      var todo := goose.Keys;
      while todo != {}
        invariant todo <= goose.Keys && Lists(out, keys, GooseEntries(goose - todo, cutoff))
        decreases todo
      {
        var key :| key in todo;
        PublisherOneMore(goose, todo, key, cutoff);
        if Fresh(goose[key].lastSeen, cutoff) {
          ListOneMore(out, keys, GooseEntries(goose - todo, cutoff), key, GooseEntryOf(goose[key]));
          out, keys := out + [GooseEntryOf(goose[key])], keys + [key];
        }
        todo := todo - {key};
      }
      assert goose - todo == goose;
      OrdersAreTotal();
      SortIsSorted(out, PUBLISHER_ORDER);
      keys := SortedLists(out, keys, GooseEntries(goose, cutoff), PUBLISHER_ORDER);
      out := SortBy(out, PUBLISHER_ORDER);
    }

    method MmsIeds(cutoff: Option<real>) returns (out: seq<MmsEntry>)
      ensures Sorted(out, IED_ORDER) && exists keys :: Lists(out, keys, MmsEntries(mms, cutoff))
    {
      out := [];
      ghost var keys: seq<string> := [];
      var todo := mms.Keys;
      while todo != {}
        invariant todo <= mms.Keys && Lists(out, keys, MmsEntries(mms - todo, cutoff))
        decreases todo
      {
        var ip :| ip in todo;
        IedOneMore(mms, todo, ip, cutoff);
        if Fresh(mms[ip].lastSeen, cutoff) {
          ListOneMore(out, keys, MmsEntries(mms - todo, cutoff), ip, MmsEntryOf(ip, mms[ip], cutoff));
          out, keys := out + [MmsEntryOf(ip, mms[ip], cutoff)], keys + [ip];
        }
        todo := todo - {ip};
      }
      assert mms - todo == mms;
      OrdersAreTotal();
      SortIsSorted(out, IED_ORDER);
      keys := SortedLists(out, keys, MmsEntries(mms, cutoff), IED_ORDER);
      out := SortBy(out, IED_ORDER);
    }

    method ModbusServers(cutoff: Option<real>) returns (out: seq<ModbusEntry>)
      ensures Sorted(out, SERVER_ORDER) && exists keys :: Lists(out, keys, ModbusEntries(modbus, cutoff))
    {
      out := [];
      ghost var keys: seq<string> := [];
      var todo := modbus.Keys;
      while todo != {}
        invariant todo <= modbus.Keys && Lists(out, keys, ModbusEntries(modbus - todo, cutoff))
        decreases todo
      {
        var ip :| ip in todo;
        ServerOneMore(modbus, todo, ip, cutoff);
        if Fresh(modbus[ip].lastSeen, cutoff) {
          ListOneMore(out, keys, ModbusEntries(modbus - todo, cutoff), ip, ModbusEntryOf(ip, modbus[ip]));
          out, keys := out + [ModbusEntryOf(ip, modbus[ip])], keys + [ip];
        }
        todo := todo - {ip};
      }
      assert modbus - todo == modbus;
      OrdersAreTotal();
      SortIsSorted(out, SERVER_ORDER);
      keys := SortedLists(out, keys, ModbusEntries(modbus, cutoff), SERVER_ORDER);
      out := SortBy(out, SERVER_ORDER);
    }

    method ToCandidate(now: real, windowSec: Option<real>)
      returns (iec: Iec, servers: seq<ModbusEntry>, pairs: set<(string, string)>, macTable: map<string, string>)
      ensures SnapshotOf(iec, View(), CutoffOf(now, windowSec))
      ensures Sorted(iec.goose, PUBLISHER_ORDER) && Sorted(iec.mms, IED_ORDER) && Sorted(servers, SERVER_ORDER)
      ensures exists keys :: Lists(servers, keys, ModbusEntries(modbus, CutoffOf(now, windowSec)))
      ensures pairs == FreshPairs(View(), CutoffOf(now, windowSec)) && macTable == macIp
    {
      var cutoff := if windowSec.Some? && windowSec.value != 0.0 then Some(now - windowSec.value) else None;
      var publishers := GoosePublishers(cutoff);
      var ieds := MmsIeds(cutoff);
      var serverList := ModbusServers(cutoff);
      return Iec(publishers, ieds), serverList, FreshPairs(View(), cutoff), macIp;
    }
  }

  /** The updates of one publisher record. */
  method CountFrame(o: GooseObs, frame: GooseFrame, now: real) returns (obs: GooseObs)
    ensures obs == NextGoose(o, frame, now)
  {
    obs := o.(frames := o.frames + 1);
    if frame.test {
      obs := obs.(testFrames := obs.testFrames + 1);
    } else {
      obs := obs.(productionFrames := obs.productionFrames + 1);
    }
    var sn := frame.stNum;
    obs := obs.(stNumMin := Some(if obs.stNumMin == None then sn else Min(obs.stNumMin.value, sn)),
                stNumMax := Some(if obs.stNumMax == None then sn else -Min(-obs.stNumMax.value, -sn)));
    if frame.goId != "" && obs.goId == "" {
      obs := obs.(goId := frame.goId);
    }
    obs := obs.(lastSeen := now);
  }

  /** The updates of one IED record. */
  method CountPdu(o: MmsObs, clientIp: string, kind: PduType, now: real) returns (rec: MmsObs)
    ensures rec == NextMms(o, clientIp, kind, now)
  {
    rec := o;
    if clientIp != "" {
      rec := rec.(clients := rec.clients[clientIp := now]);
    }
    if kind == Read {
      rec := rec.(readCount := rec.readCount + 1);
    } else if kind == Write {
      rec := rec.(writeCount := rec.writeCount + 1);
    }
    rec := rec.(lastSeen := now);
  }

  /** The updates of one Modbus server record. */
  method CountRequest(o: ModbusObs, clientIp: string, frame: ModbusFrame, now: real) returns (rec: ModbusObs)
    ensures rec == NextModbus(o, clientIp, frame, now)
  {
    rec := o.(units := o.units + {frame.unitId}, functionCodes := o.functionCodes + {frame.functionCode});
    if clientIp != "" {
      rec := rec.(clients := rec.clients + {clientIp});
    }
    rec := rec.(lastSeen := now);
  }

  function Min(a: int, b: int): int {
    if a <= b then a else b
  }
}
