/** Store-and-forward in the edge agent: the offline buffer, the flush loop and the upload loop,
    under arbitrary MQTT and HTTP failures. */
module AgentUpload {
  import opened Common

  /** `uid` stands for the event's content; a missing event_id is None. */
  datatype Event = Event(uid: nat, eventId: Option<string>)

  datatype Payload = EventPayload(event: Event) | HealthPayload | UnknownPayload

  datatype Row = Row(id: nat, payload: Payload)

  /** How the outside world answers for one entry. */
  datatype Answer = Whitelisted | ByMqtt | ByHttp | Fails

  /** `str(payload.get("event_id"))`, the text remove_by_event_id compares. */
  function ComparedId(e: Event): string {
    if e.eventId.None? then "None" else e.eventId.value
  }

  /** `str(event.get("event_id") or "")`, the id an upload removes by. */
  function UploadId(e: Event): string {
    if e.eventId.None? then "" else e.eventId.value
  }

  // ---- the buffer ----------------------------------------------------------------------

  predicate Increasing(rows: seq<Row>) {
    forall i, j :: 0 <= i < j < |rows| ==> rows[i].id < rows[j].id
  }

  /** `DELETE ... WHERE id = ?`. */
  function DeleteId(rows: seq<Row>, id: nat): seq<Row> {
    if rows == [] then []
    else if rows[0].id == id then DeleteId(rows[1..], id)
    else [rows[0]] + DeleteId(rows[1..], id)
  }

  predicate Names(row: Row, eventId: string) {
    row.payload.EventPayload? && ComparedId(row.payload.event) == eventId
  }

  /** Every buffered event whose compared id is `eventId` goes; an empty id removes nothing. */
  function DeleteEvent(rows: seq<Row>, eventId: string): seq<Row> {
    if rows == [] || eventId == "" then rows
    else if Names(rows[0], eventId) then DeleteEvent(rows[1..], eventId)
    else [rows[0]] + DeleteEvent(rows[1..], eventId)
  }

  /** The events among the rows deleted that way. */
  function DeletedEvents(rows: seq<Row>, eventId: string): (es: seq<Event>)
    ensures forall e :: e in es ==> eventId != "" && ComparedId(e) == eventId
  {
    if rows == [] || eventId == "" then []
    else if Names(rows[0], eventId) then [rows[0].payload.event] + DeletedEvents(rows[1..], eventId)
    else DeletedEvents(rows[1..], eventId)
  }

  /** Deleting by event id keeps exactly the other rows. */
  lemma {:induction false} DeleteEventKeeps(rows: seq<Row>, eventId: string, row: Row)
    ensures row in DeleteEvent(rows, eventId) <==> row in rows && (eventId == "" || !Names(row, eventId))
  {
    if rows != [] && eventId != "" {
      DeleteEventKeeps(rows[1..], eventId, row);
      assert row in rows <==> row == rows[0] || row in rows[1..];
    }
  }

  lemma {:induction false} DeletionKeepsOrder(rows: seq<Row>, eventId: string)
    requires Increasing(rows)
    ensures Increasing(DeleteEvent(rows, eventId))
  {
    if rows != [] && eventId != "" {
      DeletionKeepsOrder(rows[1..], eventId);
      var rest := DeleteEvent(rows[1..], eventId);
      forall i | 0 <= i < |rest| ensures rows[0].id < rest[i].id {
        DeleteEventKeeps(rows[1..], eventId, rest[i]);
      }
    }
  }

  lemma {:induction false} DeleteMissing(rows: seq<Row>, id: nat)
    requires forall i :: 0 <= i < |rows| ==> rows[i].id != id
    ensures DeleteId(rows, id) == rows
  {
    if rows != [] {
      DeleteMissing(rows[1..], id);
    }
  }

  /** Deleting by an id that one row has removes just that row. */
  lemma {:induction false} DeleteInMiddle(front: seq<Row>, row: Row, back: seq<Row>)
    requires forall i :: 0 <= i < |front| ==> front[i].id != row.id
    requires forall i :: 0 <= i < |back| ==> back[i].id != row.id
    ensures DeleteId(front + ([row] + back), row.id) == front + back
    decreases |front|
  {
    var all := front + ([row] + back);
    if front == [] {
      assert all == [row] + back && all[1..] == back && front + back == back;
      DeleteMissing(back, row.id);
    } else {
      assert all[1..] == front[1..] + ([row] + back);
      DeleteInMiddle(front[1..], row, back);
      assert [front[0]] + (front[1..] + back) == front + back;
    }
  }

  /** Deleting by event id, one row further. */
  lemma {:induction false} DeleteEventOneMore(rows: seq<Row>, row: Row, eventId: string)
    requires eventId != ""
    ensures DeleteEvent(rows + [row], eventId)
         == if Names(row, eventId) then DeleteEvent(rows, eventId) else DeleteEvent(rows, eventId) + [row]
  {
    if rows == [] {
      assert rows + [row] == [row] && [row][1..] == [];
    } else {
      assert (rows + [row])[1..] == rows[1..] + [row];
      DeleteEventOneMore(rows[1..], row, eventId);
    }
  }

  /** Deleting the head by its id leaves the tail, since ids increase. */
  lemma DeleteHead(rows: seq<Row>)
    requires rows != [] && Increasing(rows)
    ensures DeleteId(rows, rows[0].id) == rows[1..]
  {
    DeleteMissing(rows[1..], rows[0].id);
  }

  /** The buffered events, oldest first. */
  function Events(rows: seq<Row>): seq<Event> {
    if rows == [] then []
    else
      var front, last := Events(rows[..|rows| - 1]), rows[|rows| - 1].payload;
      if last.EventPayload? then front + [last.event] else front
  }

  lemma {:induction false} EventsHold(rows: seq<Row>, e: Event)
    ensures e in Events(rows) <==> exists i :: 0 <= i < |rows| && rows[i].payload == EventPayload(e)
  {
    if rows != [] {
      EventsHold(rows[..|rows| - 1], e);
    }
  }

  /** Row ids increase and have all been handed out already. */
  predicate ValidRows(rows: seq<Row>, nextId: nat) {
    Increasing(rows) && forall i :: 0 <= i < |rows| ==> rows[i].id < nextId
  }

  lemma DeletionKeepsValid(rows: seq<Row>, eventId: string, nextId: nat)
    requires ValidRows(rows, nextId)
    ensures ValidRows(DeleteEvent(rows, eventId), nextId)
  {
    var kept := DeleteEvent(rows, eventId);
    DeletionKeepsOrder(rows, eventId);
    forall j | 0 <= j < |kept| ensures kept[j].id < nextId { DeleteEventKeeps(rows, eventId, kept[j]); }
  }

  /** The table after `i` rounds of the removal loop over the rows `all`. */
  function HalfDeleted(all: seq<Row>, i: nat, eventId: string): seq<Row>
    requires i <= |all|
  {
    DeleteEvent(all[..i], eventId) + all[i..]
  }

  lemma DeletionEnds(all: seq<Row>, eventId: string)
    ensures HalfDeleted(all, 0, eventId) == all && HalfDeleted(all, |all|, eventId) == DeleteEvent(all, eventId)
  {
    assert all[..|all|] == all && DeleteEvent(all, eventId) + [] == DeleteEvent(all, eventId);
  }

  lemma HalvesAt(all: seq<Row>, i: nat, eventId: string)
    requires i < |all| && eventId != ""
    ensures var front, row, back := DeleteEvent(all[..i], eventId), all[i], all[i + 1..];
      && HalfDeleted(all, i, eventId) == front + ([row] + back)
      && HalfDeleted(all, i + 1, eventId) == if Names(row, eventId) then front + back else front + ([row] + back)
  {
    assert all[..i + 1] == all[..i] + [all[i]] && all[i..] == [all[i]] + all[i + 1..];
    DeleteEventOneMore(all[..i], all[i], eventId);
    OneAcross(DeleteEvent(all[..i], eventId), all[i], all[i + 1..]);
  }

  lemma OneAcross(front: seq<Row>, row: Row, back: seq<Row>)
    ensures (front + [row]) + back == front + ([row] + back)
  {}

  /** One round of the removal loop. */
  lemma DeleteStep(all: seq<Row>, i: nat, eventId: string)
    requires Increasing(all) && i < |all| && eventId != ""
    ensures HalfDeleted(all, i + 1, eventId)
         == if Names(all[i], eventId) then DeleteId(HalfDeleted(all, i, eventId), all[i].id)
            else HalfDeleted(all, i, eventId)
  {
    var front, row, back := DeleteEvent(all[..i], eventId), all[i], all[i + 1..];
    HalvesAt(all, i, eventId);
    forall j | 0 <= j < |front| ensures front[j].id != row.id {
      DeleteEventKeeps(all[..i], eventId, front[j]);
    }
    DeleteInMiddle(front, row, back);
  }

  // ---- agent state and its ledgers ---------------------------------------------------------

  /** The buffer table, and what became of events so far. */
  datatype State = State(
    rows: seq<Row>, nextId: nat, maxEvents: nat,
    produced: seq<Event>, delivered: seq<Event>, whitelisted: seq<Event>, trimmed: seq<Event>, superseded: seq<Event>)

  function Overflow(s: State): nat {
    if |s.rows| + 1 > s.maxEvents then |s.rows| + 1 - s.maxEvents else 0
  }

  /** Insert, then trim the oldest rows beyond the capacity. */
  function Enqueue(s: State, payload: Payload): State {
    var all := s.rows + [Row(s.nextId, payload)];
    s.(rows := all[Overflow(s)..], nextId := s.nextId + 1, trimmed := s.trimmed + Events(all[..Overflow(s)]))
  }

  /** Does the flush stop at this entry? */
  predicate Stops(row: Row, answer: Answer) {
    answer.Fails? && !row.payload.UnknownPayload?
  }

  /** Index of the first entry the flush cannot clear. */
  function StopAt(rows: seq<Row>, answers: seq<Answer>): (k: nat)
    requires |answers| == |rows|
    ensures k <= |rows| && (k < |rows| ==> Stops(rows[k], answers[k]))
    ensures forall i :: 0 <= i < k ==> !Stops(rows[i], answers[i])
  {
    if rows == [] || Stops(rows[0], answers[0]) then 0
    else
      var k := 1 + StopAt(rows[1..], answers[1..]);
      assert forall i :: 0 < i < k ==> rows[i] == rows[1..][i - 1] && answers[i] == answers[1..][i - 1];
      k
  }

  function Cleared(s: State, row: Row, answer: Answer): State {
    if !row.payload.EventPayload? then s
    else if answer.Whitelisted? then s.(whitelisted := s.whitelisted + [row.payload.event])
    else s.(delivered := s.delivered + [row.payload.event])
  }

  /** The ledgers after clearing the first `k` entries. */
  function ClearedUpTo(s: State, rows: seq<Row>, answers: seq<Answer>, k: nat): State
    requires k <= |rows| == |answers|
  {
    if k == 0 then s else Cleared(ClearedUpTo(s, rows, answers, k - 1), rows[k - 1], answers[k - 1])
  }

  /** A flush clears entries in FIFO order up to the first failing one, which stays with the rest. */
  function Flush(s: State, answers: seq<Answer>): State
    requires |answers| == |s.rows|
  {
    var k := StopAt(s.rows, answers);
    ClearedUpTo(s, s.rows, answers, k).(rows := s.rows[k..])
  }

  /** The state after `i` rounds of the flush loop. */
  function HalfFlushed(s: State, answers: seq<Answer>, i: nat): State
    requires i <= |s.rows| == |answers|
  {
    ClearedUpTo(s, s.rows, answers, i).(rows := s.rows[i..])
  }

  lemma ClearOneMore(s: State, answers: seq<Answer>, i: nat)
    requires |answers| == |s.rows| && i < |s.rows| && Increasing(s.rows)
    ensures var t := HalfFlushed(s, answers, i);
      Cleared(t, s.rows[i], answers[i]).(rows := DeleteId(t.rows, s.rows[i].id)) == HalfFlushed(s, answers, i + 1)
  {
    DeleteHead(s.rows[i..]);
  }

  lemma FlushEnds(s: State, answers: seq<Answer>, i: nat)
    requires i <= |s.rows| == |answers|
    requires forall j :: 0 <= j < i ==> !Stops(s.rows[j], answers[j])
    requires i < |s.rows| ==> Stops(s.rows[i], answers[i])
    ensures HalfFlushed(s, answers, i) == Flush(s, answers)
  {}

  lemma SuffixIsValid(rows: seq<Row>, i: nat, nextId: nat)
    requires ValidRows(rows, nextId) && i <= |rows|
    ensures ValidRows(rows[i..], nextId)
  {}

  function UploadOne(s: State, e: Event, answer: Answer): State {
    var seen := s.(produced := s.produced + [e]);
    match answer
    case Whitelisted => seen.(whitelisted := s.whitelisted + [e])
    case Fails => Enqueue(seen, EventPayload(e))
    case _ => seen.(delivered := s.delivered + [e], rows := DeleteEvent(s.rows, UploadId(e)),
                    superseded := s.superseded + DeletedEvents(s.rows, UploadId(e)))
  }

  function Upload(s: State, events: seq<Event>, answers: seq<Answer>): State
    requires |answers| == |events|
  {
    if events == [] then s
    else
      var n := |events| - 1;
      UploadOne(Upload(s, events[..n], answers[..n]), events[n], answers[n])
  }

  // ---- the programs ----------------------------------------------------------------------------

  class EdgeAgent {
    const maxEvents: nat
    var rows: seq<Row>
    var nextId: nat
    ghost var produced: seq<Event>
    ghost var delivered: seq<Event>
    ghost var whitelisted: seq<Event>
    ghost var trimmed: seq<Event>
    ghost var superseded: seq<Event>

    ghost function View(): State
      reads this
    {
      State(rows, nextId, maxEvents, produced, delivered, whitelisted, trimmed, superseded)
    }

    constructor (maxEvents: nat)
      ensures Valid() && View() == State([], 1, maxEvents, [], [], [], [], [])
    {
      this.maxEvents := maxEvents;
      rows, nextId := [], 1;
      produced, delivered, whitelisted, trimmed, superseded := [], [], [], [], [];
    }

    method EnqueueRow(payload: Payload)
      requires Valid()
      modifies this`rows, this`nextId, this`trimmed
      ensures Valid()
      ensures View() == Enqueue(old(View()), payload)
    {
      rows := rows + [Row(nextId, payload)];
      nextId := nextId + 1;
      var count := |rows|;
      if count > maxEvents {
        var overflow := count - maxEvents;
        trimmed := trimmed + Events(rows[..overflow]);
        rows := rows[overflow..];
      }
    }

    ghost predicate Valid()
      reads this
    {
      ValidRows(rows, nextId)
    }

    /** Delete the row with this id. */
    method Remove(id: nat)
      modifies this`rows
      ensures rows == DeleteId(old(rows), id)
    {
      rows := DeleteId(rows, id);
    }

    /** Remove the row if it is an event that `eventId` names. */
    method RemoveIfNamed(row: Row, eventId: string)
      modifies this`rows
      ensures rows == if Names(row, eventId) then DeleteId(old(rows), row.id) else old(rows)
    {
      if row.payload.EventPayload? {
        if ComparedId(row.payload.event) == eventId {
          Remove(row.id);
        }
      }
    }

    method RemoveNamed(all: seq<Row>, eventId: string)
      requires rows == all && Increasing(all) && eventId != ""
      modifies this`rows
      ensures rows == HalfDeleted(all, |all|, eventId)
    {
      DeletionEnds(all, eventId);
      var i := 0;
      while i < |all|
        invariant 0 <= i <= |all| && rows == HalfDeleted(all, i, eventId)
      {
        DeleteStep(all, i, eventId);
        RemoveIfNamed(all[i], eventId);
        i := i + 1;
      }
    }

    /** Read all rows, then remove each event that matches by its row id. */
    method RemoveByEventId(eventId: string)
      requires Valid()
      modifies this`rows, this`superseded
      ensures Valid()
      ensures rows == DeleteEvent(old(rows), eventId)
      ensures superseded == old(superseded) + DeletedEvents(old(rows), eventId)
    {
      superseded := superseded + DeletedEvents(rows, eventId);
      if eventId == "" { return; }
      var all := rows;
      DeletionEnds(all, eventId);
      DeletionKeepsValid(all, eventId, nextId);
      RemoveNamed(all, eventId);
    }

    /** One entry of the flush: clear it, or stop at it. */
    method FlushEntry(entry: Row, answer: Answer) returns (stop: bool)
      modifies this`rows, this`delivered, this`whitelisted
      ensures stop == Stops(entry, answer)
      ensures View() == if stop then old(View())
                        else Cleared(old(View()), entry, answer).(rows := DeleteId(old(rows), entry.id))
    {
      if entry.payload.EventPayload? && answer == Whitelisted {
        whitelisted := whitelisted + [entry.payload.event];
      } else if !entry.payload.UnknownPayload? {
        if answer == Fails { return true; }
        if entry.payload.EventPayload? {
          delivered := delivered + [entry.payload.event];
        }
      }
      Remove(entry.id);
      return false;
    }

    method FlushBuffer(answers: seq<Answer>)
      requires |answers| == |rows| && Valid()
      modifies this`rows, this`delivered, this`whitelisted
      ensures Valid()
      ensures View() == Flush(old(View()), answers)
    {
      var pending := rows;
      ghost var start := View();
      var i := 0;
      while i < |pending|
        invariant 0 <= i <= |pending| && View() == HalfFlushed(start, answers, i)
        invariant forall j :: 0 <= j < i ==> !Stops(pending[j], answers[j])
      {
        ClearOneMore(start, answers, i);
        var stop := FlushEntry(pending[i], answers[i]);
        if stop { break; }
        i := i + 1;
      }
      FlushEnds(start, answers, i);
      SuffixIsValid(pending, i, nextId);
    }

    /** One event of the upload: suppress it, deliver it, or buffer it. */
    method UploadEvent(event: Event, answer: Answer)
      requires Valid()
      modifies this
      ensures Valid() && View() == UploadOne(old(View()), event, answer)
    {
      produced := produced + [event];
      if answer == Whitelisted {
        whitelisted := whitelisted + [event];
      } else if answer == Fails {
        EnqueueRow(EventPayload(event));
      } else {
        delivered := delivered + [event];
        RemoveByEventId(UploadId(event));
      }
    }

    method UploadPendingEvents(events: seq<Event>, answers: seq<Answer>)
      requires |answers| == |events| && Valid()
      modifies this
      ensures Valid()
      ensures View() == Upload(old(View()), events, answers)
    {
      var i := 0;
      while i < |events|
        invariant 0 <= i <= |events| && Valid()
        invariant View() == Upload(old(View()), events[..i], answers[..i])
      {
        assert events[..i + 1][..i] == events[..i] && answers[..i + 1][..i] == answers[..i];
        UploadEvent(events[i], answers[i]);
        i := i + 1;
      }
      assert events[..i] == events && answers[..i] == answers;
    }
  }
}
