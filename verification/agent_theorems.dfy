/** No event is lost silently: what every run of flush and upload cycles guarantees. */
module AgentTheorems {
  import opened Common
  import opened AgentUpload

  datatype Step =
    | FlushStep(flushAnswers: seq<Answer>)
    | UploadStep(events: seq<Event>, answers: seq<Answer>)
    | HealthFails

  predicate Enabled(s: State, step: Step) {
    match step
    case FlushStep(answers) => |answers| == |s.rows|
    case UploadStep(events, answers) => |answers| == |events|
    case HealthFails => true
  }

  function Next(s: State, step: Step): State {
    if !Enabled(s, step) then s else
    match step
    case FlushStep(answers) => Flush(s, answers)
    case UploadStep(events, answers) => Upload(s, events, answers)
    case HealthFails => Enqueue(s, HealthPayload)
  }

  function After(s: State, steps: seq<Step>): State {
    if steps == [] then s else Next(After(s, steps[..|steps| - 1]), steps[|steps| - 1])
  }

  function Start(maxEvents: nat): State {
    State([], 1, maxEvents, [], [], [], [], [])
  }

  predicate RowsOk(s: State) {
    Increasing(s.rows) && (forall i :: 0 <= i < |s.rows| ==> s.rows[i].id < s.nextId) && |s.rows| <= s.maxEvents
  }

  /** Every produced event, counted with repetition, is in exactly one place: delivered, suppressed
      by the whitelist, still buffered, trimmed by the capacity limit, or removed from the buffer
      when an event of its id was delivered. */
  ghost predicate Conserved(s: State) {
    multiset(s.produced) == Booked(s) + Stored(s) + multiset(s.superseded)
  }

  /** The events delivered or suppressed. */
  function Booked(s: State): multiset<Event> {
    multiset(s.delivered) + multiset(s.whitelisted)
  }

  /** The events that were buffered and have neither left for good nor been superseded. */
  function Stored(s: State): multiset<Event> {
    multiset(Events(s.rows)) + multiset(s.trimmed)
  }

  /** `e` was removed for a delivered event that its id is compared equal to. */
  ghost predicate HasSuccessor(delivered: seq<Event>, e: Event) {
    exists d :: d in delivered && UploadId(d) != "" && UploadId(d) == ComparedId(e)
  }

  ghost predicate Explained(s: State) {
    forall e :: e in s.superseded ==> HasSuccessor(s.delivered, e)
  }

  ghost predicate Inv(s: State) {
    RowsOk(s) && Conserved(s) && Explained(s)
  }

  lemma ExplainedGrows(s: State, t: State)
    requires Explained(s) && s.delivered <= t.delivered && t.superseded == s.superseded
    ensures Explained(t)
  {
    forall e | e in t.superseded ensures HasSuccessor(t.delivered, e) {
      var d :| d in s.delivered && UploadId(d) != "" && UploadId(d) == ComparedId(e);
      assert d in t.delivered;
    }
  }

  // ---- events of rows -------------------------------------------------------------------

  function EventIn(payload: Payload): multiset<Event> {
    if payload.EventPayload? then multiset{payload.event} else multiset{}
  }

  lemma EventsOneMore(rows: seq<Row>, row: Row)
    ensures Events(rows + [row]) ==
      if row.payload.EventPayload? then Events(rows) + [row.payload.event] else Events(rows)
  {
    assert (rows + [row])[..|rows|] == rows;
  }

  lemma BagOneMore(rows: seq<Row>, row: Row)
    ensures multiset(Events(rows + [row])) == multiset(Events(rows)) + EventIn(row.payload)
  {
    EventsOneMore(rows, row);
  }

  lemma BagOfPrefix(rows: seq<Row>, k: nat)
    requires 0 < k <= |rows|
    ensures multiset(Events(rows[..k])) == multiset(Events(rows[..k - 1])) + EventIn(rows[k - 1].payload)
  {
    assert rows[..k] == rows[..k - 1] + [rows[k - 1]];
    BagOneMore(rows[..k - 1], rows[k - 1]);
  }

  lemma {:induction false} EventsAppend(a: seq<Row>, b: seq<Row>)
    ensures Events(a + b) == Events(a) + Events(b)
  {
    if b == [] {
      assert a + b == a;
    } else {
      var front, last := b[..|b| - 1], b[|b| - 1];
      EventsAppend(a, front);
      EventsOneMore(a + front, last);
      assert a + b == (a + front) + [last];
    }
  }

  lemma EventsOfFirst(row: Row, rest: seq<Row>)
    ensures multiset(Events([row] + rest)) == multiset(Events(rest)) + EventIn(row.payload)
  {
    EventsAppend([row], rest);
    BagOneMore([], row);
    assert [] + [row] == [row];
  }

  /** Deleting by event id splits the buffered events into the kept and the deleted ones. */
  lemma {:induction false} DeletionSplits(rows: seq<Row>, eventId: string)
    ensures multiset(Events(rows))
         == multiset(Events(DeleteEvent(rows, eventId))) + multiset(DeletedEvents(rows, eventId))
  {
    if rows != [] && eventId != "" {
      var row, rest := rows[0], rows[1..];
      DeletionSplits(rest, eventId);
      EventsOfFirst(row, rest);
      assert rows == [row] + rest;
      if !Names(row, eventId) {
        EventsOfFirst(row, DeleteEvent(rest, eventId));
      }
    }
  }

  lemma CutSplits(rows: seq<Row>, k: nat)
    requires k <= |rows|
    ensures multiset(Events(rows)) == multiset(Events(rows[..k])) + multiset(Events(rows[k..]))
  {
    assert rows == rows[..k] + rows[k..];
    EventsAppend(rows[..k], rows[k..]);
  }

  // ---- enqueue --------------------------------------------------------------------------

  lemma MovedToLedger(all: seq<Row>, k: nat, ledger: seq<Event>)
    requires k <= |all|
    ensures multiset(Events(all[k..])) + multiset(ledger + Events(all[..k])) == multiset(Events(all)) + multiset(ledger)
  {
    CutSplits(all, k);
  }

  lemma EnqueueStores(s: State, payload: Payload)
    ensures Stored(Enqueue(s, payload)) == Stored(s) + EventIn(payload)
  {
    var row := Row(s.nextId, payload);
    MovedToLedger(s.rows + [row], Overflow(s), s.trimmed);
    BagOneMore(s.rows, row);
  }

  lemma EnqueueRowsOk(s: State, payload: Payload)
    requires RowsOk(s)
    ensures RowsOk(Enqueue(s, payload))
  {}

  // ---- flush ------------------------------------------------------------------------------

  lemma {:induction false} ClearedLedgers(s: State, answers: seq<Answer>, k: nat)
    requires k <= |s.rows| == |answers|
    ensures var t := ClearedUpTo(s, s.rows, answers, k);
      && t == s.(delivered := t.delivered, whitelisted := t.whitelisted)
      && s.delivered <= t.delivered && s.whitelisted <= t.whitelisted
    ensures forall i :: 0 <= i < k && s.rows[i].payload.EventPayload? ==>
      s.rows[i].payload.event in ClearedUpTo(s, s.rows, answers, k).delivered
      || s.rows[i].payload.event in ClearedUpTo(s, s.rows, answers, k).whitelisted
  {
    if k > 0 { ClearedLedgers(s, answers, k - 1); }
  }

  lemma ClearedBooks(s: State, row: Row, answer: Answer)
    ensures Booked(Cleared(s, row, answer)) == Booked(s) + EventIn(row.payload)
  {}

  /** Clearing the first `k` entries books exactly their events. */
  lemma {:induction false} ClearedMoves(s: State, answers: seq<Answer>, k: nat)
    requires k <= |s.rows| == |answers|
    ensures Booked(ClearedUpTo(s, s.rows, answers, k)) == Booked(s) + multiset(Events(s.rows[..k]))
  {
    if k > 0 {
      ClearedMoves(s, answers, k - 1);
      ClearedBooks(ClearedUpTo(s, s.rows, answers, k - 1), s.rows[k - 1], answers[k - 1]);
      BagOfPrefix(s.rows, k);
    }
  }

  lemma FlushKeepsInv(s: State, answers: seq<Answer>)
    requires Inv(s) && |answers| == |s.rows|
    ensures Inv(Flush(s, answers))
  {
    var k, t := StopAt(s.rows, answers), Flush(s, answers);
    ClearedLedgers(s, answers, k);
    ClearedMoves(s, answers, k);
    CutSplits(s.rows, k);
    ExplainedGrows(s, t);
  }

  /** A flush consumes a prefix of the FIFO buffer and leaves exactly the suffix that starts at the
      first entry that fails; everything in the prefix was delivered, whitelisted, or no event. */
  lemma FlushConsumesPrefix(s: State, answers: seq<Answer>)
    requires |answers| == |s.rows|
    ensures var k, t := StopAt(s.rows, answers), Flush(s, answers);
      && t.rows == s.rows[k..]
      && (k < |s.rows| <==> exists i :: 0 <= i < |s.rows| && Stops(s.rows[i], answers[i]))
      && (t.rows != [] ==> Stops(t.rows[0], answers[k]))
      && (forall i :: 0 <= i < k && s.rows[i].payload.EventPayload? ==>
            s.rows[i].payload.event in t.delivered || s.rows[i].payload.event in t.whitelisted)
  {
    ClearedLedgers(s, answers, StopAt(s.rows, answers));
  }

  // ---- upload -------------------------------------------------------------------------------

  lemma DeliveryKeepsConserved(s: State, e: Event, answer: Answer)
    requires Conserved(s) && (answer.ByMqtt? || answer.ByHttp?)
    ensures Conserved(UploadOne(s, e, answer))
  {
    DeletionSplits(s.rows, UploadId(e));
  }

  lemma BufferingKeepsConserved(s: State, e: Event)
    requires Conserved(s)
    ensures Conserved(UploadOne(s, e, Fails))
  {
    var seen := s.(produced := s.produced + [e]);
    EnqueueStores(seen, EventPayload(e));
    assert Stored(seen) == Stored(s);
  }

  lemma UploadOneRowsOk(s: State, e: Event, answer: Answer)
    requires RowsOk(s)
    ensures RowsOk(UploadOne(s, e, answer))
  {
    if answer.Fails? {
      EnqueueRowsOk(s.(produced := s.produced + [e]), EventPayload(e));
    } else if !answer.Whitelisted? {
      var kept := DeleteEvent(s.rows, UploadId(e));
      DeletionKeepsOrder(s.rows, UploadId(e));
      forall i | 0 <= i < |kept| ensures kept[i].id < s.nextId {
        DeleteEventKeeps(s.rows, UploadId(e), kept[i]);
      }
      DeleteEventShrinks(s.rows, UploadId(e));
    }
  }

  lemma {:induction false} DeleteEventShrinks(rows: seq<Row>, eventId: string)
    ensures |DeleteEvent(rows, eventId)| <= |rows|
  {
    if rows != [] && eventId != "" { DeleteEventShrinks(rows[1..], eventId); }
  }

  lemma UploadOneExplained(s: State, e: Event, answer: Answer)
    requires Explained(s)
    ensures Explained(UploadOne(s, e, answer))
  {
    var t := UploadOne(s, e, answer);
    ExplainedGrows(s, s.(delivered := t.delivered));
    forall x | x in t.superseded ensures HasSuccessor(t.delivered, x) {
      if x !in s.superseded { assert e in t.delivered; }
    }
  }

  lemma UploadOneKeepsInv(s: State, e: Event, answer: Answer)
    requires Inv(s)
    ensures Inv(UploadOne(s, e, answer))
  {
    UploadOneRowsOk(s, e, answer);
    UploadOneExplained(s, e, answer);
    match answer
    case Whitelisted =>
    case Fails => BufferingKeepsConserved(s, e);
    case _ => DeliveryKeepsConserved(s, e, answer);
  }

  /** A buffered row outlives the delivery of `d` if and only if its id is not compared equal to a
      nonempty id of `d`. */
  lemma StaysBufferedIff(s: State, d: Event, answer: Answer, row: Row)
    requires (answer.ByMqtt? || answer.ByHttp?) && row in s.rows && row.payload.EventPayload?
    ensures row in UploadOne(s, d, answer).rows <==>
      UploadId(d) == "" || UploadId(d) != ComparedId(row.payload.event)
  {
    DeleteEventKeeps(s.rows, UploadId(d), row);
  }

  /** In particular a buffered event without an id stays, in every state, if and only if the delivered
      event is not named by the word None. */
  lemma MissingIdStaysIff(s: State, d: Event, answer: Answer, row: Row)
    requires (answer.ByMqtt? || answer.ByHttp?) && row in s.rows
    requires row.payload.EventPayload? && row.payload.event.eventId.None?
    ensures row in UploadOne(s, d, answer).rows <==> d.eventId != Some("None")
  {
    StaysBufferedIff(s, d, answer, row);
  }

  // ---- runs -----------------------------------------------------------------------------------

  lemma {:induction false} UploadKeepsInv(s: State, events: seq<Event>, answers: seq<Answer>)
    requires Inv(s) && |answers| == |events|
    ensures Inv(Upload(s, events, answers))
  {
    if events != [] {
      var n := |events| - 1;
      UploadKeepsInv(s, events[..n], answers[..n]);
      UploadOneKeepsInv(Upload(s, events[..n], answers[..n]), events[n], answers[n]);
    }
  }

  lemma StepKeepsInv(s: State, step: Step)
    requires Inv(s)
    ensures Inv(Next(s, step))
  {
    if Enabled(s, step) {
      match step
      case FlushStep(answers) => FlushKeepsInv(s, answers);
      case UploadStep(events, answers) => UploadKeepsInv(s, events, answers);
      case HealthFails =>
        EnqueueRowsOk(s, HealthPayload);
        EnqueueStores(s, HealthPayload);
        ExplainedGrows(s, Enqueue(s, HealthPayload));
    }
  }

  lemma {:induction false} RunKeepsInv(maxEvents: nat, steps: seq<Step>)
    ensures Inv(After(Start(maxEvents), steps))
  {
    if steps != [] {
      RunKeepsInv(maxEvents, steps[..|steps| - 1]);
      StepKeepsInv(After(Start(maxEvents), steps[..|steps| - 1]), steps[|steps| - 1]);
    }
  }

  /** Across any run with arbitrary failures every produced event, counted with repetition, has
      exactly one fate, so nothing is delivered twice; and one that was superseded has a delivered
      event of the same event_id, or, if it has none, a delivered event whose id is the word None. */
  lemma EventsAreConserved(maxEvents: nat, steps: seq<Step>)
    ensures Conserved(After(Start(maxEvents), steps))
    ensures var s := After(Start(maxEvents), steps);
      multiset(s.delivered) <= multiset(s.produced)
      && forall e :: e in s.superseded ==>
           exists d :: d in s.delivered && d.eventId == if e.eventId.Some? then e.eventId else Some("None")
  {
    RunKeepsInv(maxEvents, steps);
    var s := After(Start(maxEvents), steps);
    forall e | e in s.superseded
      ensures exists d :: d in s.delivered && d.eventId == if e.eventId.Some? then e.eventId else Some("None")
    {
      var d :| d in s.delivered && UploadId(d) != "" && UploadId(d) == ComparedId(e);
    }
  }

  predicate Buffered(s: State, e: Event) {
    exists row :: row in s.rows && row.payload == EventPayload(e)
  }

  /** So every event a tailer produced is delivered, was whitelisted, is still buffered, was trimmed by
      the capacity limit, or was removed when an event carrying the same event_id was delivered. Only
      for an event without any event_id can that other event be a different one. */
  lemma NoSilentLoss(maxEvents: nat, steps: seq<Step>, e: Event)
    requires e in After(Start(maxEvents), steps).produced
    ensures var s := After(Start(maxEvents), steps);
      || e in s.delivered || e in s.whitelisted || Buffered(s, e) || e in s.trimmed
      || exists d :: d in s.delivered && d.eventId == if e.eventId.Some? then e.eventId else Some("None")
  {
    EventsAreConserved(maxEvents, steps);
    var s := After(Start(maxEvents), steps);
    assert e in multiset(s.produced);
    EventsHold(s.rows, e);
    if e in Events(s.rows) {
      var i :| 0 <= i < |s.rows| && s.rows[i].payload == EventPayload(e);
      assert s.rows[i] in s.rows;
    }
  }

  /** Trimming happens only when an insert finds the buffer full, and then takes the oldest rows. */
  lemma TrimsOnlyWhenFull(s: State, payload: Payload)
    requires RowsOk(s) && s.maxEvents > 0
    ensures var t := Enqueue(s, payload);
      if |s.rows| < s.maxEvents then t.trimmed == s.trimmed && t.rows == s.rows + [Row(s.nextId, payload)]
      else t.trimmed == s.trimmed + Events(s.rows[..1]) && t.rows == s.rows[1..] + [Row(s.nextId, payload)]
  {
    var all := s.rows + [Row(s.nextId, payload)];
    assert |s.rows| == s.maxEvents ==> all[..1] == s.rows[..1] && all[1..] == s.rows[1..] + [Row(s.nextId, payload)];
  }

  /** The one leak: a buffered event without an event_id is dropped, undelivered, when an event
      whose id is the word None is delivered. */
  lemma MissingIdCanBeDropped()
    ensures var lost, other := Event(0, None), Event(1, Some("None"));
      var s := After(Start(10), [UploadStep([lost], [Fails]), UploadStep([other], [ByHttp])]);
      lost in s.produced && lost !in s.delivered && lost !in s.whitelisted && lost !in s.trimmed && !Buffered(s, lost)
  {
    var lost, other := Event(0, None), Event(1, Some("None"));
    var first, second := UploadStep([lost], [Fails]), UploadStep([other], [ByHttp]);
    assert [first, second][..1] == [first] && [first][..0] == [];
    var s0 := Start(10);
    SingleUpload(s0, lost, Fails);
    var s1 := UploadOne(s0, lost, Fails);
    assert After(s0, [first]) == s1 && s1.rows == [Row(1, EventPayload(lost))];
    SingleUpload(s1, other, ByHttp);
    var s2 := UploadOne(s1, other, ByHttp);
    assert After(s0, [first, second]) == s2;
    assert Names(s1.rows[0], "None");
    assert s2.rows == DeleteEvent(s1.rows[1..], "None") == [];
  }

  lemma SingleUpload(s: State, e: Event, answer: Answer)
    ensures Upload(s, [e], [answer]) == UploadOne(s, e, answer)
  {
    assert [e][..0] == [] && [answer][..0] == [];
  }
}
