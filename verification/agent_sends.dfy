/** What a flush and an upload send, suppress and keep, read off the rows, the events and the answers alone. */
module AgentSends {
  import opened Common
  import opened AgentUpload
  import opened AgentTheorems

  /** MQTT or HTTP has acknowledged. */
  predicate Sent(answer: Answer) {
    answer == ByMqtt || answer == ByHttp
  }

  /** Neither a suppression nor a send: this entry cannot go, and is one that could. */
  predicate Failed(row: Row, answer: Answer) {
    answer == Fails && (row.payload.EventPayload? || row.payload == HealthPayload)
  }

  /** The rows a flush leaves, the events it sends, and those it suppresses. */
  function Leaves(rows: seq<Row>, answers: seq<Answer>): seq<Row>
    requires |rows| == |answers|
  {
    if rows == [] || Failed(rows[0], answers[0]) then rows else Leaves(rows[1..], answers[1..])
  }

  function Sends(rows: seq<Row>, answers: seq<Answer>): seq<Event>
    requires |rows| == |answers|
  {
    if rows == [] || Failed(rows[0], answers[0]) then []
    else if rows[0].payload.EventPayload? && Sent(answers[0]) then
      [rows[0].payload.event] + Sends(rows[1..], answers[1..])
    else Sends(rows[1..], answers[1..])
  }

  function Suppresses(rows: seq<Row>, answers: seq<Answer>): seq<Event>
    requires |rows| == |answers|
  {
    if rows == [] || Failed(rows[0], answers[0]) then []
    else if rows[0].payload.EventPayload? && answers[0] == Whitelisted then
      [rows[0].payload.event] + Suppresses(rows[1..], answers[1..])
    else Suppresses(rows[1..], answers[1..])
  }

  /** The first failing entry, where a flush stops. */
  lemma FlushStopsAtFailure(s: State, answers: seq<Answer>) returns (k: nat)
    requires |answers| == |s.rows|
    ensures k <= |s.rows| && Flush(s, answers).rows == s.rows[k..]
    ensures k < |s.rows| ==> Failed(s.rows[k], answers[k])
    ensures forall i :: 0 <= i < k ==> !Failed(s.rows[i], answers[i])
  {
    k := StopAt(s.rows, answers);
    ClearedLedgers(s, answers, k);
  }

  /** A flush keeps row `i` if and only if it, or one before it, is an event or a health report that
      neither MQTT nor HTTP took and the whitelist did not suppress. */
  lemma FlushKeepsIff(s: State, answers: seq<Answer>, i: nat)
    requires |answers| == |s.rows| && i < |s.rows| && Increasing(s.rows)
    ensures s.rows[i] in Flush(s, answers).rows <==> exists j :: 0 <= j <= i && Failed(s.rows[j], answers[j])
  {
    var k := FlushStopsAtFailure(s, answers);
    if i >= k {
      assert s.rows[k..][i - k] == s.rows[i];
    } else {
      forall j | 0 <= j < |s.rows[k..]| ensures s.rows[k..][j] != s.rows[i] {
        assert s.rows[k..][j].id == s.rows[k + j].id;
      }
    }
  }

  lemma {:induction false} LeavesFrom(rows: seq<Row>, answers: seq<Answer>, k: nat)
    requires |answers| == |rows| && k <= |rows| && (k < |rows| ==> Failed(rows[k], answers[k]))
    requires forall i :: 0 <= i < k ==> !Failed(rows[i], answers[i])
    ensures Leaves(rows, answers) == rows[k..]
    ensures Sends(rows, answers) == Sends(rows[..k], answers[..k])
    ensures Suppresses(rows, answers) == Suppresses(rows[..k], answers[..k])
    decreases k
  {
    if k == 0 {
      assert rows[0..] == rows;
    } else {
      LeavesFrom(rows[1..], answers[1..], k - 1);
      assert rows[1..][k - 1..] == rows[k..];
      assert rows[..k][1..] == rows[1..][..k - 1] && answers[..k][1..] == answers[1..][..k - 1];
    }
  }

  /** One entry more that does not fail. */
  lemma {:induction false} SendsOneMore(rows: seq<Row>, answers: seq<Answer>, row: Row, answer: Answer)
    requires |rows| == |answers| && !Failed(row, answer)
    requires forall i :: 0 <= i < |rows| ==> !Failed(rows[i], answers[i])
    ensures Sends(rows + [row], answers + [answer])
         == if row.payload.EventPayload? && Sent(answer) then Sends(rows, answers) + [row.payload.event]
            else Sends(rows, answers)
    ensures Suppresses(rows + [row], answers + [answer])
         == if row.payload.EventPayload? && answer == Whitelisted then Suppresses(rows, answers) + [row.payload.event]
            else Suppresses(rows, answers)
  {
    if rows == [] {
      assert [] + [row] == [row] && [] + [answer] == [answer] && [row][1..] == [] && [answer][1..] == [];
    } else {
      SendsOneMore(rows[1..], answers[1..], row, answer);
      assert (rows + [row])[1..] == rows[1..] + [row] && (answers + [answer])[1..] == answers[1..] + [answer];
    }
  }

  lemma {:induction false} ClearedSends(s: State, answers: seq<Answer>, k: nat)
    requires k <= |s.rows| == |answers| && forall i :: 0 <= i < k ==> !Failed(s.rows[i], answers[i])
    ensures var t := ClearedUpTo(s, s.rows, answers, k);
      && t.delivered == s.delivered + Sends(s.rows[..k], answers[..k])
      && t.whitelisted == s.whitelisted + Suppresses(s.rows[..k], answers[..k])
  {
    if k > 0 {
      ClearedSends(s, answers, k - 1);
      SendsOneMore(s.rows[..k - 1], answers[..k - 1], s.rows[k - 1], answers[k - 1]);
      assert s.rows[..k] == s.rows[..k - 1] + [s.rows[k - 1]] && answers[..k] == answers[..k - 1] + [answers[k - 1]];
    }
  }

  /** A flush leaves the rows from the first failing one on, books as delivered exactly the events before
      it that MQTT or HTTP acknowledged, and as suppressed those that the whitelist named. */
  lemma FlushIs(s: State, answers: seq<Answer>)
    requires |answers| == |s.rows|
    ensures var t := Flush(s, answers);
      && t.rows == Leaves(s.rows, answers)
      && t.delivered == s.delivered + Sends(s.rows, answers)
      && t.whitelisted == s.whitelisted + Suppresses(s.rows, answers)
      && t.produced == s.produced && t.trimmed == s.trimmed && t.superseded == s.superseded
  {
    var k := StopAt(s.rows, answers);
    forall i | 0 <= i < k ensures !Failed(s.rows[i], answers[i]) { assert !Stops(s.rows[i], answers[i]); }
    ClearedLedgers(s, answers, k);
    ClearedSends(s, answers, k);
    LeavesFrom(s.rows, answers, k);
  }

  // ---- upload -------------------------------------------------------------------------------

  /** The events of an upload that were acknowledged, and those that were suppressed. */
  function Uploaded(events: seq<Event>, answers: seq<Answer>): seq<Event>
    requires |events| == |answers|
  {
    if events == [] then []
    else
      var n := |events| - 1;
      if Sent(answers[n]) then Uploaded(events[..n], answers[..n]) + [events[n]]
      else Uploaded(events[..n], answers[..n])
  }

  function Silenced(events: seq<Event>, answers: seq<Answer>): seq<Event>
    requires |events| == |answers|
  {
    if events == [] then []
    else
      var n := |events| - 1;
      if answers[n] == Whitelisted then Silenced(events[..n], answers[..n]) + [events[n]]
      else Silenced(events[..n], answers[..n])
  }

  /** An upload books every event as produced, as delivered exactly those acknowledged, and as suppressed
      exactly those that the whitelist named. */
  lemma {:induction false} UploadIs(s: State, events: seq<Event>, answers: seq<Answer>)
    requires |events| == |answers|
    ensures var t := Upload(s, events, answers);
      && t.produced == s.produced + events
      && t.delivered == s.delivered + Uploaded(events, answers)
      && t.whitelisted == s.whitelisted + Silenced(events, answers)
  {
    if events != [] {
      var n := |events| - 1;
      UploadIs(s, events[..n], answers[..n]);
      assert events == events[..n] + [events[n]];
    }
  }

  /** An event that could not be sent is the newest row of the buffer, if the buffer holds anything. */
  lemma FailedIsBuffered(s: State, e: Event)
    requires RowsOk(s) && s.maxEvents > 0
    ensures var t := UploadOne(s, e, Fails);
      t.rows != [] && t.rows[|t.rows| - 1] == Row(s.nextId, EventPayload(e)) && t.nextId == s.nextId + 1
  {}

  // ---- runs -----------------------------------------------------------------------------------

  /** What one step sends. */
  function SentIn(s: State, step: Step): seq<Event> {
    if !Enabled(s, step) then []
    else match step
      case FlushStep(answers) => Sends(s.rows, answers)
      case UploadStep(events, answers) => Uploaded(events, answers)
      case HealthFails => []
  }

  function SentOver(s: State, steps: seq<Step>): seq<Event> {
    if steps == [] then []
    else
      var n := |steps| - 1;
      SentOver(s, steps[..n]) + SentIn(After(s, steps[..n]), steps[n])
  }

  lemma StepSends(s: State, step: Step)
    ensures Next(s, step).delivered == s.delivered + SentIn(s, step)
  {
    if Enabled(s, step) {
      match step
      case FlushStep(answers) => FlushIs(s, answers);
      case UploadStep(events, answers) => UploadIs(s, events, answers);
      case HealthFails =>
    }
  }

  /** Over any run what is booked as delivered is exactly what MQTT or HTTP acknowledged, in order. */
  lemma {:induction false} DeliveredWasSent(s: State, steps: seq<Step>)
    ensures After(s, steps).delivered == s.delivered + SentOver(s, steps)
  {
    if steps != [] {
      var n := |steps| - 1;
      DeliveredWasSent(s, steps[..n]);
      StepSends(After(s, steps[..n]), steps[n]);
    }
  }
}
