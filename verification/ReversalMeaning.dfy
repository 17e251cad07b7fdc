/**
 * What the reversal log says, in terms of its events alone: which logs replay, what each
 * record then holds, which calls succeed on it, and what they write.
 */
module ReversalMeaning {
  import opened Prelude
  import opened Json
  import opened ReversalEvents
  import opened ReversalStore
  import opened ReversalOperations
  import I = Iso8583
  import T = JsonText

  // ----- the log -----

  predicate QueuedAt(events: seq<Event>, i: nat, id: string) {
    i < |events| && events[i].Queued? && events[i].intent.id == id
  }

  predicate CompletedAt(events: seq<Event>, i: nat, id: string) {
    i < |events| && events[i].Completed? && events[i].id == id
  }

  predicate AttemptedAt(events: seq<Event>, i: nat, id: string) {
    i < |events| && events[i].Attempted? && events[i].id == id
  }

  predicate FailedAt(events: seq<Event>, i: nat, id: string) {
    i < |events| && events[i].Failed? && events[i].id == id
  }

  ghost predicate IsQueued(events: seq<Event>, id: string) {
    exists i: nat :: QueuedAt(events, i, id)
  }

  ghost predicate IsCompleted(events: seq<Event>, id: string) {
    exists i: nat :: CompletedAt(events, i, id)
  }

  /** An event may stand after `before`: queued once, then named, and only completed again after a completion. */
  ghost predicate MayFollow(before: seq<Event>, e: Event) {
    if e.Queued? then !IsQueued(before, e.intent.id)
    else IsQueued(before, e.id) && (IsCompleted(before, e.id) ==> e.Completed?)
  }

  ghost predicate Lawful(events: seq<Event>) {
    forall i :: 0 <= i < |events| ==> MayFollow(events[..i], events[i])
  }

  lemma LawfulStep(events: seq<Event>)
    requires events != []
    ensures var n := |events| - 1; Lawful(events) <==> Lawful(events[..n]) && MayFollow(events[..n], events[n])
  {
    var n := |events| - 1;
    assert forall i :: 0 <= i < n ==> events[..n][..i] == events[..i] && events[..n][i] == events[i];
    if Lawful(events) {
      forall i | 0 <= i < n ensures MayFollow(events[..n][..i], events[..n][i]) { assert MayFollow(events[..i], events[i]); }
    }
    if Lawful(events[..n]) && MayFollow(events[..n], events[n]) {
      forall i | 0 <= i < |events| ensures MayFollow(events[..i], events[i]) {
        if i < n { assert MayFollow(events[..n][..i], events[..n][i]); }
      }
    }
  }

  lemma QueuedMentions(events: seq<Event>, id: string)
    ensures IsQueued(events, id) <==> Mentions(events, id, false)
    ensures IsCompleted(events, id) <==> Mentions(events, id, true)
  {
    if IsQueued(events, id) {
      var i: nat :| QueuedAt(events, i, id);
      assert IdOf(events[i]) == id;
    }
    if IsCompleted(events, id) {
      var i: nat :| CompletedAt(events, i, id);
      assert IdOf(events[i]) == id;
    }
    if Mentions(events, id, false) {
      var i :| 0 <= i < |events| && IdOf(events[i]) == id && events[i].Queued?;
      assert QueuedAt(events, i, id);
    }
    if Mentions(events, id, true) {
      var i :| 0 <= i < |events| && IdOf(events[i]) == id && events[i].Completed?;
      assert CompletedAt(events, i, id);
    }
  }

  lemma RecordsSay(events: seq<Event>, id: string)
    requires Replay(events).Ok?
    ensures id in Replay(events).value <==> IsQueued(events, id)
    ensures id in Replay(events).value ==> (Replay(events).value[id].status.Done? <==> IsCompleted(events, id))
  {
    ReplayMeans(events, id);
    QueuedMentions(events, id);
  }

  /** A log replays exactly when it is lawful. */
  lemma {:induction false} ReplayDecides(events: seq<Event>)
    ensures Replay(events).Ok? <==> Lawful(events)
  {
    if events != [] {
      var n := |events| - 1;
      ReplayDecides(events[..n]);
      LawfulStep(events);
      if Replay(events[..n]).Ok? { RecordsSay(events[..n], IdOf(events[n])); }
    }
  }

  // ----- what a record holds -----

  function AttemptPlaces(events: seq<Event>, id: string): set<nat> {
    set i: nat | i < |events| && AttemptedAt(events, i, id)
  }

  lemma {:induction false} AttemptsCounted(events: seq<Event>, id: string)
    ensures CountAttempts(events, id) == |AttemptPlaces(events, id)|
  {
    if events == [] {
      assert AttemptPlaces(events, id) == {};
    } else {
      var n := |events| - 1;
      AttemptsCounted(events[..n], id);
      assert AttemptPlaces(events, id) ==
        if AttemptedAt(events, n, id) then AttemptPlaces(events[..n], id) + {n} else AttemptPlaces(events[..n], id);
    }
  }

  /** The last event about an id. */
  ghost predicate LastAbout(events: seq<Event>, i: nat, id: string) {
    i < |events| && IdOf(events[i]) == id && forall j :: i < j < |events| ==> IdOf(events[j]) != id
  }

  ghost predicate LastFailure(events: seq<Event>, i: nat, id: string) {
    FailedAt(events, i, id) && forall j: nat :: i < j ==> !FailedAt(events, j, id)
  }

  ghost predicate TextsMean(events: seq<Event>, id: string, record: Record) {
    && (forall i: nat :: QueuedAt(events, i, id) ==> record.intent == events[i].intent && record.createdAt == events[i].ts)
    && (forall i: nat :: LastAbout(events, i, id) ==> record.updatedAt == events[i].ts)
    && (forall i: nat :: LastFailure(events, i, id) ==> record.lastError == Some(events[i].error))
    && ((forall i: nat :: !FailedAt(events, i, id)) ==> record.lastError.None?)
  }

  lemma TextsStep(events: seq<Event>, id: string, before: Record, after: Record)
    requires events != []
    requires TextsMean(events[..|events| - 1], id, before)
    requires var e := events[|events| - 1];
      if IdOf(e) == id then !e.Queued? && after == Change(before, e) else after == before
    ensures TextsMean(events, id, after)
  {
    var n := |events| - 1;
    var front, e := events[..n], events[n];
    forall i: nat | i < n ensures front[i] == events[i] {}
    forall i: nat | QueuedAt(events, i, id) ensures after.intent == events[i].intent && after.createdAt == events[i].ts {
      assert QueuedAt(front, i, id);
    }
    forall i: nat | LastAbout(events, i, id) ensures after.updatedAt == events[i].ts {
      if i < n { assert LastAbout(front, i, id); }
    }
    forall i: nat | LastFailure(events, i, id) ensures after.lastError == Some(events[i].error) {
      if i < n {
        assert !FailedAt(events, n, id);
        forall j: nat | i < j ensures !FailedAt(front, j, id) { assert !FailedAt(events, j, id); }
        assert LastFailure(front, i, id);
      }
    }
    if forall i: nat :: !FailedAt(events, i, id) {
      forall i: nat ensures !FailedAt(front, i, id) { assert !FailedAt(events, i, id); }
      assert !FailedAt(events, n, id);
    }
  }

  lemma TextsStart(events: seq<Event>, id: string)
    requires events != [] && QueuedAt(events, |events| - 1, id)
    requires forall i :: 0 <= i < |events| - 1 ==> IdOf(events[i]) != id
    ensures var e := events[|events| - 1]; TextsMean(events, id, Record(e.intent, Outstanding, 0, e.ts, e.ts, None))
  {
    forall i: nat ensures !FailedAt(events, i, id) {
      if i < |events| - 1 { assert IdOf(events[i]) != id; }
    }
  }

  lemma {:induction false} NothingAbout(events: seq<Event>, id: string)
    requires Replay(events).Ok? && id !in Replay(events).value
    ensures forall i :: 0 <= i < |events| ==> IdOf(events[i]) != id
  {
    if events != [] {
      var n := |events| - 1;
      NothingAbout(events[..n], id);
      assert forall i :: 0 <= i < n ==> events[..n][i] == events[i];
    }
  }

  lemma {:induction false} TextsHold(events: seq<Event>, id: string)
    requires Replay(events).Ok? && id in Replay(events).value
    ensures TextsMean(events, id, Replay(events).value[id])
  {
    var n := |events| - 1;
    if IdOf(events[n]) == id && events[n].Queued? {
      NothingAbout(events[..n], id);
      assert forall i :: 0 <= i < n ==> events[..n][i] == events[i];
      TextsStart(events, id);
    } else {
      TextsHold(events[..n], id);
      TextsStep(events, id, Replay(events[..n]).value[id], Replay(events).value[id]);
    }
  }

  /**
   * What a replayed record holds: the intent and time it was queued with, whether it was
   * completed, how often it was attempted, the error of its last failure if there was one,
   * and the time of the last event about it.
   */
  lemma RecordMeans(events: seq<Event>, id: string)
    requires Replay(events).Ok?
    ensures id in Replay(events).value <==> IsQueued(events, id)
    ensures IsQueued(events, id) ==>
      var record := Replay(events).value[id];
      && TextsMean(events, id, record)
      && (record.status.Done? <==> IsCompleted(events, id))
      && record.attempts == |AttemptPlaces(events, id)|
  {
    RecordsSay(events, id);
    ReplayMeans(events, id);
    AttemptsCounted(events, id);
    if IsQueued(events, id) { TextsHold(events, id); }
  }

  // ----- which calls succeed -----

  function QueuedPlaces(events: seq<Event>): set<nat> {
    set i: nat | i < |events| && events[i].Queued?
  }

  lemma ApplyCounts(records: Records, e: Event)
    requires ApplyEvent(records, e).Ok?
    ensures |ApplyEvent(records, e).value| == |records| + if e.Queued? then 1 else 0
  {
    var after := ApplyEvent(records, e).value;
    assert after.Keys == if e.Queued? then records.Keys + {e.intent.id} else records.Keys;
    assert |after| == |after.Keys| && |records| == |records.Keys|;
  }

  lemma PlacesStep(events: seq<Event>)
    requires events != []
    ensures var n := |events| - 1;
      |QueuedPlaces(events)| == |QueuedPlaces(events[..n])| + if events[n].Queued? then 1 else 0
  {
    var n := |events| - 1;
    assert QueuedPlaces(events) == if events[n].Queued? then QueuedPlaces(events[..n]) + {n} else QueuedPlaces(events[..n]);
  }

  lemma {:induction false} RecordsCounted(events: seq<Event>)
    requires Replay(events).Ok?
    ensures |Replay(events).value| == |QueuedPlaces(events)|
  {
    if events == [] {
      assert QueuedPlaces(events) == {};
    } else {
      var n := |events| - 1;
      RecordsCounted(events[..n]);
      ApplyCounts(Replay(events[..n]).value, events[n]);
      PlacesStep(events);
    }
  }

  /** The event a call is there to record. */
  function EventOf(op: Op): Event {
    match op
    case Enqueue(ts, intent) => Queued(ts, intent)
    case BeginAttempt(ts, id) => Attempted(ts, id)
    case MarkFailed(ts, id, error) => Failed(ts, id, error)
    case MarkCompleted(ts, id) => Completed(ts, id)
  }

  /** It is recorded already: the same intent queued, or the completion made. */
  ghost predicate Recorded(events: seq<Event>, op: Op) {
    match op
    case Enqueue(_, intent) => exists i: nat :: QueuedAt(events, i, intent.id) && events[i].intent == intent
    case MarkCompleted(_, id) => IsCompleted(events, id)
    case _ => false
  }

  /** It may be recorded: a new intent within the record limit, or a step of one queued and not completed. */
  ghost predicate Recordable(limits: Limits, events: seq<Event>, op: Op) {
    match op
    case Enqueue(_, intent) => !IsQueued(events, intent.id) && |QueuedPlaces(events)| < limits.maxRecords
    case _ => IsQueued(events, op.id) && !IsCompleted(events, op.id)
  }

  /** There is room for it: the line, the file and the number of events stay within their limits. */
  ghost predicate Fits(limits: Limits, events: seq<Event>, e: Event) {
    && |T.AllUtf8(Print(EventJson(e)))| + 1 <= 8192
    && |T.AllUtf8(LogText(events))| + |T.AllUtf8(Print(EventJson(e)))| + 1 <= limits.maxFileBytes
    && |events| + 1 <= limits.maxEvents
  }

  lemma FitsExact(limits: Limits, events: seq<Event>, e: Event)
    ensures Fits(limits, events, e) <==> Room(limits, events, e)
  {
    T.ByteLengthExact(Print(EventJson(e)));
    T.ByteLengthExact(LogText(events));
    ByteLengthAppend(Print(EventJson(e)), "\n");
    assert ByteLength("\n") == 1;
  }

  lemma DecidesExact(limits: Limits, events: seq<Event>, op: Op)
    requires Replay(events).Ok?
    ensures var decided := Decide(limits, Replay(events).value, op);
      && (decided == Ok(None) <==> Recorded(events, op))
      && (decided.Ok? && decided.value.Some? <==> !Recorded(events, op) && Recordable(limits, events, op))
      && (decided.Ok? && decided.value.Some? ==> decided.value.value == EventOf(op))
  {
    var id := IdOf(EventOf(op));
    RecordMeans(events, id);
    RecordsCounted(events);
    if op.Enqueue? && IsQueued(events, id) {
      var i: nat :| QueuedAt(events, i, id);
      assert Replay(events).value[id].intent == events[i].intent;
    }
    if op.MarkCompleted? && IsCompleted(events, id) { CompletedQueued(events, id); }
  }

  lemma CompletedQueued(events: seq<Event>, id: string)
    requires Replay(events).Ok? && IsCompleted(events, id)
    ensures IsQueued(events, id)
  {
    ReplayMeans(events, id);
    QueuedMentions(events, id);
  }

  /** The call has something to write. */
  ghost predicate Appends(limits: Limits, events: seq<Event>, op: Op) {
    && Accepts(op) && !Recorded(events, op)
    && Recordable(limits, events, op) && Fits(limits, events, EventOf(op))
  }

  lemma AttemptDecides(parse: Parser, limits: Limits, events: seq<Event>, op: Op)
    requires ReadsEvents(parse) && GoodLog(limits, events) && Accepts(op)
    ensures var attempt := Attempt(parse, limits, LogText(events), op);
      && (attempt == Ok(None) <==> Recorded(events, op))
      && (Appends(limits, events, op) ==> attempt == Ok(Some(EventOf(op))))
      && (attempt.Ok? && attempt.value.Some? ==> Appends(limits, events, op))
  {
    DecidesExact(limits, events, op);
    FitsExact(limits, events, EventOf(op));
    AttemptMeans(parse, limits, events, op);
  }

  /**
   * One call on any recoverable file, from the events in effect alone. It succeeds exactly
   * when its argument is accepted and its event is recorded already, or may be recorded and
   * fits; it appends that event's line in the second case and nothing in any other.
   */
  lemma CallDecides(parse: Parser, limits: Limits, w: World, op: Op)
    requires ReadsEvents(parse) && Inv(parse, limits, w) && ValidOp(op)
    ensures var out := Mutate(parse, limits, w.text, op);
      var w' := After(parse, limits, w, Call(op));
      && (out.error.None? <==> Accepts(op) && (Recorded(w.events, op) || Appends(limits, w.events, op)))
      && w'.events == (if Appends(limits, w.events, op) then w.events + [EventOf(op)] else w.events)
      && w'.text == out.text
      && out.text == if Accepts(op) then LogText(w'.events) else w.text
  {
    if Accepts(op) {
      AttemptDecides(parse, limits, w.events, op);
      LogOneMore(w.events, EventOf(op));
    }
  }

  lemma LogOneMore(events: seq<Event>, e: Event)
    ensures LogText(events + [e]) == LogText(events) + LineOf(e)
  {
    assert (events + [e])[..|events|] == events;
  }

  lemma LineBytes(e: Event)
    ensures ByteLength(LineOf(e)) == |T.AllUtf8(Print(EventJson(e)))| + 1
  {
    T.ByteLengthExact(Print(EventJson(e)));
    ByteLengthAppend(Print(EventJson(e)), "\n");
    assert ByteLength("\n") == 1;
  }

  lemma CrashTears(parse: Parser, limits: Limits, w: World, op: Op, bytes: nat)
    requires Accepts(op)
    ensures var attempt := Attempt(parse, limits, Repair(parse, w.text), op);
      After(parse, limits, w, Crash(op, bytes)).events ==
        if attempt.Ok? && attempt.value.Some? && bytes + 1 >= ByteLength(LineOf(attempt.value.value))
        then w.events + [attempt.value.value] else w.events
  {
    var attempt := Attempt(parse, limits, Repair(parse, w.text), op);
    if attempt.Ok? && attempt.value.Some? { LineBytes(attempt.value.value); }
  }

  /** A call that dies while writing takes effect exactly when it had something to write and all but the line feed was written. */
  lemma CrashDecides(parse: Parser, limits: Limits, w: World, op: Op, bytes: nat)
    requires ReadsEvents(parse) && Inv(parse, limits, w) && ValidOp(op)
    ensures After(parse, limits, w, Crash(op, bytes)).events ==
      if Appends(limits, w.events, op) && bytes >= |T.AllUtf8(Print(EventJson(EventOf(op))))|
      then w.events + [EventOf(op)] else w.events
  {
    if Accepts(op) {
      CrashTears(parse, limits, w, op, bytes);
      AttemptDecides(parse, limits, w.events, op);
      LineBytes(EventOf(op));
    }
  }

  // ----- what is written -----

  function Member(key: string, text: string): string {
    T.Quoted(key) + ":" + text
  }

  function Object(members: seq<string>): string {
    "{" + T.Joined(members, ",") + "}"
  }

  /** The text of an intent. */
  function IntentText(intent: Intent): string {
    Object([
      Member("id", T.Quoted(intent.id)),
      Member("transaction", T.Quoted(intent.transaction)),
      Member("originalTrace", T.Quoted(intent.originalTrace)),
      Member("amountMinor", Decimal(intent.amountMinor)),
      Member("currencyNumericCode", T.Quoted(intent.currencyNumericCode)),
      Member("terminalId", T.Quoted(intent.terminalId)),
      Member("transmissionDateTime", T.Quoted(intent.transmissionDateTime)),
      Member("reason", T.Quoted(intent.reason))])
  }

  /** The text of an event: what it is, when, and about what. */
  function EventText(e: Event): string {
    match e
    case Queued(ts, intent) =>
      Object([Member("type", T.Quoted("queued")), Member("ts", T.Quoted(ts)), Member("intent", IntentText(intent))])
    case Attempted(ts, id) =>
      Object([Member("type", T.Quoted("attempted")), Member("ts", T.Quoted(ts)), Member("id", T.Quoted(id))])
    case Failed(ts, id, error) =>
      Object([Member("type", T.Quoted("failed")), Member("ts", T.Quoted(ts)), Member("id", T.Quoted(id)), Member("error", T.Quoted(error))])
    case Completed(ts, id) =>
      Object([Member("type", T.Quoted("completed")), Member("ts", T.Quoted(ts)), Member("id", T.Quoted(id))])
  }

  lemma Members(fields: seq<Field>)
    ensures Print(Obj(fields)) == Object(seq(|fields|, i requires 0 <= i < |fields| => Member(fields[i].key, Print(fields[i].value))))
  {
    T.PrintMeans(Obj(fields));
    assert T.Entries(fields) == seq(|fields|, i requires 0 <= i < |fields| => Member(fields[i].key, Print(fields[i].value)));
  }

  lemma ThreeMembers(a: Field, b: Field, c: Field)
    ensures Print(Obj([a, b, c])) == Object([Member(a.key, Print(a.value)), Member(b.key, Print(b.value)), Member(c.key, Print(c.value))])
  {
    Members([a, b, c]);
    assert seq(3, i requires 0 <= i < 3 => Member([a, b, c][i].key, Print([a, b, c][i].value)))
      == [Member(a.key, Print(a.value)), Member(b.key, Print(b.value)), Member(c.key, Print(c.value))];
  }

  lemma FourMembers(a: Field, b: Field, c: Field, d: Field)
    ensures Print(Obj([a, b, c, d])) ==
      Object([Member(a.key, Print(a.value)), Member(b.key, Print(b.value)), Member(c.key, Print(c.value)), Member(d.key, Print(d.value))])
  {
    Members([a, b, c, d]);
    assert seq(4, i requires 0 <= i < 4 => Member([a, b, c, d][i].key, Print([a, b, c, d][i].value)))
      == [Member(a.key, Print(a.value)), Member(b.key, Print(b.value)), Member(c.key, Print(c.value)), Member(d.key, Print(d.value))];
  }

  lemma EightMembers(a: Field, b: Field, c: Field, d: Field, e: Field, f: Field, g: Field, h: Field)
    ensures Print(Obj([a, b, c, d, e, f, g, h])) ==
      Object([Member(a.key, Print(a.value)), Member(b.key, Print(b.value)), Member(c.key, Print(c.value)), Member(d.key, Print(d.value)),
              Member(e.key, Print(e.value)), Member(f.key, Print(f.value)), Member(g.key, Print(g.value)), Member(h.key, Print(h.value))])
  {
    var fields := [a, b, c, d, e, f, g, h];
    Members(fields);
    assert seq(8, i requires 0 <= i < 8 => Member(fields[i].key, Print(fields[i].value)))
      == [Member(a.key, Print(a.value)), Member(b.key, Print(b.value)), Member(c.key, Print(c.value)), Member(d.key, Print(d.value)),
          Member(e.key, Print(e.value)), Member(f.key, Print(f.value)), Member(g.key, Print(g.value)), Member(h.key, Print(h.value))];
  }

  lemma TextWritten(text: string)
    ensures Print(Str(text)) == T.Quoted(text)
  {
    T.PrintMeans(Str(text));
  }

  lemma IntentWritten(intent: Intent)
    ensures Print(IntentJson(intent)) == IntentText(intent)
  {
    TextWritten(intent.id);
    TextWritten(intent.transaction);
    TextWritten(intent.originalTrace);
    T.PrintMeans(Num(Decimal(intent.amountMinor)));
    TextWritten(intent.currencyNumericCode);
    TextWritten(intent.terminalId);
    TextWritten(intent.transmissionDateTime);
    TextWritten(intent.reason);
    EightMembers(
      Field("id", Str(intent.id)), Field("transaction", Str(intent.transaction)),
      Field("originalTrace", Str(intent.originalTrace)), Field("amountMinor", Num(Decimal(intent.amountMinor))),
      Field("currencyNumericCode", Str(intent.currencyNumericCode)), Field("terminalId", Str(intent.terminalId)),
      Field("transmissionDateTime", Str(intent.transmissionDateTime)), Field("reason", Str(intent.reason)));
  }

  lemma StepWritten(kind: string, ts: string, id: string)
    ensures Print(Obj([Field("type", Str(kind)), Field("ts", Str(ts)), Field("id", Str(id))])) ==
      Object([Member("type", T.Quoted(kind)), Member("ts", T.Quoted(ts)), Member("id", T.Quoted(id))])
  {
    TextWritten(kind);
    TextWritten(ts);
    TextWritten(id);
    ThreeMembers(Field("type", Str(kind)), Field("ts", Str(ts)), Field("id", Str(id)));
  }

  lemma QueuedWritten(e: Event)
    requires e.Queued?
    ensures Print(EventJson(e)) == EventText(e)
  {
    TextWritten("queued");
    TextWritten(e.ts);
    IntentWritten(e.intent);
    ThreeMembers(Field("type", Str("queued")), Field("ts", Str(e.ts)), Field("intent", IntentJson(e.intent)));
  }

  lemma FailedWritten(e: Event)
    requires e.Failed?
    ensures Print(EventJson(e)) == EventText(e)
  {
    TextWritten("failed");
    TextWritten(e.ts);
    TextWritten(e.id);
    TextWritten(e.error);
    FourMembers(Field("type", Str("failed")), Field("ts", Str(e.ts)), Field("id", Str(e.id)), Field("error", Str(e.error)));
  }

  /** What an append writes of an event is its text, field by field. */
  lemma EventWritten(e: Event)
    ensures Print(EventJson(e)) == EventText(e)
  {
    match e
    case Queued(_, _) => QueuedWritten(e);
    case Attempted(ts, id) => StepWritten("attempted", ts, id);
    case Failed(_, _, _) => FailedWritten(e);
    case Completed(ts, id) => StepWritten("completed", ts, id);
  }

  // ----- what is read -----

  lemma {:induction false} GetIn(fields: seq<Field>, key: string)
    requires Get(fields, key).Some?
    ensures Field(key, Get(fields, key).value) in fields
  {
    if fields[0].key != key { GetIn(fields[1..], key); }
  }

  lemma TextIn(fields: seq<Field>, key: string)
    requires GetText(fields, key).Some?
    ensures Field(key, Str(GetText(fields, key).value)) in fields
  {
    GetIn(fields, key);
  }

  /** Whatever reads as an event is a valid one, with its kind and time where they belong. */
  lemma ReadSound(v: Value, e: Event)
    requires ParseEvent(v) == Ok(e)
    ensures v.Obj? && ValidEvent(e)
    ensures Field("ts", Str(e.ts)) in v.fields
    ensures !e.Queued? ==> Field("id", Str(e.id)) in v.fields
    ensures e.Failed? ==> Field("error", Str(e.error)) in v.fields
  {
    TextIn(v.fields, "ts");
    if !e.Queued? { TextIn(v.fields, "id"); }
    if e.Failed? { TextIn(v.fields, "error"); }
  }

  lemma KindRead(v: Value, e: Event)
    requires ParseEvent(v) == Ok(e)
    ensures v.Obj? && Field("type", Str(if e.Queued? then "queued" else if e.Attempted? then "attempted" else if e.Failed? then "failed" else "completed")) in v.fields
    ensures |v.fields| == if e.Failed? then 4 else 3
  {
    TextIn(v.fields, "type");
  }

  // ----- which intents are taken -----

  const UPPER := "ABCDEFGHIJKLMNOPQRSTUVWXYZ"
  const LOWER := "abcdefghijklmnopqrstuvwxyz"
  const DIGITS := "0123456789"

  /** One to `longest` characters, each of one of the alphabets. */
  predicate Word(s: string, longest: nat, alphabet: string) {
    1 <= |s| <= longest && forall c :: c in s ==> c in alphabet
  }

  predicate Digits(s: string, width: nat) {
    |s| == width && forall c :: c in s ==> c in DIGITS
  }

  predicate PrintableAscii(s: string) {
    forall c :: c in s ==> 0x20 <= c as int <= 0x7E
  }

  predicate Name(s: string, longest: nat) {
    Word(s, longest, UPPER + LOWER + DIGITS + "._:-")
  }

  predicate TransactionName(s: string) {
    Name(s, 64) && s[0] in UPPER + LOWER
  }

  predicate ReasonText(s: string) {
    Word(s, 64, LOWER + DIGITS + "_") && s[0] in LOWER
  }

  predicate TerminalId(s: string) {
    1 <= |s| <= 8 && PrintableAscii(s)
  }

  /** What the store asks of an intent, member by member. */
  predicate Admitted(intent: Intent) {
    && Name(intent.id, 128) && TransactionName(intent.transaction)
    && Digits(intent.originalTrace, 6) && intent.amountMinor <= 999_999_999_999
    && Digits(intent.currencyNumericCode, 3) && TerminalId(intent.terminalId)
    && Digits(intent.transmissionDateTime, 10) && ReasonText(intent.reason)
  }

  lemma UpperExact(c: char)
    ensures 'A' <= c <= 'Z' <==> c in UPPER
  {
    if 'A' <= c <= 'Z' { assert UPPER[c as int - 'A' as int] == c; }
  }

  lemma LowerExact(c: char)
    ensures 'a' <= c <= 'z' <==> c in LOWER
  {
    if 'a' <= c <= 'z' { assert LOWER[c as int - 'a' as int] == c; }
  }

  lemma DigitExact(c: char)
    ensures I.IsDigit(c) <==> c in DIGITS
  {
    if I.IsDigit(c) { assert DIGITS[c as int - '0' as int] == c; }
  }

  lemma ClassesExact(c: char)
    ensures IsLetter(c) <==> c in UPPER + LOWER
    ensures NameChar(c) <==> c in UPPER + LOWER + DIGITS + "._:-"
    ensures ('a' <= c <= 'z' || I.IsDigit(c) || c == '_') <==> c in LOWER + DIGITS + "_"
  {
    UpperExact(c);
    LowerExact(c);
    DigitExact(c);
    assert c in "._:-" <==> c == '.' || c == '_' || c == ':' || c == '-';
    assert c in "_" <==> c == '_';
  }

  lemma TextsExact(s: string)
    ensures AllNameChars(s) <==> forall c :: c in s ==> c in UPPER + LOWER + DIGITS + "._:-"
    ensures ReasonChars(s) <==> forall c :: c in s ==> c in LOWER + DIGITS + "_"
    ensures I.AllDigits(s) <==> forall c :: c in s ==> c in DIGITS
    ensures I.AllPrintable(s) <==> PrintableAscii(s)
  {
    forall c ensures NameChar(c) <==> c in UPPER + LOWER + DIGITS + "._:-" { ClassesExact(c); }
    forall c ensures ('a' <= c <= 'z' || I.IsDigit(c) || c == '_') <==> c in LOWER + DIGITS + "_" { ClassesExact(c); }
    forall c ensures I.IsDigit(c) <==> c in DIGITS { DigitExact(c); }
    assert forall i :: 0 <= i < |s| ==> s[i] in s;
  }

  lemma NameExact(s: string, longest: nat)
    ensures 1 <= |s| <= longest && AllNameChars(s) <==> Name(s, longest)
  {
    TextsExact(s);
  }

  lemma TransactionExact(s: string)
    ensures 1 <= |s| <= 64 && IsLetter(s[0]) && AllNameChars(s) <==> TransactionName(s)
  {
    NameExact(s, 64);
    if s != "" { ClassesExact(s[0]); }
  }

  lemma ReasonExact(s: string)
    ensures 1 <= |s| <= 64 && 'a' <= s[0] <= 'z' && ReasonChars(s) <==> ReasonText(s)
  {
    TextsExact(s);
    if s != "" { LowerExact(s[0]); }
  }

  lemma MembersExact(s: string, width: nat)
    ensures |s| == width && I.AllDigits(s) <==> Digits(s, width)
    ensures 1 <= |s| <= 8 && I.AllPrintable(s) <==> TerminalId(s)
  {
    TextsExact(s);
  }

  /** An intent is taken exactly when every member is admitted. */
  lemma IntentExact(intent: Intent)
    ensures ValidIntent(intent) <==> Admitted(intent)
  {
    NameExact(intent.id, 128);
    TransactionExact(intent.transaction);
    MembersExact(intent.originalTrace, 6);
    MembersExact(intent.currencyNumericCode, 3);
    MembersExact(intent.terminalId, 0);
    MembersExact(intent.transmissionDateTime, 10);
    ReasonExact(intent.reason);
  }

  /** What a call accepts before it takes the lock. */
  lemma AcceptsExact(op: Op)
    ensures Accepts(op) <==>
      match op
      case Enqueue(_, intent) => Admitted(intent)
      case MarkFailed(_, _, error) => error != "" && |error| < 501
      case _ => true
  {
    if op.Enqueue? { IntentExact(op.intent); }
  }
}
