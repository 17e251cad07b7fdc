/**
 * The store's operations over the log, as calls that finish and calls that a crash
 * cuts short, against records kept in memory.
 */
module ReversalOperations {
  import opened Prelude
  import opened Json
  import opened JsonScan
  import opened ReversalEvents
  import opened ReversalStore

  datatype Op =
    | Enqueue(ts: string, intent: Intent)
    | BeginAttempt(ts: string, id: string)
    | MarkFailed(ts: string, id: string, error: string)
    | MarkCompleted(ts: string, id: string)

  /** The clock gives timestamps; a failure text arrives scrubbed. */
  predicate ValidOp(op: Op) {
    ValidTimestamp(op.ts)
  }

  /** The checks made before the lock is taken. */
  predicate Accepts(op: Op) {
    match op
    case Enqueue(_, intent) => ValidIntent(intent)
    case MarkFailed(_, _, error) => 1 <= |error| <= 500
    case _ => true
  }

  /** The event a call appends, or none when there is nothing to record. */
  function Decide(limits: Limits, records: Records, op: Op): Result<Option<Event>, string> {
    match op
    case Enqueue(ts, intent) =>
      if intent.id in records then (if records[intent.id].intent == intent then Ok(None) else Err("different data"))
      else if |records| >= limits.maxRecords then Err("record limit")
      else Ok(Some(Queued(ts, intent)))
    case BeginAttempt(ts, id) => Transit(records, Attempted(ts, id))
    case MarkFailed(ts, id, error) => Transit(records, Failed(ts, id, error))
    case MarkCompleted(ts, id) => Transit(records, Completed(ts, id))
  }

  function Transit(records: Records, e: Event): Result<Option<Event>, string> {
    if IdOf(e) !in records then Err("unknown id")
    else if records[IdOf(e)].status.Done? then (if e.Completed? then Ok(None) else Err("already completed"))
    else Ok(Some(e))
  }

  /** What a call does to a repaired log. */
  function Attempt(parse: Parser, limits: Limits, text: string, op: Op): Result<Option<Event>, string> {
    var loaded := LoadText(parse, limits, text);
    if loaded.Err? then Err(loaded.error)
    else
      var decided := Decide(limits, loaded.value, op);
      if decided.Err? || decided.value.None? then decided
      else if AppendTo(limits, text, decided.value.value).Err? then Err(AppendTo(limits, text, decided.value.value).error)
      else decided
  }

  datatype Outcome = Outcome(text: string, error: Option<string>)

  /** One whole call: repair, load, decide, append. */
  function Mutate(parse: Parser, limits: Limits, text: string, op: Op): Outcome {
    if !Accepts(op) then Outcome(text, Some("invalid argument"))
    else
      var repaired := Repair(parse, text);
      match Attempt(parse, limits, repaired, op)
      case Err(m) => Outcome(repaired, Some(m))
      case Ok(None) => Outcome(repaired, None)
      case Ok(Some(e)) => Outcome(repaired + LineOf(e), None)
  }

  // ----- the same operations on records in memory -----

  function Remember(limits: Limits, records: Records, op: Op): Result<Records, string> {
    match op
    case Enqueue(ts, intent) =>
      if intent.id in records && records[intent.id].intent == intent then Ok(records)
      else if intent.id in records || |records| >= limits.maxRecords then Err("refused")
      else Ok(records[intent.id := Record(intent, Outstanding, 0, ts, ts, None)])
    case MarkCompleted(ts, id) =>
      if id !in records then Err("refused")
      else if records[id].status.Done? then Ok(records)
      else Ok(records[id := records[id].(status := Done, updatedAt := ts)])
    case BeginAttempt(ts, id) =>
      if id !in records || records[id].status.Done? then Err("refused")
      else Ok(records[id := records[id].(attempts := records[id].attempts + 1, updatedAt := ts)])
    case MarkFailed(ts, id, error) =>
      if id !in records || records[id].status.Done? then Err("refused")
      else Ok(records[id := records[id].(lastError := Some(error), updatedAt := ts)])
  }

  /** The event still fits the log: its line, the file and the event count. */
  predicate Room(limits: Limits, events: seq<Event>, e: Event) {
    && ByteLength(LineOf(e)) <= MAX_LINE_BYTES
    && ByteLength(LogText(events)) + ByteLength(LineOf(e)) <= limits.maxFileBytes
    && |events| < limits.maxEvents
  }

  lemma DecideRemembers(limits: Limits, records: Records, op: Op)
    requires ValidOp(op) && Accepts(op)
    ensures Decide(limits, records, op).Err? <==> Remember(limits, records, op).Err?
    ensures Decide(limits, records, op) == Ok(None) ==> Remember(limits, records, op) == Ok(records)
    ensures Decide(limits, records, op).Ok? && Decide(limits, records, op).value.Some? ==>
      var e := Decide(limits, records, op).value.value;
      ValidEvent(e) && ApplyEvent(records, e) == Remember(limits, records, op)
  {}

  lemma RememberKeepsLimit(limits: Limits, records: Records, op: Op)
    requires |records| <= limits.maxRecords && Remember(limits, records, op).Ok?
    ensures |Remember(limits, records, op).value| <= limits.maxRecords
  {
    var after := Remember(limits, records, op).value;
    if op.Enqueue? && op.intent.id !in records {
      assert after.Keys == records.Keys + {op.intent.id};
    } else {
      assert after.Keys == records.Keys;
    }
    assert |after| == |after.Keys| && |records| == |records.Keys|;
  }

  /** Appending a decided event to a healthy log gives a healthy log. */
  lemma AppendGood(limits: Limits, events: seq<Event>, op: Op, e: Event)
    requires GoodLog(limits, events) && ValidOp(op) && Accepts(op)
    requires Decide(limits, Replay(events).value, op) == Ok(Some(e)) && Room(limits, events, e)
    ensures GoodLog(limits, events + [e]) && LogText(events + [e]) == LogText(events) + LineOf(e)
    ensures Replay(events + [e]) == Remember(limits, Replay(events).value, op)
  {
    DecideRemembers(limits, Replay(events).value, op);
    RememberKeepsLimit(limits, Replay(events).value, op);
    assert (events + [e])[..|events|] == events;
    ByteLengthAppend(LogText(events), LineOf(e));
  }

  /** What a call on a healthy log decides, in terms of the events alone. */
  lemma AttemptMeans(parse: Parser, limits: Limits, events: seq<Event>, op: Op)
    requires ReadsEvents(parse) && GoodLog(limits, events)
    ensures var decided := Decide(limits, Replay(events).value, op);
      var attempt := Attempt(parse, limits, LogText(events), op);
      if decided.Ok? && decided.value.Some? then
        (if Room(limits, events, decided.value.value) then attempt == decided else attempt.Err?)
      else attempt == decided
  {
    LogLoads(parse, limits, events);
    LogFragments(events);
  }

  // ----- runs with crashes -----

  /** A finished call, or one that crashes once so many bytes of its line are on disk. */
  datatype Step = Call(op: Op) | Crash(op: Op, bytes: nat)

  /** The file, and beside it the events that took effect and the records in memory. */
  datatype World = World(text: string, events: seq<Event>, records: Records)

  const EMPTY := World("", [], map[])

  function Effect(limits: Limits, w: World, op: Op, e: Event): World {
    w.(events := w.events + [e],
       records := if Remember(limits, w.records, op).Ok? then Remember(limits, w.records, op).value else w.records)
  }

  /** The call died with these bytes of its line written; all but the line feed is enough to take effect. */
  function Tear(limits: Limits, w: World, op: Op, e: Event, repaired: string, bytes: nat): World {
    (if bytes < ByteLength(LineOf(e)) - 1 then w else Effect(limits, w, op, e)).(text := repaired + Decoded(LineOf(e), bytes))
  }

  function After(parse: Parser, limits: Limits, w: World, s: Step): World {
    var text := Mutate(parse, limits, w.text, s.op).text;
    if !Accepts(s.op) then w
    else
      var repaired := Repair(parse, w.text);
      match Attempt(parse, limits, repaired, s.op)
      case Ok(Some(e)) =>
        if s.Call? then Effect(limits, w, s.op, e).(text := text)
        else Tear(limits, w, s.op, e, repaired, Min(s.bytes, ByteLength(LineOf(e))))
      case _ => w.(text := repaired)
  }

  ghost predicate Inv(parse: Parser, limits: Limits, w: World) {
    && GoodLog(limits, w.events)
    && Repair(parse, w.text) == LogText(w.events)
    && Replay(w.events) == Ok(w.records)
  }

  /** The call has an event to record and the log has no room for it. */
  predicate NoRoom(limits: Limits, w: World, op: Op) {
    match Decide(limits, w.records, op)
    case Ok(Some(e)) => !Room(limits, w.events, e)
    case _ => false
  }

  /**
   * One call on any recoverable file. It fails exactly when its argument is refused,
   * memory refuses it or there is no room; a failure changes no record, and a success
   * does to the log what it does to memory.
   */
  lemma CallExact(parse: Parser, limits: Limits, w: World, op: Op)
    requires ReadsEvents(parse) && Inv(parse, limits, w) && ValidOp(op)
    ensures var out := Mutate(parse, limits, w.text, op);
      var w' := After(parse, limits, w, Call(op));
      && w'.text == out.text
      && Inv(parse, limits, w')
      && (out.error.None? ==> Accepts(op) && Ok(w'.records) == Remember(limits, w.records, op))
      && (out.error.Some? ==> w'.records == w.records && w'.events == w.events)
      && (out.error.Some? <==>
            || !Accepts(op)
            || Remember(limits, w.records, op).Err?
            || NoRoom(limits, w, op))
  {
    if Accepts(op) {
      DecideRemembers(limits, w.records, op);
      AttemptMeans(parse, limits, w.events, op);
      RepairIdempotent(parse, w.text);
      match Attempt(parse, limits, LogText(w.events), op)
      case Ok(Some(e)) =>
        AppendGood(limits, w.events, op, e);
        LogFragments(w.events + [e]);
        SettledStays(parse, LogText(w.events + [e]));
      case _ =>
    }
  }

  /** The crash falls inside an append: the file is torn, and repair decides for the event or against it. */
  lemma TornAppend(parse: Parser, limits: Limits, w: World, op: Op, e: Event, bytes: nat)
    requires ReadsEvents(parse) && Inv(parse, limits, w) && ValidOp(op) && Accepts(op) && bytes <= ByteLength(LineOf(e))
    requires Decide(limits, w.records, op) == Ok(Some(e)) && Room(limits, w.events, e)
    ensures Inv(parse, limits, Tear(limits, w, op, e, LogText(w.events), bytes))
  {
    DecideRemembers(limits, w.records, op);
    LogFragments(w.events);
    CrashAtomic(parse, LogText(w.events), e, bytes);
    AppendGood(limits, w.events, op, e);
  }

  /** Repair alone, when the call would append nothing. */
  lemma RepairKeeps(parse: Parser, limits: Limits, w: World)
    requires Inv(parse, limits, w)
    ensures Inv(parse, limits, w.(text := Repair(parse, w.text)))
  {
    RepairIdempotent(parse, w.text);
  }

  /** An appending call decided for its event, and there was room. */
  lemma AppendsWhat(parse: Parser, limits: Limits, w: World, op: Op, e: Event)
    requires ReadsEvents(parse) && Inv(parse, limits, w)
    requires Attempt(parse, limits, LogText(w.events), op) == Ok(Some(e))
    ensures Decide(limits, w.records, op) == Ok(Some(e)) && Room(limits, w.events, e)
  {
    AttemptMeans(parse, limits, w.events, op);
  }

  lemma CrashKeeps(parse: Parser, limits: Limits, w: World, op: Op, bytes: nat)
    requires ReadsEvents(parse) && Inv(parse, limits, w) && ValidOp(op)
    ensures Inv(parse, limits, After(parse, limits, w, Crash(op, bytes)))
  {
    if Accepts(op) {
      var attempt := Attempt(parse, limits, LogText(w.events), op);
      if attempt.Ok? && attempt.value.Some? {
        AppendsWhat(parse, limits, w, op, attempt.value.value);
        TornAppend(parse, limits, w, op, attempt.value.value, Min(bytes, ByteLength(LineOf(attempt.value.value))));
      } else {
        RepairKeeps(parse, limits, w);
      }
    }
  }

  function Run(parse: Parser, limits: Limits, w: World, steps: seq<Step>): World
    decreases |steps|
  {
    if steps == [] then w else Run(parse, limits, After(parse, limits, w, steps[0]), steps[1..])
  }

  ghost predicate ValidSteps(steps: seq<Step>) {
    forall i :: 0 <= i < |steps| ==> ValidOp(steps[i].op)
  }

  lemma StepKeeps(parse: Parser, limits: Limits, w: World, s: Step)
    requires ReadsEvents(parse) && Inv(parse, limits, w) && ValidOp(s.op)
    ensures Inv(parse, limits, After(parse, limits, w, s))
  {
    if s.Call? { CallExact(parse, limits, w, s.op); } else { CrashKeeps(parse, limits, w, s.op, s.bytes); }
  }

  lemma {:induction false} RunKeeps(parse: Parser, limits: Limits, w: World, steps: seq<Step>)
    requires ReadsEvents(parse) && Inv(parse, limits, w) && ValidSteps(steps)
    ensures Inv(parse, limits, Run(parse, limits, w, steps))
    decreases |steps|
  {
    if steps != [] {
      StepKeeps(parse, limits, w, steps[0]);
      RunKeeps(parse, limits, After(parse, limits, w, steps[0]), steps[1..]);
    }
  }

  /**
   * After any run of finished and crashed calls, repair leaves exactly the lines of the
   * events that took effect, and load succeeds within every limit and gives exactly the
   * records in memory: attempts are the attempted events that took effect, and a record
   * is done iff a completion took effect.
   */
  lemma LogAlwaysRecovers(parse: Parser, limits: Limits, steps: seq<Step>, id: string)
    requires ReadsEvents(parse) && ValidSteps(steps)
    ensures var w := Run(parse, limits, EMPTY, steps);
      var text := Repair(parse, w.text);
      && text == LogText(w.events)
      && LoadText(parse, limits, text) == Ok(w.records)
      && ByteLength(text) <= limits.maxFileBytes && |Fragments(text)| <= limits.maxEvents
      && |w.records| <= limits.maxRecords
      && (id in w.records ==>
            && w.records[id].attempts == CountAttempts(w.events, id)
            && (w.records[id].status.Done? <==> Mentions(w.events, id, true)))
  {
    var w := Run(parse, limits, EMPTY, steps);
    assert Repair(parse, "") == LogText([]);
    RunKeeps(parse, limits, EMPTY, steps);
    LogLoads(parse, limits, w.events);
    LogFragments(w.events);
    ReplayMeans(w.events, id);
  }

  lemma RememberKeepsDone(limits: Limits, records: Records, op: Op, id: string)
    requires id in records && records[id].status.Done? && Remember(limits, records, op).Ok?
    ensures var after := Remember(limits, records, op).value; id in after && after[id] == records[id]
  {}

  lemma StepKeepsDone(parse: Parser, limits: Limits, w: World, s: Step, id: string)
    requires id in w.records && w.records[id].status.Done?
    ensures var w' := After(parse, limits, w, s); id in w'.records && w'.records[id] == w.records[id]
  {
    if Remember(limits, w.records, s.op).Ok? { RememberKeepsDone(limits, w.records, s.op, id); }
  }

  /** Completion is final: no later run changes the record in any way. */
  lemma {:induction false} CompletedForever(parse: Parser, limits: Limits, w: World, steps: seq<Step>, id: string)
    requires id in w.records && w.records[id].status.Done?
    ensures var w' := Run(parse, limits, w, steps); id in w'.records && w'.records[id] == w.records[id]
    decreases |steps|
  {
    if steps != [] {
      StepKeepsDone(parse, limits, w, steps[0], id);
      CompletedForever(parse, limits, After(parse, limits, w, steps[0]), steps[1..], id);
    }
  }

  /** The events in effect are only ever added to. */
  lemma {:induction false} EventsOnlyGrow(parse: Parser, limits: Limits, w: World, steps: seq<Step>)
    ensures w.events <= Run(parse, limits, w, steps).events
    decreases |steps|
  {
    if steps != [] {
      EventsOnlyGrow(parse, limits, After(parse, limits, w, steps[0]), steps[1..]);
    }
  }

  lemma {:induction false} LogTextGrows(before: seq<Event>, after: seq<Event>)
    requires before <= after
    ensures LogText(before) <= LogText(after)
    decreases |after|
  {
    if before != after {
      LogTextGrows(before, after[..|after| - 1]);
    }
  }

  /** No line of the repaired file is ever lost, changed or reordered: later files only add to it. */
  lemma FileOnlyGrows(parse: Parser, limits: Limits, w: World, steps: seq<Step>)
    requires ReadsEvents(parse) && Inv(parse, limits, w) && ValidSteps(steps)
    ensures Repair(parse, w.text) <= Repair(parse, Run(parse, limits, w, steps).text)
  {
    RunKeeps(parse, limits, w, steps);
    EventsOnlyGrow(parse, limits, w, steps);
    LogTextGrows(w.events, Run(parse, limits, w, steps).events);
  }

  /** Enqueueing a known id again writes nothing, and fails iff the data differ. */
  lemma EnqueueIdempotent(parse: Parser, limits: Limits, w: World, ts: string, intent: Intent)
    requires ReadsEvents(parse) && Inv(parse, limits, w) && ValidTimestamp(ts) && ValidIntent(intent)
    requires intent.id in w.records
    ensures var out := Mutate(parse, limits, w.text, Enqueue(ts, intent));
      && out.text == LogText(w.events)
      && (out.error.None? <==> w.records[intent.id].intent == intent)
  {
    AttemptMeans(parse, limits, w.events, Enqueue(ts, intent));
  }

  // ----- the class -----

  class JsonlReversalStore {
    /** The file's content; an absent file reads as empty. */
    var text: string
    const parse: Parser
    const limits: Limits

    constructor (parse: Parser, limits: Limits)
      ensures this.parse == parse && this.limits == limits && text == ""
    {
      this.parse := parse;
      this.limits := limits;
      text := "";
    }

    method RepairPartialTail()
      modifies this
      ensures text == Repair(parse, old(text))
    {
      if text == "" || text[|text| - 1] == '\n' {
        SettledStays(parse, text);
        return;
      }
      var cut := TailStart(text);
      var parsed := parse(text[cut..]);
      if parsed.Some? && ParseEvent(parsed.value).Ok? {
        text := text + "\n";
      } else {
        text := text[..cut];
      }
    }

    method Load() returns (r: Result<Records, string>)
      ensures r == LoadText(parse, limits, text)
    {
      if ByteLength(text) > limits.maxFileBytes { return Err("byte limit"); }
      var lines := Fragments(text);
      if |lines| > limits.maxEvents { return Err("too many events"); }
      var records: Records := map[];
      for i := 0 to |lines|
        invariant ReadLines(parse, lines[..i]) == Ok(records)
      {
        var step := ReadLine(parse, records, lines[i]);
        OneMoreLine(parse, lines, i);
        if step.Err? {
          FailureStays(parse, lines, i + 1);
          return step;
        }
        records := step.value;
      }
      assert lines[..|lines|] == lines;
      r := Ok(records);
    }

    method Append(e: Event) returns (r: Result<bool, string>)
      modifies this
      ensures r.Err? <==> AppendTo(limits, old(text), e).Err?
      ensures text == if r.Ok? then old(text) + LineOf(e) else old(text)
    {
      var line := LineOf(e);
      if ByteLength(line) > MAX_LINE_BYTES { return Err("event exceeds 8192 bytes"); }
      if ByteLength(text) + ByteLength(line) > limits.maxFileBytes { return Err("byte limit"); }
      if |Fragments(text)| >= limits.maxEvents { return Err("event limit"); }
      text := text + line;
      r := Ok(true);
    }

    /** Enqueueing, under the store's lock. */
    method EnqueueIntent(ts: string, intent: Intent) returns (r: Result<Record, string>)
      modifies this
      ensures text == Mutate(parse, limits, old(text), Enqueue(ts, intent)).text
      ensures r.Err? <==> Mutate(parse, limits, old(text), Enqueue(ts, intent)).error.Some?
      ensures r.Ok? ==> var before := LoadText(parse, limits, Repair(parse, old(text)));
        && before.Ok?
        && Remember(limits, before.value, Enqueue(ts, intent)).Ok?
        && Remember(limits, before.value, Enqueue(ts, intent)).value[intent.id] == r.value
    {
      if !ValidIntent(intent) { return Err("invalid intent"); }
      RepairPartialTail();
      var loaded := Load();
      if loaded.Err? { return Err(loaded.error); }
      var records := loaded.value;
      if intent.id in records {
        if records[intent.id].intent != intent { return Err("different data"); }
        return Ok(records[intent.id]);
      }
      if |records| >= limits.maxRecords { return Err("record limit"); }
      var appended := Append(Queued(ts, intent));
      if appended.Err? { return Err(appended.error); }
      r := Ok(Record(intent, Outstanding, 0, ts, ts, None));
    }

    /** One transition, under the store's lock. */
    method Transition(op: Op) returns (r: Result<bool, string>)
      requires !op.Enqueue?
      modifies this
      ensures text == Mutate(parse, limits, old(text), op).text
      ensures r.Err? <==> Mutate(parse, limits, old(text), op).error.Some?
    {
      if op.MarkFailed? && !(1 <= |op.error| <= 500) { return Err("invalid message"); }
      RepairPartialTail();
      var loaded := Load();
      if loaded.Err? { return Err(loaded.error); }
      if op.id !in loaded.value { return Err("unknown id"); }
      if loaded.value[op.id].status.Done? {
        if op.MarkCompleted? { return Ok(true); }
        return Err("already completed");
      }
      var e := match op
        case BeginAttempt(ts, id) => Attempted(ts, id)
        case MarkFailed(ts, id, error) => Failed(ts, id, error)
        case MarkCompleted(ts, id) => Completed(ts, id);
      r := Append(e);
    }
  }

  lemma OneMoreLine(parse: Parser, lines: seq<string>, i: nat)
    requires i < |lines|
    ensures var before := ReadLines(parse, lines[..i]);
      ReadLines(parse, lines[..i + 1]) == if before.Err? then before else ReadLine(parse, before.value, lines[i])
  {
    assert lines[..i + 1][..i] == lines[..i];
  }

  lemma {:induction false} FailureStays(parse: Parser, lines: seq<string>, n: nat)
    requires n <= |lines| && ReadLines(parse, lines[..n]).Err?
    ensures ReadLines(parse, lines) == ReadLines(parse, lines[..n])
    decreases |lines|
  {
    if n == |lines| {
      assert lines[..n] == lines;
    } else {
      var front := lines[..|lines| - 1];
      assert front[..n] == lines[..n];
      FailureStays(parse, front, n);
    }
  }
}
