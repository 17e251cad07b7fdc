/**
 * Which files the reversal store reads: the lines of any text, the objects that are
 * events, and what loading and repairing make of them.
 */
module ReversalReading {
  import opened Prelude
  import opened Json
  import opened ReversalEvents
  import opened ReversalStore
  import I = Iso8583
  import J = JournalLines
  import L = ReversalMeaning
  import T = JsonText

  // ----- lines -----

  /** What is not empty, in order. */
  function Kept(lines: seq<string>): seq<string> {
    if lines == [] then [] else (if lines[0] == "" then [] else [lines[0]]) + Kept(lines[1..])
  }

  lemma KeptOne(line: string)
    ensures Kept(J.Read([line])) == Keep(J.StripReturn(line))
  {
    assert J.Read([line])[1..] == [];
  }

  lemma CutLine(line: string, more: string)
    ensures var text := line + "\n" + more;
      && |line| < |text| && text[|line|] == '\n' && text[..|line|] == line && text[|line| + 1..] == more
      && forall i :: 0 <= i < |line| ==> text[i] == line[i]
  {}

  lemma EndedFragment(line: string, more: string)
    requires J.NoFeed(line)
    ensures Fragments(line + "\n" + more) == Kept(J.Read([line])) + Fragments(more)
  {
    CutLine(line, more);
    J.LineEndIs(line + "\n" + more, |line|);
    FirstFragment(line + "\n" + more, |line|);
    KeptOne(line);
  }

  lemma LastFragment(last: string)
    requires J.NoFeed(last)
    ensures Fragments(last) == if last == "" then [] else [last]
  {
    J.LineEndIs(last, |last|);
  }

  /**
   * Whatever a text is made of, its lines without line end and one carriage return are
   * read, in order and without the empty ones; a last line that is not ended keeps its
   * carriage return.
   */
  lemma {:induction false} FragmentsExact(raw: seq<string>, last: string, text: string)
    requires J.NoFeed(last) && (forall i :: 0 <= i < |raw| ==> J.NoFeed(raw[i])) && text == J.Ended(raw) + last
    ensures Fragments(text) == Kept(J.Read(raw)) + if last == "" then [] else [last]
    decreases |raw|
  {
    if raw == [] {
      LastFragment(last);
      assert text == last;
    } else {
      var more := J.Ended(raw[1..]) + last;
      FragmentsExact(raw[1..], last, more);
      J.EndedHead(raw, last);
      EndedFragment(raw[0], more);
      KeptHead(raw);
      Associate(Kept(J.Read([raw[0]])), Kept(J.Read(raw[1..])), if last == "" then [] else [last]);
    }
  }

  lemma KeptHead(raw: seq<string>)
    requires raw != []
    ensures Kept(J.Read(raw)) == Kept(J.Read([raw[0]])) + Kept(J.Read(raw[1..]))
  {
    assert J.Read(raw)[1..] == J.Read(raw[1..]);
    assert J.Read([raw[0]])[1..] == [];
  }

  // ----- which objects are events -----

  lemma {:induction false} GetExact(fields: seq<Field>, key: string, v: Value)
    requires DistinctKeys(fields)
    ensures Get(fields, key) == Some(v) <==> Field(key, v) in fields
  {
    if Field(key, v) in fields {
      var i :| 0 <= i < |fields| && fields[i] == Field(key, v);
      GetAt(fields, i);
    }
    if Get(fields, key) == Some(v) { L.GetIn(fields, key); }
  }

  lemma TextExact(fields: seq<Field>, key: string, s: string)
    requires DistinctKeys(fields)
    ensures GetText(fields, key) == Some(s) <==> Field(key, Str(s)) in fields
  {
    GetExact(fields, key, Str(s));
  }

  ghost predicate HoldsInteger(fields: seq<Field>, key: string, n: nat) {
    exists t :: Field(key, Num(t)) in fields && t != "" && I.AllDigits(t) && DecimalValue(t) == n
  }

  lemma IntegerExact(fields: seq<Field>, key: string, n: nat)
    requires DistinctKeys(fields)
    ensures GetInteger(fields, key) == Some(n) <==> HoldsInteger(fields, key, n)
  {
    forall t ensures Get(fields, key) == Some(Num(t)) <==> Field(key, Num(t)) in fields { GetExact(fields, key, Num(t)); }
  }

  /** The eight members of an intent, and nothing else. */
  ghost predicate IntentMembers(fields: seq<Field>, intent: Intent) {
    && (forall f :: f in fields ==> f.key in INTENT_KEYS)
    && Field("id", Str(intent.id)) in fields
    && Field("transaction", Str(intent.transaction)) in fields
    && Field("originalTrace", Str(intent.originalTrace)) in fields
    && HoldsInteger(fields, "amountMinor", intent.amountMinor)
    && Field("currencyNumericCode", Str(intent.currencyNumericCode)) in fields
    && Field("terminalId", Str(intent.terminalId)) in fields
    && Field("transmissionDateTime", Str(intent.transmissionDateTime)) in fields
    && Field("reason", Str(intent.reason)) in fields
  }

  lemma KeysExact(fields: seq<Field>, allowed: seq<string>)
    ensures KeysIn(fields, allowed) <==> forall f :: f in fields ==> f.key in allowed
  {
    if forall f :: f in fields ==> f.key in allowed {
      forall i | 0 <= i < |fields| ensures fields[i].key in allowed { assert fields[i] in fields; }
    }
  }

  /** An object reads as an intent exactly when it has its eight members, in any order, and the intent is admitted. */
  lemma IntentReadExact(fields: seq<Field>, intent: Intent)
    requires DistinctKeys(fields)
    ensures ParseIntent(Obj(fields)) == Some(intent) <==> IntentMembers(fields, intent) && L.Admitted(intent)
  {
    L.IntentExact(intent);
    KeysExact(fields, INTENT_KEYS);
    TextExact(fields, "id", intent.id);
    TextExact(fields, "transaction", intent.transaction);
    TextExact(fields, "originalTrace", intent.originalTrace);
    IntegerExact(fields, "amountMinor", intent.amountMinor);
    TextExact(fields, "currencyNumericCode", intent.currencyNumericCode);
    TextExact(fields, "terminalId", intent.terminalId);
    TextExact(fields, "transmissionDateTime", intent.transmissionDateTime);
    TextExact(fields, "reason", intent.reason);
  }

  /** The members of an event, and nothing else. */
  ghost predicate EventMembers(fields: seq<Field>, e: Event) {
    && Field("ts", Str(e.ts)) in fields
    && match e
       case Queued(_, intent) => |fields| == 3 && Field("type", Str("queued")) in fields && HoldsIntent(fields, intent)
       case Attempted(_, id) => |fields| == 3 && Field("type", Str("attempted")) in fields && Field("id", Str(id)) in fields
       case Failed(_, id, error) =>
         |fields| == 4 && Field("type", Str("failed")) in fields && Field("id", Str(id)) in fields && Field("error", Str(error)) in fields
       case Completed(_, id) => |fields| == 3 && Field("type", Str("completed")) in fields && Field("id", Str(id)) in fields
  }

  ghost predicate HoldsIntent(fields: seq<Field>, intent: Intent) {
    exists inner :: Field("intent", Obj(inner)) in fields && IntentMembers(inner, intent)
  }

  /** Three members of three names leave no room for another. */
  lemma ThreeKeys(fields: seq<Field>, a: string, b: string, c: string)
    requires DistinctKeys(fields) && a != b && a != c && b != c
    requires |fields| == 3 && HasKey(fields, a) && HasKey(fields, b) && HasKey(fields, c)
    ensures ExactKeys(fields, [a, b, c])
  {}

  lemma FourKeys(fields: seq<Field>, a: string, b: string, c: string, d: string)
    requires DistinctKeys(fields) && a != b && a != c && b != c && a != d && b != d && c != d
    requires |fields| == 4 && HasKey(fields, a) && HasKey(fields, b) && HasKey(fields, c) && HasKey(fields, d)
    ensures ExactKeys(fields, [a, b, c, d])
  {}

  ghost predicate HasKey(fields: seq<Field>, key: string) {
    exists i :: 0 <= i < |fields| && fields[i].key == key
  }

  lemma MemberHasKey(fields: seq<Field>, key: string, v: Value)
    requires Field(key, v) in fields
    ensures HasKey(fields, key)
  {
    var i :| 0 <= i < |fields| && fields[i] == Field(key, v);
  }

  lemma NamesDiffer()
    ensures "type" != "ts" && "type" != "id" && "type" != "intent" && "type" != "error"
    ensures "ts" != "id" && "ts" != "intent" && "ts" != "error"
    ensures "id" != "intent" && "id" != "error"
  {
    assert |"type"| == 4 && |"ts"| == 2 && |"id"| == 2 && |"intent"| == 6 && |"error"| == 5;
    assert "ts"[0] == 't' && "id"[0] == 'i';
  }

  lemma KindsDiffer()
    ensures "queued" != "attempted" && "queued" != "failed" && "queued" != "completed"
    ensures "attempted" != "failed" && "attempted" != "completed" && "failed" != "completed"
  {
    assert "queued"[0] == 'q' && "attempted"[0] == 'a' && "failed"[0] == 'f' && "completed"[0] == 'c';
  }

  function KindOf(e: Event): string {
    match e
    case Queued(_, _) => "queued"
    case Attempted(_, _) => "attempted"
    case Failed(_, _, _) => "failed"
    case Completed(_, _) => "completed"
  }

  lemma HeadExact(fields: seq<Field>, e: Event)
    requires DistinctKeys(fields)
    ensures GetText(fields, "type") == Some(KindOf(e)) <==> Field("type", Str(KindOf(e))) in fields
    ensures GetText(fields, "ts") == Some(e.ts) <==> Field("ts", Str(e.ts)) in fields
  {
    TextExact(fields, "type", KindOf(e));
    TextExact(fields, "ts", e.ts);
  }

  lemma KeysOf(fields: seq<Field>, e: Event)
    requires DistinctKeys(fields) && EventMembers(fields, e)
    ensures ExactKeys(fields,
      if e.Queued? then ["type", "ts", "intent"] else if e.Failed? then ["type", "ts", "id", "error"] else ["type", "ts", "id"])
  {
    NamesDiffer();
    MemberHasKey(fields, "type", Str(KindOf(e)));
    MemberHasKey(fields, "ts", Str(e.ts));
    if e.Queued? {
      var inner :| Field("intent", Obj(inner)) in fields && IntentMembers(inner, e.intent);
      MemberHasKey(fields, "intent", Obj(inner));
      ThreeKeys(fields, "type", "ts", "intent");
    } else {
      MemberHasKey(fields, "id", Str(e.id));
      if e.Failed? {
        MemberHasKey(fields, "error", Str(e.error));
        FourKeys(fields, "type", "ts", "id", "error");
      } else {
        ThreeKeys(fields, "type", "ts", "id");
      }
    }
  }

  /** What reads as an event has its kind and time in their members. */
  lemma HeadRead(fields: seq<Field>, e: Event)
    requires ParseEvent(Obj(fields)) == Ok(e)
    ensures GetText(fields, "type") == Some(KindOf(e)) && GetText(fields, "ts") == Some(e.ts)
  {}

  lemma PlainParse(fields: seq<Field>, e: Event)
    requires GetText(fields, "type") == Some(KindOf(e)) && GetText(fields, "ts") == Some(e.ts)
    requires e.Attempted? || e.Completed?
    ensures ParseEvent(Obj(fields)) == Ok(e) <==>
      ValidTimestamp(e.ts) && GetText(fields, "id") == Some(e.id) && ExactKeys(fields, ["type", "ts", "id"])
  {
    KindsDiffer();
  }

  lemma FailedParse(fields: seq<Field>, e: Event)
    requires GetText(fields, "type") == Some(KindOf(e)) && GetText(fields, "ts") == Some(e.ts)
    requires e.Failed?
    ensures ParseEvent(Obj(fields)) == Ok(e) <==>
      && ValidTimestamp(e.ts) && GetText(fields, "id") == Some(e.id) && GetText(fields, "error") == Some(e.error)
      && |e.error| <= 500 && ExactKeys(fields, ["type", "ts", "id", "error"])
  {
    KindsDiffer();
  }

  lemma QueuedParse(fields: seq<Field>, e: Event)
    requires GetText(fields, "type") == Some(KindOf(e)) && GetText(fields, "ts") == Some(e.ts)
    requires e.Queued?
    ensures ParseEvent(Obj(fields)) == Ok(e) <==>
      && ValidTimestamp(e.ts) && ExactKeys(fields, ["type", "ts", "intent"])
      && Get(fields, "intent").Some? && ParseIntent(Get(fields, "intent").value) == Some(e.intent)
  {}

  lemma StepReadExact(fields: seq<Field>, e: Event)
    requires DistinctKeys(fields) && !e.Queued?
    ensures ParseEvent(Obj(fields)) == Ok(e) <==>
      EventMembers(fields, e) && ValidTimestamp(e.ts) && (e.Failed? ==> |e.error| <= 500)
  {
    HeadExact(fields, e);
    TextExact(fields, "id", e.id);
    if EventMembers(fields, e) { KeysOf(fields, e); }
    if ParseEvent(Obj(fields)) == Ok(e) { HeadRead(fields, e); }
    if GetText(fields, "type") == Some(KindOf(e)) && GetText(fields, "ts") == Some(e.ts) {
      if e.Failed? {
        TextExact(fields, "error", e.error);
        FailedParse(fields, e);
      } else {
        PlainParse(fields, e);
      }
    }
  }

  lemma QueuedReadExact(fields: seq<Field>, e: Event)
    requires WellFormed(Obj(fields)) && e.Queued?
    ensures ParseEvent(Obj(fields)) == Ok(e) <==>
      EventMembers(fields, e) && ValidTimestamp(e.ts) && L.Admitted(e.intent)
  {
    HeadExact(fields, e);
    InnerReadExact(fields, e.intent);
    if EventMembers(fields, e) { KeysOf(fields, e); }
    if ParseEvent(Obj(fields)) == Ok(e) { HeadRead(fields, e); }
    if GetText(fields, "type") == Some(KindOf(e)) && GetText(fields, "ts") == Some(e.ts) { QueuedParse(fields, e); }
  }

  /** The member `intent` is read. */
  lemma InnerReadExact(fields: seq<Field>, intent: Intent)
    requires WellFormed(Obj(fields))
    ensures (exists v :: Get(fields, "intent") == Some(v) && ParseIntent(v) == Some(intent)) <==> HoldsIntent(fields, intent) && L.Admitted(intent)
  {
    forall inner | Field("intent", Obj(inner)) in fields
      ensures ParseIntent(Obj(inner)) == Some(intent) <==> IntentMembers(inner, intent) && L.Admitted(intent)
    {
      assert WellFormed(Obj(inner));
      IntentReadExact(inner, intent);
    }
    forall v ensures Get(fields, "intent") == Some(v) <==> Field("intent", v) in fields { GetExact(fields, "intent", v); }
    if HoldsIntent(fields, intent) && L.Admitted(intent) {
      var inner :| Field("intent", Obj(inner)) in fields && IntentMembers(inner, intent);
      assert Get(fields, "intent") == Some(Obj(inner));
    }
  }

  /** An object reads as an event exactly when it has the members of that event, in any order, and they are valid. */
  lemma EventReadExact(v: Value, e: Event)
    requires WellFormed(v)
    ensures ParseEvent(v) == Ok(e) <==>
      && v.Obj? && EventMembers(v.fields, e)
      && ValidTimestamp(e.ts) && (e.Queued? ==> L.Admitted(e.intent)) && (e.Failed? ==> |e.error| <= 500)
  {
    if v.Obj? {
      if e.Queued? { QueuedReadExact(v.fields, e); } else { StepReadExact(v.fields, e); }
    }
  }

  // ----- which files load -----

  /** The line is short enough, and reader and validation take it for the event. */
  ghost predicate ReadsAs(parse: Parser, line: string, e: Event) {
    |T.AllUtf8(line)| <= 8192 && parse(line).Some? && ParseEvent(parse(line).value) == Ok(e)
  }

  ghost predicate AllRead(parse: Parser, lines: seq<string>, events: seq<Event>) {
    |events| == |lines| && forall i :: 0 <= i < |lines| ==> ReadsAs(parse, lines[i], events[i])
  }

  lemma LineReplays(parse: Parser, records: Records, line: string, e: Event)
    requires ReadsAs(parse, line, e)
    ensures ReadLine(parse, records, line) == ApplyEvent(records, e)
  {
    T.ByteLengthExact(line);
  }

  lemma AllReadFront(parse: Parser, lines: seq<string>, events: seq<Event>)
    requires AllRead(parse, lines, events) && lines != []
    ensures AllRead(parse, lines[..|lines| - 1], events[..|events| - 1])
    ensures ReadsAs(parse, lines[|lines| - 1], events[|events| - 1])
  {}

  lemma {:induction false} LinesReplay(parse: Parser, lines: seq<string>, events: seq<Event>)
    requires AllRead(parse, lines, events)
    ensures ReadLines(parse, lines) == Replay(events)
  {
    if lines != [] {
      var front := lines[..|lines| - 1];
      AllReadFront(parse, lines, events);
      LinesReplay(parse, front, events[..|events| - 1]);
      var before := ReadLines(parse, front);
      if before.Ok? { LineReplays(parse, before.value, lines[|lines| - 1], events[|events| - 1]); }
    }
  }

  lemma LineHolds(parse: Parser, records: Records, line: string) returns (e: Event)
    requires ReadLine(parse, records, line).Ok?
    ensures ReadsAs(parse, line, e)
  {
    T.ByteLengthExact(line);
    e := ParseEvent(parse(line).value).value;
  }

  lemma AllReadNext(parse: Parser, lines: seq<string>, before: seq<Event>, e: Event)
    requires lines != [] && AllRead(parse, lines[..|lines| - 1], before) && ReadsAs(parse, lines[|lines| - 1], e)
    ensures AllRead(parse, lines, before + [e])
  {}

  lemma LastHolds(parse: Parser, lines: seq<string>) returns (e: Event)
    requires lines != [] && ReadLines(parse, lines).Ok?
    ensures ReadLines(parse, lines[..|lines| - 1]).Ok? && ReadsAs(parse, lines[|lines| - 1], e)
  {
    e := LineHolds(parse, ReadLines(parse, lines[..|lines| - 1]).value, lines[|lines| - 1]);
  }

  lemma {:induction false} LinesHold(parse: Parser, lines: seq<string>) returns (events: seq<Event>)
    requires ReadLines(parse, lines).Ok?
    ensures AllRead(parse, lines, events)
  {
    if lines == [] {
      events := [];
    } else {
      var e := LastHolds(parse, lines);
      var before := LinesHold(parse, lines[..|lines| - 1]);
      AllReadNext(parse, lines, before, e);
      events := before + [e];
    }
  }

  /**
   * Any file at all loads exactly when it is within the limits, every line of it reads as
   * an event, and those events are a lawful log; and what it loads is their replay.
   */
  lemma LoadDecides(parse: Parser, limits: Limits, text: string)
    ensures LoadText(parse, limits, text).Ok? <==>
      && |T.AllUtf8(text)| <= limits.maxFileBytes && |Fragments(text)| <= limits.maxEvents
      && exists events :: AllRead(parse, Fragments(text), events) && L.Lawful(events)
    ensures forall events :: LoadText(parse, limits, text).Ok? && AllRead(parse, Fragments(text), events) ==>
      LoadText(parse, limits, text) == Replay(events)
  {
    T.ByteLengthExact(text);
    var lines := Fragments(text);
    forall events | AllRead(parse, lines, events)
      ensures ReadLines(parse, lines) == Replay(events) && (Replay(events).Ok? <==> L.Lawful(events))
    {
      LinesReplay(parse, lines, events);
      L.ReplayDecides(events);
    }
    if ReadLines(parse, lines).Ok? {
      var events := LinesHold(parse, lines);
      assert AllRead(parse, lines, events);
    }
  }

  /** Repair of any file: a line that is not ended is ended when it reads as an event, and cut off when it does not. */
  lemma RepairExact(parse: Parser, raw: seq<string>, last: string)
    requires J.NoFeed(last) && forall i :: 0 <= i < |raw| ==> J.NoFeed(raw[i])
    ensures Repair(parse, J.Ended(raw) + last) ==
      if last == "" then J.Ended(raw)
      else if parse(last).Some? && ParseEvent(parse(last).value).Ok? then J.Ended(raw + [last])
      else J.Ended(raw)
  {
    EndedSettled(raw);
    EndedMore(raw, last);
    if last == "" {
      assert J.Ended(raw) + last == J.Ended(raw);
      SettledStays(parse, J.Ended(raw));
    } else {
      RepairTail(parse, J.Ended(raw), last);
    }
  }

  lemma {:induction false} EndedSettled(raw: seq<string>)
    ensures Settled(J.Ended(raw))
  {
    if raw != [] { EndedSettled(raw[1..]); }
  }

  lemma {:induction false} EndedMore(raw: seq<string>, last: string)
    ensures J.Ended(raw + [last]) == (J.Ended(raw) + last) + "\n"
  {
    if raw == [] {
      assert [] + [last] == [last] && [last][1..] == [];
    } else {
      EndedMore(raw[1..], last);
      assert (raw + [last])[1..] == raw[1..] + [last];
    }
  }
}
