/**
 * The append-only reversal log: loading, appending, and repairing the tail that
 * a crash in the middle of an append leaves behind.
 */
module ReversalStore {
  import opened Prelude
  import opened Json
  import opened JsonScan
  import opened ReversalEvents
  import J = JournalLines

  type Parser = string -> Option<Value>
  type Records = map<string, Record>

  datatype Limits = Limits(maxFileBytes: nat, maxRecords: nat, maxEvents: nat)

  const MAX_LINE_BYTES := 8192

  // ----- the file -----

  function Keep(fragment: string): seq<string> {
    if fragment == "" then [] else [fragment]
  }

  /** The non-empty parts between line ends; only a terminated part loses its carriage return. */
  function Fragments(text: string): seq<string>
    decreases |text|
  {
    if text == "" then []
    else
      var n := J.LineEnd(text);
      if n == |text| then Keep(text) else Keep(J.StripReturn(text[..n])) + Fragments(text[n + 1..])
  }

  function ReadLine(parse: Parser, records: Records, line: string): Result<Records, string> {
    if ByteLength(line) > MAX_LINE_BYTES then Err("oversized event")
    else
      match parse(line)
      case None => Err("invalid JSON")
      case Some(v) =>
        var event := ParseEvent(v);
        if event.Err? then Err(event.error) else ApplyEvent(records, event.value)
  }

  function ReadLines(parse: Parser, lines: seq<string>): Result<Records, string> {
    if lines == [] then Ok(map[])
    else
      var before := ReadLines(parse, lines[..|lines| - 1]);
      if before.Err? then before else ReadLine(parse, before.value, lines[|lines| - 1])
  }

  function LoadText(parse: Parser, limits: Limits, text: string): Result<Records, string> {
    if ByteLength(text) > limits.maxFileBytes then Err("byte limit")
    else if |Fragments(text)| > limits.maxEvents then Err("too many events")
    else ReadLines(parse, Fragments(text))
  }

  function LineOf(e: Event): string { Print(EventJson(e)) + "\n" }

  function AppendTo(limits: Limits, text: string, e: Event): Result<string, string> {
    if ByteLength(LineOf(e)) > MAX_LINE_BYTES then Err("event exceeds 8192 bytes")
    else if ByteLength(text) + ByteLength(LineOf(e)) > limits.maxFileBytes then Err("byte limit")
    else if |Fragments(text)| >= limits.maxEvents then Err("event limit")
    else Ok(text + LineOf(e))
  }

  /** Where the text after the last line feed starts. */
  function TailStart(text: string): (n: nat)
    ensures n <= |text|
    ensures n > 0 ==> text[n - 1] == '\n'
    ensures forall i :: n <= i < |text| ==> text[i] != '\n'
  {
    if text == "" then 0
    else if text[|text| - 1] == '\n' then |text|
    else TailStart(text[..|text| - 1])
  }

  predicate ReadsEvent(parse: Parser, line: string) {
    parse(line).Some? && ParseEvent(parse(line).value).Ok?
  }

  function Repair(parse: Parser, text: string): string {
    var cut := TailStart(text);
    if cut == |text| then text
    else if ReadsEvent(parse, text[cut..]) then text + "\n"
    else text[..cut]
  }

  // ----- what a log of events looks like on disk -----

  function LogText(events: seq<Event>): string {
    if events == [] then "" else LogText(events[..|events| - 1]) + LineOf(events[|events| - 1])
  }

  function Printed(events: seq<Event>): seq<string> {
    if events == [] then [] else Printed(events[..|events| - 1]) + [Print(EventJson(events[|events| - 1]))]
  }

  /** Nothing, or text that ends a line. */
  predicate Settled(text: string) {
    text == "" || text[|text| - 1] == '\n'
  }

  lemma FirstFragment(text: string, n: nat)
    requires n < |text| && n == J.LineEnd(text)
    ensures Fragments(text) == Keep(J.StripReturn(text[..n])) + Fragments(text[n + 1..])
  {}

  /** Something put behind a settled text leaves its first line alone. */
  lemma SplitFirst(a: string, b: string) returns (n: nat, head: seq<string>)
    requires a != "" && Settled(a)
    ensures n < |a| && Settled(a[n + 1..])
    ensures Fragments(a) == head + Fragments(a[n + 1..])
    ensures Fragments(a + b) == head + Fragments(a[n + 1..] + b)
  {
    n := J.LineEnd(a);
    head := Keep(J.StripReturn(a[..n]));
    LineEndAppend(a, b, n);
    CutAppend(a, b, n);
    FirstFragment(a, n);
    FirstFragment(a + b, n);
  }

  lemma LineEndAppend(a: string, b: string, n: nat)
    requires n == J.LineEnd(a) < |a|
    ensures J.LineEnd(a + b) == n
  {
    J.LineEndIs(a + b, n);
  }

  lemma CutAppend(a: string, b: string, n: nat)
    requires n < |a|
    ensures (a + b)[..n] == a[..n] && (a + b)[n + 1..] == a[n + 1..] + b
    ensures Settled(a) ==> Settled(a[n + 1..])
  {}

  lemma Associate(a: seq<string>, b: seq<string>, c: seq<string>)
    ensures a + (b + c) == (a + b) + c
  {}

  lemma {:induction false} FragmentsAppend(a: string, b: string)
    requires Settled(a)
    ensures Fragments(a + b) == Fragments(a) + Fragments(b)
    decreases |a|
  {
    if a == "" {
      assert a + b == b;
    } else {
      var n, head := SplitFirst(a, b);
      FragmentsAppend(a[n + 1..], b);
      Associate(head, Fragments(a[n + 1..]), Fragments(b));
    }
  }

  /** A printed event is one line that starts an object. */
  lemma EventLine(e: Event)
    requires ValidEvent(e)
    ensures J.OneFullLine(Print(EventJson(e))) && Fragments(LineOf(e)) == [Print(EventJson(e))]
  {
    EventRoundTrip(e);
    var line := Print(EventJson(e));
    PrintOneLine(EventJson(e), "");
    PrintKind(EventJson(e), "");
    J.LineEndIs(line + "\n", |line|);
    assert (line + "\n")[..|line|] == line && (line + "\n")[|line| + 1..] == "";
    assert Fragments(LineOf(e)) == [line] + Fragments("");
  }

  ghost predicate AllValid(events: seq<Event>) {
    forall i :: 0 <= i < |events| ==> ValidEvent(events[i])
  }

  lemma {:induction false} LogFragments(events: seq<Event>)
    requires AllValid(events)
    ensures Settled(LogText(events)) && Fragments(LogText(events)) == Printed(events) && |Printed(events)| == |events|
  {
    if events != [] {
      var front, last := events[..|events| - 1], events[|events| - 1];
      LogFragments(front);
      EventLine(last);
      FragmentsAppend(LogText(front), LineOf(last));
    }
  }

  /**
   * `JSON.parse` as far as the log relies on it: it reads back the events the store
   * prints, and it reads only text whose brackets balance.
   */
  ghost predicate ReadsEvents(parse: Parser) {
    && (forall e {:trigger EventJson(e)} :: ValidEvent(e) ==> parse(Print(EventJson(e))) == Some(EventJson(e)))
    && (forall text {:trigger parse(text)} :: parse(text).Some? ==> Balanced(text))
  }

  /** Such readers exist. */
  lemma ReaderExists()
    ensures ReadsEvents(StrictReader)
  {
    StrictReaderReads();
    forall e {:trigger EventJson(e)} | ValidEvent(e) ensures StrictReader(Print(EventJson(e))) == Some(EventJson(e)) {
      EventRoundTrip(e);
    }
  }

  ghost predicate LinesFit(events: seq<Event>) {
    forall i :: 0 <= i < |events| ==> ByteLength(LineOf(events[i])) <= MAX_LINE_BYTES
  }

  lemma {:induction false} LogReads(parse: Parser, events: seq<Event>)
    requires ReadsEvents(parse) && AllValid(events) && LinesFit(events)
    ensures ReadLines(parse, Printed(events)) == Replay(events)
  {
    if events != [] {
      var front, last := events[..|events| - 1], events[|events| - 1];
      LogReads(parse, front);
      LastLine(Printed(front), Print(EventJson(last)));
      if Replay(front).Ok? { EventReads(parse, Replay(front).value, last); }
    }
  }

  lemma LastLine(lines: seq<string>, line: string)
    ensures (lines + [line])[..|lines + [line]| - 1] == lines && (lines + [line])[|lines + [line]| - 1] == line
  {}

  /** One printed event, read back, does what the event does. */
  lemma EventReads(parse: Parser, records: Records, e: Event)
    requires ReadsEvents(parse) && ValidEvent(e) && ByteLength(LineOf(e)) <= MAX_LINE_BYTES
    ensures ReadLine(parse, records, Print(EventJson(e))) == ApplyEvent(records, e)
  {
    EventRoundTrip(e);
    ByteLengthAppend(Print(EventJson(e)), "\n");
  }

  /** The events of a healthy log: each as the store writes it, together within the limits. */
  ghost predicate GoodLog(limits: Limits, events: seq<Event>) {
    && AllValid(events) && LinesFit(events)
    && |events| <= limits.maxEvents
    && ByteLength(LogText(events)) <= limits.maxFileBytes
    && Replay(events).Ok?
    && |Replay(events).value| <= limits.maxRecords
  }

  /** A healthy log loads, and what it loads is the replay of its events. */
  lemma LogLoads(parse: Parser, limits: Limits, events: seq<Event>)
    requires ReadsEvents(parse) && GoodLog(limits, events)
    ensures LoadText(parse, limits, LogText(events)) == Replay(events)
  {
    LogFragments(events);
    LogReads(parse, events);
  }

  // ----- repair -----

  lemma TailStartIs(a: string, tail: string)
    requires Settled(a) && forall i :: 0 <= i < |tail| ==> tail[i] != '\n'
    ensures TailStart(a + tail) == |a|
  {
    var n := TailStart(a + tail);
    if n > 0 { CharAt(a, tail, n - 1); }
    if a != "" { CharAt(a, tail, |a| - 1); }
  }

  /** Repair settles any file whatever, and a settled file is left alone. */
  lemma RepairIdempotent(parse: Parser, text: string)
    ensures Settled(Repair(parse, text))
    ensures Settled(text) ==> Repair(parse, text) == text
    ensures Repair(parse, Repair(parse, text)) == Repair(parse, text)
  {
    var cut := TailStart(text);
    assert cut > 0 ==> text[..cut][cut - 1] == text[cut - 1];
    if Settled(text) { SettledStays(parse, text); }
    SettledStays(parse, Repair(parse, text));
  }

  lemma SettledStays(parse: Parser, text: string)
    requires Settled(text)
    ensures Repair(parse, text) == text
  {
    if text != "" { assert TailStart(text) == |text|; }
  }

  /** What a reader of UTF-8 makes of a character that was cut short. */
  const REPLACEMENT := '\U{FFFD}'

  /** What the first `bytes` bytes of a text read as. */
  function Decoded(s: string, bytes: nat): string {
    if s == "" || bytes == 0 then ""
    else if bytes < CharBytes(s[0]) then [REPLACEMENT]
    else [s[0]] + Decoded(s[1..], bytes - CharBytes(s[0]))
  }

  lemma TakeTail(s: string, m: nat)
    requires m < |s|
    ensures s[..m + 1] == [s[0]] + s[1..][..m] && s[..m + 1][1..] == s[1..][..m] && s[..m + 1][0] == s[0]
  {}

  /** A cut falls behind the character `k - 1`, or inside the character `k`. */
  lemma {:induction false} DecodedShape(s: string, bytes: nat) returns (k: nat)
    requires bytes <= ByteLength(s)
    ensures k <= |s| && ByteLength(s[..k]) <= bytes
    ensures if ByteLength(s[..k]) == bytes then Decoded(s, bytes) == s[..k]
      else k < |s| && CharBytes(s[k]) > 1 && bytes < ByteLength(s[..k + 1]) && Decoded(s, bytes) == s[..k] + [REPLACEMENT]
    decreases |s|
  {
    if s == "" || bytes == 0 {
      k := 0;
    } else if bytes < CharBytes(s[0]) {
      k := 0;
      assert s[..1] == [s[0]] && ByteLength(s[..1]) == CharBytes(s[0]) + ByteLength(s[..1][1..]);
    } else {
      var m := DecodedShape(s[1..], bytes - CharBytes(s[0]));
      k := m + 1;
      TakeTail(s, m);
      if k < |s| { TakeTail(s, m + 1); }
    }
  }

  lemma PrefixBytes(s: string, k: nat)
    requires k <= |s|
    ensures ByteLength(s) == ByteLength(s[..k]) + ByteLength(s[k..])
    ensures k < |s| ==> ByteLength(s[..k]) < ByteLength(s)
  {
    assert s == s[..k] + s[k..];
    ByteLengthAppend(s[..k], s[k..]);
  }

  /**
   * Crash atomicity: whatever bytes of one appended line reached the file, repair
   * leaves exactly the file before the append or exactly the file after it. The
   * append survives as soon as everything but the line feed was written.
   */
  lemma CrashAtomic(parse: Parser, text: string, e: Event, bytes: nat)
    requires ReadsEvents(parse) && Settled(text) && ValidEvent(e) && bytes <= ByteLength(LineOf(e))
    ensures Repair(parse, text + Decoded(LineOf(e), bytes)) ==
      if bytes < ByteLength(LineOf(e)) - 1 then text else text + LineOf(e)
  {
    var k := DecodedShape(LineOf(e), bytes);
    CutBytes(e, k);
    if ByteLength(LineOf(e)[..k]) == bytes {
      CutAtomic(parse, text, e, k);
    } else {
      GarbledAtomic(parse, text, e, k);
    }
  }

  /** How far a cut behind `k` characters is from the end in bytes. */
  lemma CutBytes(e: Event, k: nat)
    requires k <= |LineOf(e)|
    ensures ByteLength(LineOf(e)[..k]) < ByteLength(LineOf(e)) - 1 <==> k < |LineOf(e)| - 1
    ensures k < |LineOf(e)| - 1 ==> ByteLength(LineOf(e)[..k + 1]) <= ByteLength(LineOf(e)) - 1
  {
    var line := Print(EventJson(e));
    ByteLengthAppend(line, "\n");
    assert ByteLength("\n") == 1;
    if k <= |line| {
      assert LineOf(e)[..k] == line[..k];
      PrefixBytes(line, k);
      if k < |line| {
        assert LineOf(e)[..k + 1] == line[..k + 1];
        PrefixBytes(line, k + 1);
      } else {
        assert line[..k] == line;
      }
    } else {
      assert LineOf(e)[..k] == LineOf(e);
    }
  }

  /** The cut between two characters. */
  lemma CutAtomic(parse: Parser, text: string, e: Event, k: nat)
    requires ReadsEvents(parse) && Settled(text) && ValidEvent(e) && k <= |LineOf(e)|
    ensures Repair(parse, text + LineOf(e)[..k]) == if k < |LineOf(e)| - 1 then text else text + LineOf(e)
  {
    var line := Print(EventJson(e));
    EventLine(e);
    EventRoundTrip(e);
    forall j | 0 < j < |line| ensures !ReadsEvent(parse, line[..j]) {
      TornObjectUnreadable(EventFields(e), j);
    }
    TornLine(parse, text, line, k);
  }

  lemma EventStarts(e: Event)
    requires ValidEvent(e)
    ensures Print(EventJson(e)) != "" && Print(EventJson(e))[0] == '{'
  {
    EventRoundTrip(e);
    PrintKind(EventJson(e), "");
  }

  lemma GarbledUnread(parse: Parser, e: Event, k: nat)
    requires ReadsEvents(parse) && ValidEvent(e) && 0 < k < |Print(EventJson(e))|
    ensures !ReadsEvent(parse, Print(EventJson(e))[..k] + [REPLACEMENT])
  {
    EventRoundTrip(e);
    GarbledObjectUnreadable(EventFields(e), k, REPLACEMENT);
  }

  /** The cut inside a character of several bytes. */
  lemma GarbledAtomic(parse: Parser, text: string, e: Event, k: nat)
    requires ReadsEvents(parse) && Settled(text) && ValidEvent(e) && k < |LineOf(e)| && CharBytes(LineOf(e)[k]) > 1
    ensures k < |LineOf(e)| - 1
    ensures Repair(parse, text + (LineOf(e)[..k] + [REPLACEMENT])) == text
  {
    var line := Print(EventJson(e));
    EventLine(e);
    EventStarts(e);
    assert LineOf(e)[..k] == line[..k];
    GarbledUnread(parse, e, k);
    RepairTail(parse, text, line[..k] + [REPLACEMENT]);
  }

  /** The same of any line that reads as an event and of which no proper part does. */
  lemma TornLine(parse: Parser, text: string, line: string, k: nat)
    requires Settled(text) && J.OneFullLine(line) && k <= |line + "\n"|
    requires ReadsEvent(parse, line) && forall j :: 0 < j < |line| ==> !ReadsEvent(parse, line[..j])
    ensures Repair(parse, text + (line + "\n")[..k]) == if k < |line| then text else text + (line + "\n")
  {
    var tail := (line + "\n")[..k];
    if k == 0 {
      assert text + tail == text;
      SettledStays(parse, text);
    } else if k <= |line| {
      assert tail == line[..k];
      assert k == |line| ==> tail == line;
      RepairTail(parse, text, tail);
      assert (text + line) + "\n" == text + (line + "\n");
    } else {
      assert tail == line + "\n";
      SettledStays(parse, text + tail);
    }
  }

  /** Repair looks at the unfinished line alone. */
  lemma RepairTail(parse: Parser, text: string, tail: string)
    requires Settled(text) && tail != "" && forall i :: 0 <= i < |tail| ==> tail[i] != '\n'
    ensures Repair(parse, text + tail) == if ReadsEvent(parse, tail) then (text + tail) + "\n" else text
  {
    TailStartIs(text, tail);
    assert (text + tail)[|text|..] == tail && (text + tail)[..|text|] == text;
  }
}
