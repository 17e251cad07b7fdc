/** Splitting journal text into lines, the inverse of serialising a journal. */
module JournalLines {
  import opened Prelude
  import opened Json
  import opened CanonicalJson

  /** The first line feed at or after the start, or the length when there is none. */
  function LineEnd(text: string): (n: nat)
    ensures n <= |text|
    ensures forall i :: 0 <= i < n ==> text[i] != '\n'
    ensures n < |text| ==> text[n] == '\n'
  {
    if text == "" || text[0] == '\n' then 0 else 1 + LineEnd(text[1..])
  }

  function StripReturn(line: string): string {
    if line != "" && line[|line| - 1] == '\r' then line[..|line| - 1] else line
  }

  /** A final line without a line feed counts; a final line feed starts no further line. */
  function LinesOf(text: string): seq<string>
    decreases |text|
  {
    if text == "" then []
    else
      var n := LineEnd(text);
      if n == |text| then [StripReturn(text)] else [StripReturn(text[..n])] + LinesOf(text[n + 1..])
  }

  /** Where the line from `start` stops once its end is found at `index`. */
  function Stop(text: string, start: nat, index: nat): nat
    requires start <= index <= |text|
  {
    if index > start && text[index - 1] == '\r' then index - 1 else index
  }

  lemma StopStrips(text: string, start: nat, index: nat)
    requires start <= index <= |text|
    ensures StripReturn(text[start..][..index - start]) == text[start..Stop(text, start, index)]
  {
    assert text[start..][..index - start] == text[start..index];
  }

  lemma NextLine(text: string, start: nat, index: nat)
    requires start <= index <= |text| && start < |text|
    requires forall i :: start <= i < index ==> text[i] != '\n'
    requires index < |text| ==> text[index] == '\n'
    ensures var line := text[start..Stop(text, start, index)];
      LinesOf(text[start..]) == [line] + if index < |text| then LinesOf(text[index + 1..]) else []
  {
    var rest := text[start..];
    LineEndIs(rest, index - start);
    StopStrips(text, start, index);
    if index < |text| {
      assert rest[index - start + 1..] == text[index + 1..];
    } else {
      assert rest[..index - start] == rest;
    }
  }

  /** The lines found so far, and those still in the text, make up the whole. */
  ghost predicate Split(lines: seq<string>, text: string, start: nat, whole: seq<string>)
    requires start <= |text|
  {
    lines + LinesOf(text[start..]) == whole
  }

  lemma SplitStep(lines: seq<string>, text: string, start: nat, index: nat, whole: seq<string>)
    requires start <= index <= |text| && start < |text|
    requires forall i :: start <= i < index ==> text[i] != '\n'
    requires index < |text| ==> text[index] == '\n'
    requires Split(lines, text, start, whole)
    ensures var more := lines + [text[start..Stop(text, start, index)]];
      if index < |text| then Split(more, text, index + 1, whole) else more == whole
  {
    NextLine(text, start, index);
    var line := text[start..Stop(text, start, index)];
    Regroup(lines, line, LinesOf(text[start..]), if index < |text| then LinesOf(text[index + 1..]) else []);
  }

  lemma Regroup(lines: seq<string>, line: string, rest: seq<string>, tail: seq<string>)
    requires rest == [line] + tail
    ensures lines + rest == lines + [line] + tail
    ensures tail == [] ==> lines + rest == lines + [line]
  {}

  lemma SplitStarts(text: string)
    ensures Split([], text, 0, LinesOf(text))
  {
    assert text[0..] == text;
  }

  lemma SplitEnds(lines: seq<string>, text: string, start: nat, whole: seq<string>)
    requires start == |text| && Split(lines, text, start, whole)
    ensures lines == whole
  {
    assert text[start..] == "";
    assert lines + [] == lines;
  }

  method SplitLines(text: string) returns (lines: seq<string>)
    ensures lines == LinesOf(text)
  {
    lines := [];
    var start := 0;
    ghost var whole := LinesOf(text);
    SplitStarts(text);
    for index := 0 to |text|
      invariant 0 <= start <= index
      invariant forall i :: start <= i < index ==> text[i] != '\n'
      invariant Split(lines, text, start, whole)
    {
      if text[index] == '\n' {
        lines := AddLine(lines, text, start, index, whole);
        start := index + 1;
      }
    }
    if start < |text| {
      lines := AddLine(lines, text, start, |text|, whole);
    } else {
      SplitEnds(lines, text, start, whole);
    }
  }

  /** The line from `start` to `index`, without its carriage return. */
  method AddLine(lines: seq<string>, text: string, start: nat, index: nat, ghost whole: seq<string>) returns (more: seq<string>)
    requires start <= index <= |text| && start < |text|
    requires forall i :: start <= i < index ==> text[i] != '\n'
    requires index < |text| ==> text[index] == '\n'
    requires Split(lines, text, start, whole)
    ensures if index < |text| then Split(more, text, index + 1, whole) else more == whole
  {
    SplitStep(lines, text, start, index, whole);
    more := lines + [text[start..Stop(text, start, index)]];
  }

  lemma {:induction false} LineEndIs(text: string, n: nat)
    requires n <= |text| && forall i :: 0 <= i < n ==> text[i] != '\n'
    requires n < |text| ==> text[n] == '\n'
    ensures LineEnd(text) == n
  {
    if n > 0 { LineEndIs(text[1..], n - 1); }
  }

  predicate OneFullLine(line: string) {
    line != "" && forall i :: 0 <= i < |line| ==> line[i] != '\n' && line[i] != '\r'
  }

  lemma {:induction false} AppendLine(text: string, line: string)
    requires text != "" && text[|text| - 1] != '\n' && OneFullLine(line)
    ensures LinesOf(text + "\n" + line) == LinesOf(text) + [line]
    decreases |text|
  {
    var whole := text + "\n" + line;
    var n := LineEnd(text);
    LineEndIs(whole, n);
    if n == |text| {
      assert whole[..n] == text && whole[n + 1..] == line;
      FullLine(line);
    } else {
      var more := text[n + 1..];
      assert whole[..n] == text[..n] && whole[n + 1..] == more + "\n" + line;
      AppendLine(more, line);
    }
  }

  lemma FullLine(line: string)
    requires OneFullLine(line)
    ensures LinesOf(line) == [line]
  {
    LineEndIs(line, |line|);
  }

  function Texts(events: seq<Value>): seq<string> {
    if events == [] then [] else Texts(events[..|events| - 1]) + [StableText(events[|events| - 1])]
  }

  lemma StableTextIsLine(v: Value)
    requires WellFormed(v)
    ensures OneFullLine(StableText(v)) && LinesOf(StableText(v)) == [StableText(v)]
  {
    CanonWellFormed(v);
    PrintOneLine(Canon(v), "");
    PrintKind(Canon(v), "");
    FullLine(StableText(v));
  }

  /** Reading a serialised journal line by line gives back exactly each event's text, in order. */
  lemma {:induction false} JournalReadsBack(events: seq<Value>)
    requires forall i :: 0 <= i < |events| ==> WellFormed(events[i])
    ensures LinesOf(JournalText(events)) == Texts(events)
    ensures events != [] ==> JournalText(events) != "" && JournalText(events)[|JournalText(events)| - 1] != '\n'
  {
    if events != [] {
      var front := events[..|events| - 1];
      var last := events[|events| - 1];
      JournalReadsBack(front);
      StableTextIsLine(last);
      if front == [] {
        assert JournalText(events) == StableText(last);
      } else {
        AppendLine(JournalText(front), StableText(last));
      }
    }
  }

  // ----- which lines a text has -----

  predicate NoFeed(line: string) {
    forall i :: 0 <= i < |line| ==> line[i] != '\n'
  }

  /** Lines as they stand in a text, each ended by a line feed. */
  function Ended(raw: seq<string>): string {
    if raw == [] then "" else raw[0] + "\n" + Ended(raw[1..])
  }

  /** The same lines as they are read: a carriage return at the end goes. */
  function Read(raw: seq<string>): seq<string> {
    seq(|raw|, i requires 0 <= i < |raw| =>
      if |raw[i]| > 0 && raw[i][|raw[i]| - 1] == '\r' then raw[i][..|raw[i]| - 1] else raw[i])
  }

  lemma EndedLine(line: string, more: string)
    requires NoFeed(line)
    ensures LinesOf(line + "\n" + more) == [StripReturn(line)] + LinesOf(more)
  {
    var text := line + "\n" + more;
    LineEndIs(text, |line|);
    assert text[..|line|] == line && text[|line| + 1..] == more;
  }

  lemma ReadHead(raw: seq<string>)
    requires raw != []
    ensures Read(raw) == [StripReturn(raw[0])] + Read(raw[1..])
  {}

  lemma EndedHead(raw: seq<string>, last: string)
    requires raw != []
    ensures Ended(raw) + last == raw[0] + "\n" + (Ended(raw[1..]) + last)
  {}

  lemma LastAlone(last: string)
    requires NoFeed(last)
    ensures LinesOf(last) == LastRead(last)
  {
    if last != "" { LineEndIs(last, |last|); }
  }

  function LastRead(last: string): seq<string> {
    if last == "" then [] else Read([last])
  }

  /** Whatever lines a text is made of, ended or with a last one that is not, those are read, in order. */
  lemma {:induction false} LinesExact(raw: seq<string>, last: string, text: string)
    requires NoFeed(last) && (forall i :: 0 <= i < |raw| ==> NoFeed(raw[i])) && text == Ended(raw) + last
    ensures LinesOf(text) == Read(raw) + LastRead(last)
    decreases |raw|
  {
    if raw == [] {
      LastAlone(last);
      assert text == last;
    } else {
      var more := Ended(raw[1..]) + last;
      LinesExact(raw[1..], last, more);
      EndedHead(raw, last);
      EndedLine(raw[0], more);
      ReadHead(raw);
      LinesConclude(StripReturn(raw[0]), Read(raw[1..]), LastRead(last));
    }
  }

  lemma LinesConclude(line: string, lines: seq<string>, last: seq<string>)
    ensures [line] + (lines + last) == [line] + lines + last
  {}

  /** Every text is made of such lines. */
  lemma {:induction false} EveryTextHasLines(text: string) returns (raw: seq<string>, last: string)
    ensures NoFeed(last) && (forall i :: 0 <= i < |raw| ==> NoFeed(raw[i])) && text == Ended(raw) + last
    decreases |text|
  {
    var n := LineEnd(text);
    if n == |text| {
      raw, last := [], text;
    } else {
      var more;
      more, last := EveryTextHasLines(text[n + 1..]);
      raw := [text[..n]] + more;
      assert raw[1..] == more;
      assert text == text[..n] + "\n" + text[n + 1..];
    }
  }
}
