/**
 * What any JSON reader must agree with: brackets outside strings balance
 * (RFC 8259, sections 2, 4, 5 and 7). A printed object cut short never does.
 */
module JsonScan {
  import opened Prelude
  import opened Json

  /** Bracket depth, and whether the next character is inside a string or escaped in one. */
  datatype State = State(depth: int, inString: bool, escaped: bool)

  const START := State(0, false, false)

  function Next(s: State, c: char): State {
    if s.escaped then s.(escaped := false)
    else if s.inString then (if c == '"' then s.(inString := false) else if c == '\\' then s.(escaped := true) else s)
    else if c == '"' then s.(inString := true)
    else if c == '{' || c == '[' then s.(depth := s.depth + 1)
    else if c == '}' || c == ']' then s.(depth := s.depth - 1)
    else s
  }

  /** The state after the first `n` characters. */
  function After(s: State, text: string, n: nat): State
    requires n <= |text|
    decreases n
  {
    if n == 0 then s else After(Next(s, text[0]), text[1..], n - 1)
  }

  /** At every point from the start to after `n` characters some bracket is open. */
  predicate OpenFor(s: State, text: string, n: nat)
    requires n <= |text|
    decreases n
  {
    s.depth >= 1 && (n == 0 || OpenFor(Next(s, text[0]), text[1..], n - 1))
  }

  /** Every JSON text is balanced; the converse is the reader's business. */
  predicate Balanced(text: string) {
    var s := After(START, text, |text|);
    s.depth == 0 && !s.inString
  }

  /** Reading `text` up to `rest` stays open and comes back to `s`, then `m` more characters stay open too. */
  ghost predicate Crosses(s: State, text: string, rest: string, m: nat)
    requires m <= |rest| <= |text|
  {
    && OpenFor(s, text, |text| - |rest| + m)
    && After(s, text, |text| - |rest| + m) == After(s, rest, m)
  }

  lemma OneMore(s: State, c: char, inner: string, n: nat)
    requires n <= |inner| && s.depth >= 1 && OpenFor(Next(s, c), inner, n)
    ensures OpenFor(s, [c] + inner, n + 1)
    ensures After(s, [c] + inner, n + 1) == After(Next(s, c), inner, n)
  {
    assert ([c] + inner)[1..] == inner;
  }

  lemma PlainChars(s: State, word: string, rest: string, m: nat)
    requires m <= |rest| && OpenFor(s, rest, m)
    requires forall i :: 0 <= i < |word| ==> Next(s, word[i]) == s
    ensures Crosses(s, word + rest, rest, m)
    decreases |word|
  {
    var text := word + rest;
    if word == "" {
      assert text == rest;
    } else {
      assert text[0] == word[0] && text[1..] == word[1..] + rest;
      PlainChars(s, word[1..], rest, m);
    }
  }

  predicate Plain(word: string) {
    forall i :: 0 <= i < |word| ==> word[i] != '"' && word[i] != '\\'
  }

  lemma EscapeShape(c: char)
    ensures var e := Escape(c);
      Plain(e) || (|e| >= 2 && e[0] == '\\' && Plain(e[2..]))
  {}

  lemma BackslashCrosses(s: State, second: char, inner: string, rest: string, m: nat)
    requires s.inString && !s.escaped && m <= |rest| <= |inner| && Crosses(s, inner, rest, m)
    ensures Crosses(s, ['\\'] + ([second] + inner), rest, m)
  {
    var n := |inner| - |rest| + m;
    OneMore(s.(escaped := true), second, inner, n);
    OneMore(s, '\\', [second] + inner, n + 1);
  }

  lemma EscapeCrosses(s: State, e: string, rest: string, m: nat)
    requires s.inString && !s.escaped && m <= |rest| && OpenFor(s, rest, m)
    requires Plain(e) || (|e| >= 2 && e[0] == '\\' && Plain(e[2..]))
    ensures Crosses(s, e + rest, rest, m)
  {
    if Plain(e) {
      PlainChars(s, e, rest, m);
    } else {
      PlainChars(s, e[2..], rest, m);
      BackslashCrosses(s, e[1], e[2..] + rest, rest, m);
      assert e + rest == ['\\'] + ([e[1]] + (e[2..] + rest));
    }
  }

  lemma {:induction false} StringCrosses(s: State, value: string, rest: string, m: nat)
    requires s.inString && !s.escaped && m <= |rest| && OpenFor(s, rest, m)
    ensures |EscapeTo(value, rest)| >= |rest| && Crosses(s, EscapeTo(value, rest), rest, m)
  {
    if value != "" {
      var more := EscapeTo(value[1..], rest);
      StringCrosses(s, value[1..], rest, m);
      EscapeShape(value[0]);
      EscapeCrosses(s, Escape(value[0]), more, |more| - |rest| + m);
    }
  }

  predicate Outside(s: State) {
    s.depth >= 1 && !s.inString && !s.escaped
  }

  lemma QuoteCrosses(s: State, value: string, rest: string, m: nat)
    requires Outside(s) && m <= |rest| && OpenFor(s, rest, m)
    ensures |QuoteTo(value, rest)| >= |rest| && Crosses(s, QuoteTo(value, rest), rest, m)
  {
    var inside := s.(inString := true);
    var tail := ['"'] + rest;
    OneMore(inside, '"', rest, m);
    StringCrosses(inside, value, tail, m + 1);
    var inner := EscapeTo(value, tail);
    OneMore(s, '"', inner, |inner| - |tail| + m + 1);
    assert QuoteTo(value, rest) == ['"'] + inner;
  }

  lemma {:induction false} PrintCrosses(s: State, v: Value, rest: string, m: nat)
    requires WellFormed(v) && Outside(s) && m <= |rest| && OpenFor(s, rest, m)
    ensures |PrintTo(v, rest)| >= |rest| && Crosses(s, PrintTo(v, rest), rest, m)
    decreases v, 1
  {
    match v
    case Null => PlainChars(s, "null", rest, m);
    case Bool(b) => PlainChars(s, if b then "true" else "false", rest, m);
    case Num(t) => PlainChars(s, t, rest, m);
    case Str(value) => QuoteCrosses(s, value, rest, m);
    case Arr(items) =>
      OneMore(Deeper(s), ']', rest, m);
      ItemsCross(Deeper(s), items, true, [']'] + rest, m + 1);
      BracketsCross(s, '[', ']', ItemsTo(items, true, [']'] + rest), rest, m);
    case Obj(fields) =>
      OneMore(Deeper(s), '}', rest, m);
      FieldsCross(Deeper(s), fields, true, ['}'] + rest, m + 1);
      BracketsCross(s, '{', '}', FieldsTo(fields, true, ['}'] + rest), rest, m);
  }

  function Deeper(s: State): State { s.(depth := s.depth + 1) }

  lemma BracketsCross(s: State, open: char, close: char, inner: string, rest: string, m: nat)
    requires Outside(s) && m <= |rest| && |rest| < |inner| && OpenFor(s, rest, m)
    requires (open == '[' && close == ']') || (open == '{' && close == '}')
    requires Crosses(Deeper(s), inner, [close] + rest, m + 1)
    ensures Crosses(s, [open] + inner, rest, m)
  {
    OneMore(Deeper(s), close, rest, m);
    OneMore(s, open, inner, |inner| - |rest| + m);
  }

  lemma CommaCrosses(s: State, first: bool, text: string, rest: string, m: nat)
    requires Outside(s) && m <= |rest| <= |text| && Crosses(s, text, rest, m)
    ensures Crosses(s, Comma(first, text), rest, m)
  {
    OneMore(s, ',', text, |text| - |rest| + m);
  }

  lemma {:induction false} ItemsCross(s: State, items: seq<Value>, first: bool, rest: string, m: nat)
    requires forall i :: 0 <= i < |items| ==> WellFormed(items[i])
    requires Outside(s) && m <= |rest| && OpenFor(s, rest, m)
    ensures |ItemsTo(items, first, rest)| >= |rest| && Crosses(s, ItemsTo(items, first, rest), rest, m)
    decreases items, 0
  {
    if items != [] {
      var more := ItemsTo(items[1..], false, rest);
      ItemsCross(s, items[1..], false, rest, m);
      PrintCrosses(s, items[0], more, |more| - |rest| + m);
      CommaCrosses(s, first, PrintTo(items[0], more), rest, m);
    }
  }

  lemma {:induction false} FieldsCross(s: State, fields: seq<Field>, first: bool, rest: string, m: nat)
    requires forall i :: 0 <= i < |fields| ==> WellFormed(fields[i].value)
    requires Outside(s) && m <= |rest| && OpenFor(s, rest, m)
    ensures |FieldsTo(fields, first, rest)| >= |rest| && Crosses(s, FieldsTo(fields, first, rest), rest, m)
    decreases fields, 0
  {
    if fields != [] {
      var more := FieldsTo(fields[1..], false, rest);
      FieldsCross(s, fields[1..], false, rest, m);
      var value := PrintTo(fields[0].value, more);
      PrintCrosses(s, fields[0].value, more, |more| - |rest| + m);
      var colon := ":" + value;
      OneMore(s, ':', value, |value| - |rest| + m);
      QuoteCrosses(s, fields[0].key, colon, |colon| - |rest| + m);
      CommaCrosses(s, first, QuoteTo(fields[0].key, colon), rest, m);
    }
  }

  lemma {:induction false} OpenAt(s: State, text: string, n: nat, k: nat)
    requires k <= n <= |text| && OpenFor(s, text, n)
    ensures After(s, text, k).depth >= 1
    decreases n
  {
    if k > 0 { OpenAt(Next(s, text[0]), text[1..], n - 1, k - 1); }
  }

  lemma {:induction false} AfterPrefix(s: State, text: string, k: nat)
    requires k <= |text|
    ensures After(s, text[..k], k) == After(s, text, k)
    decreases k
  {
    if k > 0 {
      assert text[..k][1..] == text[1..][..k - 1];
      AfterPrefix(Next(s, text[0]), text[1..], k - 1);
    }
  }

  /** Inside a printed object some bracket is open. */
  lemma OpenInside(fields: seq<Field>, k: nat)
    requires WellFormed(Obj(fields)) && 0 < k < |Print(Obj(fields))|
    ensures After(START, Print(Obj(fields))[..k], k).depth >= 1
  {
    var text := Print(Obj(fields));
    var inner := FieldsTo(fields, true, "}" + "");
    var one := State(1, false, false);
    assert "}" + "" == "}" && text == "{" + inner && text[1..] == inner;
    FieldsCross(one, fields, true, "}", 0);
    OpenAt(one, inner, |inner| - 1, k - 1);
    assert After(START, text, k) == After(one, inner, k - 1);
    AfterPrefix(START, text, k);
  }

  /** No reader accepts a printed object that lost its end. */
  lemma TornObjectUnreadable(fields: seq<Field>, k: nat)
    requires WellFormed(Obj(fields)) && 0 < k < |Print(Obj(fields))|
    ensures !Balanced(Print(Obj(fields))[..k])
  {
    OpenInside(fields, k);
  }

  lemma {:induction false} AfterOneMore(s: State, text: string, c: char)
    ensures After(s, text + [c], |text| + 1) == Next(After(s, text, |text|), c)
    decreases |text|
  {
    if text == "" {
      assert (text + [c])[1..] == "";
    } else {
      assert (text + [c])[1..] == text[1..] + [c];
      AfterOneMore(Next(s, text[0]), text[1..], c);
    }
  }

  /** Nor one whose end became some other character that closes nothing. */
  lemma GarbledObjectUnreadable(fields: seq<Field>, k: nat, c: char)
    requires WellFormed(Obj(fields)) && 0 < k < |Print(Obj(fields))| && c != '}' && c != ']'
    ensures !Balanced(Print(Obj(fields))[..k] + [c])
  {
    OpenInside(fields, k);
    AfterOneMore(START, Print(Obj(fields))[..k], c);
  }

  lemma {:induction false} AfterShift(s: State, text: string, n: nat)
    requires n <= |text|
    ensures After(s.(depth := s.depth + 1), text, n)
      == After(s, text, n).(depth := After(s, text, n).depth + 1)
    decreases n
  {
    if n > 0 {
      assert Next(s.(depth := s.depth + 1), text[0]) == Next(s, text[0]).(depth := Next(s, text[0]).depth + 1);
      AfterShift(Next(s, text[0]), text[1..], n - 1);
    }
  }

  lemma PrintedBalanced(v: Value)
    requires WellFormed(v)
    ensures Balanced(Print(v))
  {
    PrintCrosses(State(1, false, false), v, "", 0);
    AfterShift(START, Print(v), |Print(v)|);
  }

  /** The reader that accepts printed values only. */
  ghost function StrictReader(text: string): Option<Value> {
    if exists v :: WellFormed(v) && Print(v) == text then
      var v :| WellFormed(v) && Print(v) == text;
      Some(v)
    else None
  }

  /** It reads back every value that was printed, and only balanced text. */
  lemma StrictReaderReads()
    ensures forall v {:trigger Print(v)} :: WellFormed(v) ==> StrictReader(Print(v)) == Some(v)
    ensures forall text {:trigger StrictReader(text)} :: StrictReader(text).Some? ==> Balanced(text)
  {
    forall v {:trigger Print(v)} | WellFormed(v) ensures StrictReader(Print(v)) == Some(v) {
      var w :| WellFormed(w) && Print(w) == Print(v) && StrictReader(Print(v)) == Some(w);
      PrintInjective(v, w);
    }
    forall text | StrictReader(text).Some? ensures Balanced(text) {
      var v :| WellFormed(v) && Print(v) == text;
      PrintedBalanced(v);
    }
  }
}
