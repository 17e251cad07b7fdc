/**
 * JSON values and their text (RFC 8259, sections 3 to 7), as `JSON.stringify`
 * prints them: no white space, fields in the order given.
 */
module Json {
  import opened Prelude

  /** A number is the text JSON.stringify gives it, so equal numbers are equal tokens. */
  datatype Value =
    | Null
    | Bool(truth: bool)
    | Num(token: string)
    | Str(text: string)
    | Arr(items: seq<Value>)
    | Obj(fields: seq<Field>)

  datatype Field = Field(key: string, value: Value)

  predicate NumberChar(c: char) {
    '0' <= c <= '9' || c == '-' || c == '+' || c == '.' || c == 'e' || c == 'E'
  }

  predicate ValidToken(t: string) {
    && t != "" && (t[0] == '-' || '0' <= t[0] <= '9')
    && forall i :: 0 <= i < |t| ==> NumberChar(t[i])
  }

  predicate DistinctKeys(fields: seq<Field>) {
    forall i, j :: 0 <= i < j < |fields| ==> fields[i].key != fields[j].key
  }

  /** Values a JavaScript program can hold: number tokens are numbers, keys are distinct. */
  predicate WellFormed(v: Value) {
    match v
    case Num(t) => ValidToken(t)
    case Arr(items) => forall i :: 0 <= i < |items| ==> WellFormed(items[i])
    case Obj(fields) => DistinctKeys(fields) && forall i :: 0 <= i < |fields| ==> WellFormed(fields[i].value)
    case _ => true
  }

  // ----- text -----

  function HexChar(n: nat): char
    requires n < 16
  {
    if n < 10 then '0' + n as char else 'a' + (n - 10) as char
  }

  function Escape(c: char): string {
    if c == '"' then "\\\""
    else if c == '\\' then "\\\\"
    else if c == '\n' then "\\n"
    else if c == '\r' then "\\r"
    else if c == '\t' then "\\t"
    else if c as int == 8 then "\\b"
    else if c as int == 12 then "\\f"
    else if c < ' ' then ['\\', 'u', '0', '0', HexChar(c as int / 16), HexChar(c as int % 16)]
    else [c]
  }

  /*
   * Text is defined in front of what follows it: `PrintTo(v, rest)` is the text
   * of `v` and then `rest`. `Print(v)` is the text alone, and PrintAppend below
   * says the two agree.
   */

  function EscapeTo(s: string, rest: string): string {
    if s == "" then rest else Escape(s[0]) + EscapeTo(s[1..], rest)
  }

  function QuoteTo(s: string, rest: string): string {
    "\"" + EscapeTo(s, "\"" + rest)
  }

  function PrintTo(v: Value, rest: string): string
    decreases v, 1
  {
    match v
    case Null => "null" + rest
    case Bool(b) => (if b then "true" else "false") + rest
    case Num(t) => t + rest
    case Str(s) => QuoteTo(s, rest)
    case Arr(items) => "[" + ItemsTo(items, true, "]" + rest)
    case Obj(fields) => "{" + FieldsTo(fields, true, "}" + rest)
  }

  function Comma(first: bool, rest: string): string {
    if first then rest else "," + rest
  }

  function ItemsTo(items: seq<Value>, first: bool, rest: string): string
    decreases items, 0
  {
    if items == [] then rest
    else Comma(first, PrintTo(items[0], ItemsTo(items[1..], false, rest)))
  }

  function FieldsTo(fields: seq<Field>, first: bool, rest: string): string
    decreases fields, 0
  {
    if fields == [] then rest
    else
      var field := fields[0];
      Comma(first, QuoteTo(field.key, ":" + PrintTo(field.value, FieldsTo(fields[1..], false, rest))))
  }

  function Print(v: Value): string { PrintTo(v, "") }

  // ----- the text splits off -----

  lemma {:induction false} EscapeAppend(s: string, r: string, t: string)
    ensures EscapeTo(s, r + t) == EscapeTo(s, r) + t
  {
    if s != "" { EscapeAppend(s[1..], r, t); }
  }

  lemma QuoteAppend(s: string, r: string, t: string)
    ensures QuoteTo(s, r + t) == QuoteTo(s, r) + t
  {
    EscapeAppend(s, "\"" + r, t);
    assert "\"" + (r + t) == ("\"" + r) + t;
  }

  lemma {:induction false} PrintAppend(v: Value, r: string, t: string)
    ensures PrintTo(v, r + t) == PrintTo(v, r) + t
    decreases v, 1
  {
    match v
    case Str(s) => QuoteAppend(s, r, t);
    case Arr(items) =>
      ItemsAppend(items, true, "]" + r, t);
      assert "]" + (r + t) == ("]" + r) + t;
    case Obj(fields) =>
      FieldsAppend(fields, true, "}" + r, t);
      assert "}" + (r + t) == ("}" + r) + t;
    case _ =>
  }

  lemma {:induction false} ItemsAppend(items: seq<Value>, first: bool, r: string, t: string)
    ensures ItemsTo(items, first, r + t) == ItemsTo(items, first, r) + t
    decreases items, 0
  {
    if items != [] {
      ItemsAppend(items[1..], false, r, t);
      PrintAppend(items[0], ItemsTo(items[1..], false, r), t);
    }
  }

  lemma {:induction false} FieldsAppend(fields: seq<Field>, first: bool, r: string, t: string)
    ensures FieldsTo(fields, first, r + t) == FieldsTo(fields, first, r) + t
    decreases fields, 0
  {
    if fields != [] {
      FieldsAppend(fields[1..], false, r, t);
      var rest := FieldsTo(fields[1..], false, r);
      PrintAppend(fields[0].value, rest, t);
      var value := PrintTo(fields[0].value, rest);
      assert ":" + (value + t) == (":" + value) + t;
      QuoteAppend(fields[0].key, ":" + value, t);
    }
  }

  /** The text alone, then what follows. */
  lemma PrintThen(v: Value, t: string)
    ensures PrintTo(v, t) == Print(v) + t
  {
    PrintAppend(v, "", t);
    assert "" + t == t;
  }

  // ----- printing is injective and prefix-free -----

  /** What may follow a printed value without becoming part of a number. */
  predicate Follows(r: string) {
    r == "" || !NumberChar(r[0])
  }

  lemma HeadUnique(a: string, b: string, r: string, s: string)
    requires |a| == |b| && a + r == b + s
    ensures a == b && r == s
  {
    assert a == (a + r)[..|a|] && b == (b + s)[..|b|];
    assert r == (a + r)[|a|..] && s == (b + s)[|b|..];
  }

  lemma EscapeUnique(c: char, d: char, r: string, s: string)
    requires Escape(c) + r == Escape(d) + s
    ensures c == d && r == s
  {
    var left, right := Escape(c) + r, Escape(d) + s;
    assert left[0] == Escape(c)[0] && right[0] == Escape(d)[0];
    if |Escape(c)| > 1 && |Escape(d)| > 1 {
      assert left[1] == Escape(c)[1] && right[1] == Escape(d)[1];
    }
    HeadUnique(Escape(c), Escape(d), r, s);
    assert |Escape(c)| == 6 ==> Escape(c)[4] == Escape(d)[4] && Escape(c)[5] == Escape(d)[5];
  }

  lemma EscapeHead(c: char, r: string)
    ensures (Escape(c) + r)[0] != '"'
  {}

  lemma {:induction false} EscapeAllUnique(s: string, t: string, r: string, u: string)
    requires EscapeTo(s, "\"" + r) == EscapeTo(t, "\"" + u)
    ensures s == t && r == u
    decreases |s| + |t|
  {
    if s != "" { EscapeHead(s[0], EscapeTo(s[1..], "\"" + r)); }
    if t != "" { EscapeHead(t[0], EscapeTo(t[1..], "\"" + u)); }
    if s == "" {
      HeadUnique("\"", "\"", r, u);
    } else {
      EscapeUnique(s[0], t[0], EscapeTo(s[1..], "\"" + r), EscapeTo(t[1..], "\"" + u));
      EscapeAllUnique(s[1..], t[1..], r, u);
      assert s == [s[0]] + s[1..] && t == [t[0]] + t[1..];
    }
  }

  lemma QuoteUnique(s: string, t: string, r: string, u: string)
    requires QuoteTo(s, r) == QuoteTo(t, u)
    ensures s == t && r == u
  {
    HeadUnique("\"", "\"", EscapeTo(s, "\"" + r), EscapeTo(t, "\"" + u));
    EscapeAllUnique(s, t, r, u);
  }

  lemma CharAt(a: string, b: string, i: nat)
    ensures i < |a + b| ==> (a + b)[i] == if i < |a| then a[i] else b[i - |a|]
  {}

  lemma TokenNotShorter(s: string, t: string, r: string, u: string)
    requires ValidToken(t) && Follows(r) && s + r == t + u
    ensures |s| >= |t|
  {
    CharAt(s, r, |s|);
    CharAt(t, u, |s|);
  }

  lemma TokenUnique(s: string, t: string, r: string, u: string)
    requires ValidToken(s) && ValidToken(t) && Follows(r) && Follows(u) && s + r == t + u
    ensures s == t && r == u
  {
    TokenNotShorter(s, t, r, u);
    TokenNotShorter(t, s, u, r);
    HeadUnique(s, t, r, u);
  }

  /** The first character tells which kind of value follows. */
  function Kind(c: char): nat {
    if c == 'n' then 0 else if c == 't' then 1 else if c == 'f' then 2
    else if c == '"' then 3 else if c == '[' then 4 else if c == '{' then 5
    else if c == '-' || '0' <= c <= '9' then 6 else 7
  }

  function KindOf(v: Value): nat {
    match v
    case Null => 0
    case Bool(b) => if b then 1 else 2
    case Str(_) => 3
    case Arr(_) => 4
    case Obj(_) => 5
    case Num(_) => 6
  }

  lemma PrintKind(v: Value, rest: string)
    requires WellFormed(v)
    ensures PrintTo(v, rest) != "" && Kind(PrintTo(v, rest)[0]) == KindOf(v)
  {}

  /** A printed value followed by a separator determines the value and what follows. */
  lemma {:induction false} PrintUnique(a: Value, b: Value, r: string, s: string)
    requires WellFormed(a) && WellFormed(b) && Follows(r) && Follows(s)
    requires PrintTo(a, r) == PrintTo(b, s)
    ensures a == b && r == s
    decreases a, 1
  {
    PrintKind(a, r);
    PrintKind(b, s);
    match a
    case Num(t) => TokenUnique(t, b.token, r, s);
    case Str(t) => QuoteUnique(t, b.text, r, s);
    case Arr(items) =>
      HeadUnique("[", "[", ItemsTo(items, true, "]" + r), ItemsTo(b.items, true, "]" + s));
      ItemsUnique(items, b.items, true, r, s);
    case Obj(fields) =>
      HeadUnique("{", "{", FieldsTo(fields, true, "}" + r), FieldsTo(b.fields, true, "}" + s));
      FieldsUnique(fields, b.fields, true, r, s);
    case Null => HeadUnique("null", "null", r, s);
    case Bool(x) => HeadUnique(if x then "true" else "false", if x then "true" else "false", r, s);
  }

  lemma ItemsHead(items: seq<Value>, first: bool, r: string)
    requires forall i :: 0 <= i < |items| ==> WellFormed(items[i])
    ensures var text := ItemsTo(items, first, "]" + r);
      text != "" && (text[0] == ']' <==> items == []) && (!first ==> Follows(text))
  {
    if items != [] { PrintKind(items[0], ItemsTo(items[1..], false, "]" + r)); }
  }

  lemma {:induction false} ItemsUnique(a: seq<Value>, b: seq<Value>, first: bool, r: string, s: string)
    requires forall i :: 0 <= i < |a| ==> WellFormed(a[i])
    requires forall i :: 0 <= i < |b| ==> WellFormed(b[i])
    requires ItemsTo(a, first, "]" + r) == ItemsTo(b, first, "]" + s)
    ensures a == b && r == s
    decreases a, 0
  {
    ItemsHead(a, first, r);
    ItemsHead(b, first, s);
    if a == [] {
      HeadUnique("]", "]", r, s);
    } else {
      var restA, restB := ItemsTo(a[1..], false, "]" + r), ItemsTo(b[1..], false, "]" + s);
      ItemsHead(a[1..], false, r);
      ItemsHead(b[1..], false, s);
      if !first { HeadUnique(",", ",", PrintTo(a[0], restA), PrintTo(b[0], restB)); }
      PrintUnique(a[0], b[0], restA, restB);
      ItemsUnique(a[1..], b[1..], false, r, s);
      assert a == [a[0]] + a[1..] && b == [b[0]] + b[1..];
    }
  }

  lemma FieldsHead(fields: seq<Field>, first: bool, r: string)
    ensures var text := FieldsTo(fields, first, "}" + r);
      text != "" && (text[0] == '}' <==> fields == []) && (!first ==> Follows(text))
  {}

  lemma {:induction false} FieldsUnique(a: seq<Field>, b: seq<Field>, first: bool, r: string, s: string)
    requires forall i :: 0 <= i < |a| ==> WellFormed(a[i].value)
    requires forall i :: 0 <= i < |b| ==> WellFormed(b[i].value)
    requires FieldsTo(a, first, "}" + r) == FieldsTo(b, first, "}" + s)
    ensures a == b && r == s
    decreases a, 0
  {
    FieldsHead(a, first, r);
    FieldsHead(b, first, s);
    if a == [] {
      HeadUnique("}", "}", r, s);
    } else {
      var restA, restB := FieldsTo(a[1..], false, "}" + r), FieldsTo(b[1..], false, "}" + s);
      FieldsHead(a[1..], false, r);
      FieldsHead(b[1..], false, s);
      var valueA, valueB := PrintTo(a[0].value, restA), PrintTo(b[0].value, restB);
      if !first { HeadUnique(",", ",", QuoteTo(a[0].key, ":" + valueA), QuoteTo(b[0].key, ":" + valueB)); }
      QuoteUnique(a[0].key, b[0].key, ":" + valueA, ":" + valueB);
      HeadUnique(":", ":", valueA, valueB);
      PrintUnique(a[0].value, b[0].value, restA, restB);
      FieldsUnique(a[1..], b[1..], false, r, s);
      assert a == [a[0]] + a[1..] && b == [b[0]] + b[1..];
    }
  }

  /** Different values print differently. */
  lemma PrintInjective(a: Value, b: Value)
    requires WellFormed(a) && WellFormed(b) && Print(a) == Print(b)
    ensures a == b
  {
    PrintUnique(a, b, "", "");
  }

  // ----- printed text holds no control character -----

  predicate OneLine(s: string) {
    forall i :: 0 <= i < |s| ==> s[i] >= ' '
  }

  lemma {:induction false} EscapeOneLine(s: string, rest: string)
    requires OneLine(rest)
    ensures OneLine(EscapeTo(s, rest))
  {
    if s != "" { EscapeOneLine(s[1..], rest); }
  }

  lemma {:induction false} PrintOneLine(v: Value, rest: string)
    requires WellFormed(v) && OneLine(rest)
    ensures OneLine(PrintTo(v, rest))
    decreases v, 1
  {
    match v
    case Str(s) => EscapeOneLine(s, "\"" + rest);
    case Arr(items) => ItemsOneLine(items, true, "]" + rest);
    case Obj(fields) => FieldsOneLine(fields, true, "}" + rest);
    case _ =>
  }

  lemma {:induction false} ItemsOneLine(items: seq<Value>, first: bool, rest: string)
    requires (forall i :: 0 <= i < |items| ==> WellFormed(items[i])) && OneLine(rest)
    ensures OneLine(ItemsTo(items, first, rest))
    decreases items, 0
  {
    if items != [] {
      ItemsOneLine(items[1..], false, rest);
      PrintOneLine(items[0], ItemsTo(items[1..], false, rest));
    }
  }

  lemma {:induction false} FieldsOneLine(fields: seq<Field>, first: bool, rest: string)
    requires (forall i :: 0 <= i < |fields| ==> WellFormed(fields[i].value)) && OneLine(rest)
    ensures OneLine(FieldsTo(fields, first, rest))
    decreases fields, 0
  {
    if fields != [] {
      FieldsOneLine(fields[1..], false, rest);
      PrintOneLine(fields[0].value, FieldsTo(fields[1..], false, rest));
      EscapeOneLine(fields[0].key, "\"" + (":" + PrintTo(fields[0].value, FieldsTo(fields[1..], false, rest))));
    }
  }

  // ----- UTF-8 size -----

  function CharBytes(c: char): nat {
    if c as int < 0x80 then 1 else if c as int < 0x800 then 2 else if c as int < 0x1_0000 then 3 else 4
  }

  function ByteLength(s: string): nat {
    if s == "" then 0 else CharBytes(s[0]) + ByteLength(s[1..])
  }

  lemma {:induction false} ByteLengthAppend(a: string, b: string)
    ensures ByteLength(a + b) == ByteLength(a) + ByteLength(b)
  {
    if a == "" {
      assert a + b == b;
    } else {
      assert (a + b)[1..] == a[1..] + b;
      ByteLengthAppend(a[1..], b);
    }
  }
}
