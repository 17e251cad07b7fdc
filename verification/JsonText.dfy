/**
 * What the printed text is, said without the printer: literals, escapes and separators
 * (RFC 8259, sections 3 to 7), bytes (RFC 3629, section 3), and key order by UTF-16 units.
 */
module JsonText {
  import opened Prelude
  import opened Json
  import C = CanonicalJson

  // ----- text -----

  function Joined(parts: seq<string>, separator: string): string {
    if parts == [] then ""
    else if |parts| == 1 then parts[0]
    else parts[0] + separator + Joined(parts[1..], separator)
  }

  /** Each character by itself: quote and backslash behind a backslash, control characters by letter or number. */
  function Escaped(c: char): string {
    match c as int
    case 0x22 => "\\\""
    case 0x5C => "\\\\"
    case 0x08 => "\\b"
    case 0x09 => "\\t"
    case 0x0A => "\\n"
    case 0x0C => "\\f"
    case 0x0D => "\\r"
    case n => if n < 0x20 then "\\u00" + ["0123456789abcdef"[n / 16], "0123456789abcdef"[n % 16]] else [c]
  }

  lemma EscapeExact(c: char)
    ensures Escape(c) == Escaped(c)
  {
    if c < ' ' {
      HexExact(c as int / 16);
      HexExact(c as int % 16);
    }
  }

  lemma HexExact(n: nat)
    requires n < 16
    ensures HexChar(n) == "0123456789abcdef"[n]
  {}

  function AllEscaped(s: string): string {
    if s == "" then "" else Escaped(s[0]) + AllEscaped(s[1..])
  }

  function Quoted(s: string): string {
    "\"" + AllEscaped(s) + "\""
  }

  function Texts(items: seq<Value>): seq<string> {
    seq(|items|, i requires 0 <= i < |items| => Print(items[i]))
  }

  function Entries(fields: seq<Field>): seq<string> {
    seq(|fields|, i requires 0 <= i < |fields| => Quoted(fields[i].key) + ":" + Print(fields[i].value))
  }

  lemma {:induction false} EscapeToExact(s: string, rest: string)
    ensures EscapeTo(s, rest) == AllEscaped(s) + rest
  {
    if s != "" {
      EscapeExact(s[0]);
      EscapeToExact(s[1..], rest);
    }
  }

  lemma JoinedHead(parts: seq<string>, separator: string)
    requires parts != []
    ensures Joined(parts, separator) == parts[0] + if |parts| == 1 then "" else separator + Joined(parts[1..], separator)
  {}

  lemma QuoteExact(s: string, rest: string)
    ensures QuoteTo(s, rest) == Quoted(s) + rest
  {
    EscapeToExact(s, "\"" + rest);
  }

  /** Joined with commas in front of all but a first one. */
  function Listed(parts: seq<string>, first: bool): string {
    if parts == [] then "" else if first then Joined(parts, ",") else "," + Joined(parts, ",")
  }

  /** One more part in front, the rest of the text behind. */
  lemma ListedStep(parts: seq<string>, first: bool, rest: string)
    requires parts != []
    ensures Listed(parts, first) + rest == Comma(first, parts[0] + (Listed(parts[1..], false) + rest))
  {
    JoinedHead(parts, ",");
  }

  lemma {:induction false} ItemsExact(items: seq<Value>, first: bool, rest: string)
    ensures ItemsTo(items, first, rest) == Listed(Texts(items), first) + rest
  {
    if items != [] {
      var more := ItemsTo(items[1..], false, rest);
      ItemsExact(items[1..], false, rest);
      PrintThen(items[0], more);
      assert Texts(items)[1..] == Texts(items[1..]);
      ListedStep(Texts(items), first, rest);
    }
  }

  lemma FieldExact(field: Field, rest: string)
    ensures QuoteTo(field.key, ":" + PrintTo(field.value, rest)) == (Quoted(field.key) + ":" + Print(field.value)) + rest
  {
    PrintThen(field.value, rest);
    QuoteExact(field.key, ":" + PrintTo(field.value, rest));
  }

  lemma {:induction false} FieldsExact(fields: seq<Field>, first: bool, rest: string)
    ensures FieldsTo(fields, first, rest) == Listed(Entries(fields), first) + rest
  {
    if fields != [] {
      var more := FieldsTo(fields[1..], false, rest);
      FieldsExact(fields[1..], false, rest);
      FieldExact(fields[0], more);
      assert Entries(fields)[1..] == Entries(fields[1..]);
      ListedStep(Entries(fields), first, rest);
    }
  }

  /** The text of every value, from its parts. */
  lemma PrintMeans(v: Value)
    ensures Print(v) ==
      match v
      case Null => "null"
      case Bool(truth) => if truth then "true" else "false"
      case Num(token) => token
      case Str(text) => Quoted(text)
      case Arr(items) => "[" + Joined(Texts(items), ",") + "]"
      case Obj(fields) => "{" + Joined(Entries(fields), ",") + "}"
  {
    assert "]" + "" == "]" && "}" + "" == "}";
    match v
    case Str(text) => QuoteExact(text, "");
    case Arr(items) => ItemsExact(items, true, "]");
    case Obj(fields) => FieldsExact(fields, true, "}");
    case _ =>
  }

  // ----- bytes -----

  /** The UTF-8 bytes of a character. */
  function Utf8(c: char): seq<int> {
    var n := c as int;
    if n < 0x80 then [n]
    else if n < 0x800 then [0xC0 + n / 0x40, 0x80 + n % 0x40]
    else if n < 0x1_0000 then [0xE0 + n / 0x40 / 0x40, 0x80 + n / 0x40 % 0x40, 0x80 + n % 0x40]
    else [0xF0 + n / 0x40 / 0x40 / 0x40, 0x80 + n / 0x40 / 0x40 % 0x40, 0x80 + n / 0x40 % 0x40, 0x80 + n % 0x40]
  }

  /** The number such bytes stand for, by their lead byte. */
  function Decoded(bytes: seq<int>): int {
    if |bytes| == 1 && bytes[0] < 0x80 then bytes[0]
    else if |bytes| == 2 && 0xC0 <= bytes[0] < 0xE0 then (bytes[0] - 0xC0) * 0x40 + (bytes[1] - 0x80)
    else if |bytes| == 3 && 0xE0 <= bytes[0] < 0xF0 then
      (bytes[0] - 0xE0) * 0x1000 + (bytes[1] - 0x80) * 0x40 + (bytes[2] - 0x80)
    else if |bytes| == 4 && 0xF0 <= bytes[0] < 0xF8 then
      (bytes[0] - 0xF0) * 0x4_0000 + (bytes[1] - 0x80) * 0x1000 + (bytes[2] - 0x80) * 0x40 + (bytes[3] - 0x80)
    else -1
  }

  /** They are bytes, all but the first of the continuing kind, and they stand for the character. */
  lemma Utf8Decodes(c: char)
    ensures Decoded(Utf8(c)) == c as int
    ensures forall i :: 0 <= i < |Utf8(c)| ==> 0 <= Utf8(c)[i] < 0x100 && (i > 0 ==> 0x80 <= Utf8(c)[i] < 0xC0)
  {}

  function AllUtf8(s: string): seq<int> {
    if s == "" then [] else Utf8(s[0]) + AllUtf8(s[1..])
  }

  /** The budget counts the bytes of the text. */
  lemma {:induction false} ByteLengthExact(s: string)
    ensures ByteLength(s) == |AllUtf8(s)|
  {
    if s != "" { ByteLengthExact(s[1..]); }
  }

  // ----- key order -----

  /** The UTF-16 units of a character, a surrogate pair beyond the basic plane. */
  function Utf16(c: char): seq<int> {
    var n := c as int;
    if n < 0x1_0000 then [n] else [0xD800 + (n - 0x1_0000) / 0x400, 0xDC00 + (n - 0x1_0000) % 0x400]
  }

  function AllUtf16(s: string): seq<int> {
    if s == "" then [] else Utf16(s[0]) + AllUtf16(s[1..])
  }

  /** Smaller at the first difference, or shorter with none: how strings compare. */
  ghost predicate UnitsLess(x: seq<int>, y: seq<int>) {
    exists k: nat :: FirstSmaller(x, y, k)
  }

  predicate FirstSmaller(x: seq<int>, y: seq<int>, k: nat) {
    k <= |x| && k < |y| && x[..k] == y[..k] && (k < |x| ==> x[k] < y[k])
  }

  lemma UnitsDecide(x: seq<int>, y: seq<int>, k: nat)
    requires k < |x| && k < |y| && x[..k] == y[..k] && x[k] != y[k]
    ensures UnitsLess(x, y) <==> x[k] < y[k]
  {
    if x[k] < y[k] { assert FirstSmaller(x, y, k); }
    if m: nat :| FirstSmaller(x, y, m) {
      if m < k {
        assert x[..k][m] == y[..k][m];
      } else if m > k {
        assert x[..m][k] == y[..m][k];
      }
    }
  }

  lemma UnitsAfter(p: seq<int>, x: seq<int>, y: seq<int>)
    ensures UnitsLess(p + x, p + y) <==> UnitsLess(x, y)
  {
    if k: nat :| FirstSmaller(x, y, k) {
      assert (p + x)[..|p| + k] == p + x[..k] && (p + y)[..|p| + k] == p + y[..k];
      assert FirstSmaller(p + x, p + y, |p| + k);
    }
    if k: nat :| FirstSmaller(p + x, p + y, k) {
      assert k >= |p|;
      var m: nat := k - |p|;
      assert x[..m] == (p + x)[..k][|p|..] && y[..m] == (p + y)[..k][|p|..];
      assert FirstSmaller(x, y, m);
    }
  }

  /** The first unit in which two different characters differ decides as their ranks do. */
  lemma RankDecides(c: char, d: char) returns (k: nat)
    requires c != d
    ensures k < |Utf16(c)| && k < |Utf16(d)| && Utf16(c)[..k] == Utf16(d)[..k]
    ensures Utf16(c)[k] != Utf16(d)[k] && (Utf16(c)[k] < Utf16(d)[k] <==> C.Rank(c) < C.Rank(d))
  {
    var m, n := c as int, d as int;
    k := if m >= 0x1_0000 && n >= 0x1_0000 && (m - 0x1_0000) / 0x400 == (n - 0x1_0000) / 0x400 then 1 else 0;
  }

  /** The order of keys is that of their UTF-16 units. */
  lemma {:induction false} LessExact(a: string, b: string)
    ensures C.Less(a, b) <==> UnitsLess(AllUtf16(a), AllUtf16(b))
    decreases |a|
  {
    var x, y := AllUtf16(a), AllUtf16(b);
    if b == "" {
      assert y == [];
    } else if a == "" {
      assert FirstSmaller(x, y, 0);
    } else if a[0] == b[0] {
      LessExact(a[1..], b[1..]);
      UnitsAfter(Utf16(a[0]), AllUtf16(a[1..]), AllUtf16(b[1..]));
    } else {
      var k := RankDecides(a[0], b[0]);
      assert x[..k] == Utf16(a[0])[..k] && y[..k] == Utf16(b[0])[..k];
      UnitsDecide(x, y, k);
    }
  }

  /** The canonical fields of an object: those it has, each with its canonical value, keys ascending by UTF-16 units. */
  lemma CanonMeans(fields: seq<Field>)
    requires WellFormed(Obj(fields))
    ensures C.Canon(Obj(fields)) == Obj(C.CanonFields(fields))
    ensures var sorted := C.CanonFields(fields);
      && (forall i, j :: 0 <= i < j < |sorted| ==> UnitsLess(AllUtf16(sorted[i].key), AllUtf16(sorted[j].key)))
      && (forall g :: g in sorted <==> C.HasCanon(fields, g))
  {
    C.CanonFieldsFacts(fields);
    var sorted := C.CanonFields(fields);
    forall i, j | 0 <= i < j < |sorted| ensures UnitsLess(AllUtf16(sorted[i].key), AllUtf16(sorted[j].key)) {
      LessExact(sorted[i].key, sorted[j].key);
    }
  }

  /** Everything else is its own canonical form, items each by itself and in order. */
  lemma CanonElsewhere(v: Value)
    requires WellFormed(v) && !v.Obj?
    ensures if v.Arr? then
        C.Canon(v).Arr? && |C.Canon(v).items| == |v.items| && forall i :: 0 <= i < |v.items| ==> C.Canon(v).items[i] == C.Canon(v.items[i])
      else C.Canon(v) == v
  {
    if v.Arr? { C.CanonItemsFacts(v.items); }
  }

  // ----- journals -----

  lemma {:induction false} JoinedMore(parts: seq<string>, separator: string, x: string)
    ensures Joined(parts + [x], separator) == if parts == [] then x else Joined(parts, separator) + separator + x
  {
    if parts != [] {
      assert (parts + [x])[1..] == parts[1..] + [x];
      JoinedMore(parts[1..], separator, x);
    }
  }

  function StableTexts(events: seq<Value>): seq<string> {
    seq(|events|, i requires 0 <= i < |events| => C.StableText(events[i]))
  }

  /** A journal is its events' canonical texts, a line feed between each two. */
  lemma {:induction false} JournalMeans(events: seq<Value>)
    ensures C.JournalText(events) == Joined(StableTexts(events), "\n")
  {
    if |events| > 1 {
      var front := events[..|events| - 1];
      JournalMeans(front);
      assert StableTexts(events) == StableTexts(front) + [C.StableText(events[|events| - 1])];
      JoinedMore(StableTexts(front), "\n", C.StableText(events[|events| - 1]));
    }
  }
}
