/**
 * The wire format spelled out: what each data element admits and how it is written,
 * where its bit stands in the bitmap text, and which messages encode to what.
 */
module Iso8583Wire {
  import opened Prelude
  import opened Iso8583

  predicate Digits(s: string) {
    forall i :: 0 <= i < |s| ==> s[i] in "0123456789"
  }

  predicate Printable(s: string) {
    forall i :: 0 <= i < |s| ==> 0x20 <= s[i] as int <= 0x7E
  }

  /** What each element admits: the account number any length to 19, all others one length; terminal text, all others digits. */
  predicate Admits(f: Field, value: string) {
    match f
    case 2 => 1 <= |value| <= 19 && Digits(value)
    case 3 => |value| == 6 && Digits(value)
    case 4 => |value| == 12 && Digits(value)
    case 7 => |value| == 10 && Digits(value)
    case 11 => |value| == 6 && Digits(value)
    case 39 => |value| == 2 && Digits(value)
    case 41 => |value| == 8 && Printable(value)
    case _ => |value| == 3 && Digits(value)
  }

  /** Two decimal digits. */
  function TwoDigits(n: nat): string
    requires n < 100
  {
    ["0123456789"[n / 10], "0123456789"[n % 10]]
  }

  /** The account number behind its length, all others as they are. */
  function Wire(f: Field, value: string): string
    requires Admits(f, value)
  {
    if f == 2 then TwoDigits(|value|) + value else value
  }

  lemma DigitText(n: nat)
    requires n < 10
    ensures Digit(n) == "0123456789"[n]
  {}

  lemma DigitsExact(s: string)
    ensures AllDigits(s) <==> Digits(s)
    ensures AllPrintable(s) <==> Printable(s)
  {
    forall i | 0 <= i < |s| ensures IsDigit(s[i]) <==> s[i] in "0123456789" { DigitExact(s[i]); }
  }

  lemma DigitExact(c: char)
    ensures IsDigit(c) <==> c in "0123456789"
  {
    if IsDigit(c) { assert "0123456789"[c as int - '0' as int] == c; }
  }

  /** One element encodes exactly when it is admitted, and then to its wire form. */
  lemma ElementExact(f: Field, value: string)
    ensures EncodeField(f, value).Ok? <==> Admits(f, value)
    ensures Admits(f, value) ==> EncodeField(f, value) == Ok(Wire(f, value))
  {
    DigitsExact(value);
    if f == 2 && |value| <= 19 {
      DigitText(|value| / 10);
      DigitText(|value| % 10);
    }
  }

  // ----- the bitmap text -----

  /** The value of a hexadecimal digit of either case. */
  function Nibble(c: char): (n: nat)
    requires IsHex(c)
    ensures n < 16
  {
    match c
    case '0' => 0 case '1' => 1 case '2' => 2 case '3' => 3 case '4' => 4
    case '5' => 5 case '6' => 6 case '7' => 7 case '8' => 8 case '9' => 9
    case 'A' => 10 case 'B' => 11 case 'C' => 12 case 'D' => 13 case 'E' => 14 case 'F' => 15
    case 'a' => 10 case 'b' => 11 case 'c' => 12 case 'd' => 13 case 'e' => 14
    case _ => 15
  }

  /** Bit `k` of a digit, from its lowest. */
  predicate NibbleBit(n: nat, k: nat)
    requires k < 4
  {
    match k
    case 0 => n % 2 == 1
    case 1 => n / 2 % 2 == 1
    case 2 => n / 4 % 2 == 1
    case _ => n / 8 % 2 == 1
  }

  lemma NibbleExact(c: char)
    requires IsHex(c)
    ensures HexValue(c) == Nibble(c)
    ensures HexDigit(HexValue(c)) == "0123456789ABCDEF"[Nibble(c)]
  {}

  lemma LowBits(b: nat, n: nat, k: nat)
    requires n < 16
    ensures k < 4 ==> (Bit(16 * b + n, k) <==> NibbleBit(n, k))
    ensures k >= 4 ==> (Bit(16 * b + n, k) <==> Bit(b, k - 4))
  {
    var v := 16 * b + n;
    assert v / 2 == 8 * b + n / 2;
    assert v / 2 / 2 == 4 * b + n / 4;
    assert v / 2 / 2 / 2 == 2 * b + n / 8;
    assert v / 2 / 2 / 2 / 2 == b;
    if k >= 1 { assert Bit(v, k) == Bit(v / 2, k - 1); }
    if k >= 2 { assert Bit(v / 2, k - 1) == Bit(v / 2 / 2, k - 2); }
    if k >= 3 { assert Bit(v / 2 / 2, k - 2) == Bit(v / 2 / 2 / 2, k - 3); }
    if k >= 4 { assert Bit(v / 2 / 2 / 2, k - 3) == Bit(v / 2 / 2 / 2 / 2, k - 4); }
  }

  lemma {:induction false} HexBits(s: string, k: nat)
    requires AllHex(s) && k < 4 * |s|
    ensures Bit(FromHex(s), k) <==> NibbleBit(Nibble(s[|s| - 1 - k / 4]), k % 4)
  {
    var front, last := s[..|s| - 1], s[|s| - 1];
    NibbleExact(last);
    LowBits(FromHex(front), HexValue(last), k);
    if k >= 4 {
      HexBits(front, k - 4);
      assert s[|s| - 1 - k / 4] == front[|front| - 1 - (k - 4) / 4];
    }
  }

  /** Element `f` stands in the text as bit `f`, counted from the left, four to a digit. */
  predicate Marked(text: string, f: nat)
    requires |text| == 16 && AllHex(text) && 1 <= f <= 64
  {
    NibbleBit(Nibble(text[(f - 1) / 4]), 3 - (f - 1) % 4)
  }

  lemma MarkedExact(text: string, f: nat)
    requires |text| == 16 && AllHex(text) && 1 <= f <= 64
    ensures Marked(text, f) <==> Bit(FromHex(text), 64 - f)
  {
    HexBits(text, 64 - f);
    assert 15 - (64 - f) / 4 == (f - 1) / 4 && (64 - f) % 4 == 3 - (f - 1) % 4;
  }

  /** Sixteen upper-case digits that mark exactly the elements present. */
  ghost predicate BitmapText(text: string, fields: map<Field, string>) {
    && |text| == 16 && (forall i :: 0 <= i < 16 ==> text[i] in "0123456789ABCDEF") && AllHex(text)
    && forall f: nat :: 1 <= f <= 64 ==> (Marked(text, f) <==> IsSupported(f) && f in fields)
  }

  lemma {:induction false} ToHexUpper(b: nat, width: nat)
    ensures |ToHex(b, width)| == width && AllHex(ToHex(b, width))
    ensures forall i :: 0 <= i < width ==> ToHex(b, width)[i] in "0123456789ABCDEF"
  {
    if width > 0 {
      ToHexUpper(b / 16, width - 1);
      assert HexDigit(b % 16) == "0123456789ABCDEF"[b % 16];
    }
  }

  lemma BitmapTextExact(fields: map<Field, string>)
    ensures BitmapText(ToHex(BitmapOf(fields, 8), 16), fields)
  {
    var text := ToHex(BitmapOf(fields, 8), 16);
    ToHexUpper(BitmapOf(fields, 8), 16);
    BitmapMeans(fields, 1);
    HexRoundTrip(BitmapOf(fields, 8), 16);
    forall f: nat | 1 <= f <= 64 ensures Marked(text, f) <==> IsSupported(f) && f in fields {
      MarkedExact(text, f);
      BitmapMeans(fields, f);
    }
  }

  // ----- messages -----

  function WireOf(fields: map<Field, string>, f: Field): string
    requires f in fields ==> Admits(f, fields[f])
  {
    if f in fields then Wire(f, fields[f]) else ""
  }

  predicate AllAdmitted(fields: map<Field, string>) {
    forall f: Field :: f in fields ==> Admits(f, fields[f])
  }

  /** The elements present, in order. */
  function BodyText(fields: map<Field, string>): string
    requires AllAdmitted(fields)
  {
    WireOf(fields, 2) + (WireOf(fields, 3) + (WireOf(fields, 4) + (WireOf(fields, 7)
      + (WireOf(fields, 11) + (WireOf(fields, 39) + (WireOf(fields, 41) + WireOf(fields, 49)))))))
  }

  lemma BodyAt(fields: map<Field, string>, f: Field, next: nat, rest: string)
    requires 2 <= f < next <= 65 && forall h :: f < h < next ==> !IsSupported(h)
    requires f in fields ==> Admits(f, fields[f])
    requires Body(fields, next) == Ok(rest)
    ensures Body(fields, f) == Ok(WireOf(fields, f) + rest)
  {
    BodySkips(fields, f + 1, next);
    if f in fields { ElementExact(f, fields[f]); }
    assert "" + rest == rest;
  }

  /** An element that is not admitted fails the body. */
  lemma {:induction false} BodyFails(fields: map<Field, string>, f: nat, bad: Field)
    requires f <= bad && bad in fields && !Admits(bad, fields[bad])
    ensures Body(fields, f).Err?
    decreases bad - f
  {
    if f == bad { ElementExact(bad, fields[bad]); } else { BodyFails(fields, f + 1, bad); }
  }

  lemma BodyEnd(fields: map<Field, string>)
    requires AllAdmitted(fields)
    ensures Body(fields, 49) == Ok(WireOf(fields, 49))
    ensures Body(fields, 41) == Ok(WireOf(fields, 41) + WireOf(fields, 49))
  {
    BodyAt(fields, 49, 65, "");
    assert WireOf(fields, 49) + "" == WireOf(fields, 49);
    BodyAt(fields, 41, 49, WireOf(fields, 49));
  }

  lemma BodySucceeds(fields: map<Field, string>)
    requires AllAdmitted(fields)
    ensures Body(fields, 2) == Ok(BodyText(fields))
  {
    BodyEnd(fields);
    var rest := WireOf(fields, 41) + WireOf(fields, 49);
    BodyAt(fields, 39, 41, rest);
    rest := WireOf(fields, 39) + rest;
    BodyAt(fields, 11, 39, rest);
    rest := WireOf(fields, 11) + rest;
    BodyAt(fields, 7, 11, rest);
    rest := WireOf(fields, 7) + rest;
    BodyAt(fields, 4, 7, rest);
    rest := WireOf(fields, 4) + rest;
    BodyAt(fields, 3, 4, rest);
    rest := WireOf(fields, 3) + rest;
    BodyAt(fields, 2, 3, rest);
  }

  lemma BodyExact(fields: map<Field, string>)
    ensures Body(fields, 2).Ok? <==> AllAdmitted(fields)
    ensures AllAdmitted(fields) ==> Body(fields, 2) == Ok(BodyText(fields))
  {
    if AllAdmitted(fields) {
      BodySucceeds(fields);
    } else {
      var bad: Field :| bad in fields && !Admits(bad, fields[bad]);
      BodyFails(fields, 2, bad);
    }
  }

  /** A message encodes exactly when its type is four digits and every element is admitted; then it is the type, the bitmap text and the elements in order. */
  lemma EncodeExact(m: Message)
    ensures Encode(m).Ok? <==> |m.mti| == 4 && Digits(m.mti) && AllAdmitted(m.fields)
    ensures Encode(m).Ok? ==>
      exists bitmap :: BitmapText(bitmap, m.fields) && Encode(m).value == m.mti + bitmap + BodyText(m.fields)
  {
    DigitsExact(m.mti);
    BodyExact(m.fields);
    BitmapTextExact(m.fields);
  }

  lemma {:induction false} HexExact(s: string)
    ensures AllHex(s) <==> forall i :: 0 <= i < |s| ==> s[i] in "0123456789ABCDEFabcdef"
  {
    forall c: char ensures IsHex(c) <==> c in "0123456789ABCDEFabcdef" { HexCharExact(c); }
  }

  lemma HexCharExact(c: char)
    ensures IsHex(c) <==> c in "0123456789ABCDEFabcdef"
  {
    var digits := "0123456789ABCDEFabcdef";
    if '0' <= c <= '9' { assert digits[c as int - '0' as int] == c; }
    if 'A' <= c <= 'F' { assert digits[c as int - 'A' as int + 10] == c; }
    if 'a' <= c <= 'f' { assert digits[c as int - 'a' as int + 16] == c; }
  }

  /** The payload holds the type, sixteen digits that mark the elements present, and these in order. */
  ghost predicate Spells(payload: string, m: Message)
    requires AllAdmitted(m.fields)
  {
    && |payload| >= 20 && payload[..4] == m.mti && payload[20..] == BodyText(m.fields)
    && (forall i :: 4 <= i < 20 ==> payload[i] in "0123456789ABCDEFabcdef")
    && AllHex(payload[4..20])
    && forall f: nat :: 1 <= f <= 64 ==> (Marked(payload[4..20], f) <==> IsSupported(f) && f in m.fields)
  }

  lemma BitmapSame(text: string, fields: map<Field, string>)
    requires |text| == 16 && AllHex(text)
    ensures (forall f: nat :: 1 <= f <= 64 ==> (Marked(text, f) <==> IsSupported(f) && f in fields)) <==>
      UpperHex(text) == ToHex(BitmapOf(fields, 8), 16)
  {
    var bitmap := BitmapOf(fields, 8);
    HexUnique(text);
    BitmapMeans(fields, 1);
    HexRoundTrip(bitmap, 16);
    HexCase(text);
    forall f: nat | 1 <= f <= 64
      ensures (Marked(text, f) <==> Bit(FromHex(text), 64 - f)) && (Bit(bitmap, 64 - f) <==> IsSupported(f) && f in fields)
    {
      MarkedExact(text, f);
      BitmapMeans(fields, f);
    }
    if forall f: nat :: 1 <= f <= 64 ==> (Marked(text, f) <==> IsSupported(f) && f in fields) {
      forall k: nat | k < 64 ensures Bit(FromHex(text), k) == Bit(bitmap, k) {
        assert Marked(text, 64 - k) <==> IsSupported(64 - k) && 64 - k in fields;
      }
      BitsDetermine(FromHex(text), bitmap, 64);
    }
  }

  lemma PartsEqual(a: string, b: string, c: string, x: string, y: string, z: string)
    requires |a| == |x| && |b| == |y|
    ensures a + b + c == x + y + z <==> a == x && b == y && c == z
  {
    if a + b + c == x + y + z {
      assert a == (a + b + c)[..|a|] && x == (x + y + z)[..|x|];
      assert b == (a + b + c)[|a|..|a| + |b|] && y == (x + y + z)[|x|..|x| + |y|];
      assert c == (a + b + c)[|a| + |b|..] && z == (x + y + z)[|x| + |y|..];
    }
  }

  lemma NormalSpells(payload: string, m: Message)
    requires |payload| >= 20 && AllHex(payload[4..20]) && |m.mti| == 4 && Digits(m.mti) && AllAdmitted(m.fields)
    ensures Encode(m) == Ok(Normal(payload)) <==>
      payload[..4] == m.mti && UpperHex(payload[4..20]) == ToHex(BitmapOf(m.fields, 8), 16) && payload[20..] == BodyText(m.fields)
  {
    DigitsExact(m.mti);
    BodyExact(m.fields);
    BitmapTextExact(m.fields);
    PartsEqual(payload[..4], UpperHex(payload[4..20]), payload[20..], m.mti, ToHex(BitmapOf(m.fields, 8), 16), BodyText(m.fields));
  }

  lemma BitmapChars(payload: string)
    requires |payload| >= 20
    ensures AllHex(payload[4..20]) <==> forall i :: 4 <= i < 20 ==> payload[i] in "0123456789ABCDEFabcdef"
  {
    var hex := payload[4..20];
    HexExact(hex);
    forall i | 4 <= i < 20 ensures payload[i] == hex[i - 4] {}
  }

  lemma DecodeNeeds(payload: string)
    requires Decode(payload).Ok?
    ensures |payload| >= 20 && AllHex(payload[4..20])
  {}

  lemma SpellsExact(payload: string, m: Message)
    requires |payload| >= 20 && AllHex(payload[4..20]) && |m.mti| == 4 && Digits(m.mti) && AllAdmitted(m.fields)
    ensures Spells(payload, m) <==> Encode(m) == Ok(Normal(payload))
  {
    BitmapChars(payload);
    BitmapSame(payload[4..20], m.fields);
    NormalSpells(payload, m);
  }

  /** A payload decodes to a message exactly when its type and elements are admitted and the payload spells them. */
  lemma DecodeExact(payload: string, m: Message)
    ensures Decode(payload) == Ok(m) <==>
      |m.mti| == 4 && Digits(m.mti) && AllAdmitted(m.fields) && Spells(payload, m)
  {
    if Decode(payload) == Ok(m) { DecodeNeeds(payload); }
    if |payload| >= 20 && AllHex(payload[4..20]) {
      CodecExact(payload, m);
      EncodeExact(m);
      if |m.mti| == 4 && Digits(m.mti) && AllAdmitted(m.fields) { SpellsExact(payload, m); }
    }
  }
}
