/**
 * The bitmap message codec (ISO 8583:1987, clause 4): message type identifier,
 * primary bitmap in hexadecimal, then the present data elements in order.
 */
module Iso8583 {
  import opened Prelude

  const SUPPORTED: seq<int> := [2, 3, 4, 7, 11, 39, 41, 49]

  predicate IsSupported(f: int) {
    f == 2 || f == 3 || f == 4 || f == 7 || f == 11 || f == 39 || f == 41 || f == 49
  }

  type Field = f: int | IsSupported(f) witness 2

  datatype Message = Message(mti: string, fields: map<Field, string>)

  datatype FieldSpec = FieldSpec(llvar: bool, length: nat, numeric: bool)

  function Spec(f: Field): FieldSpec {
    match f
    case 2 => FieldSpec(true, 19, true)
    case 3 => FieldSpec(false, 6, true)
    case 4 => FieldSpec(false, 12, true)
    case 7 => FieldSpec(false, 10, true)
    case 11 => FieldSpec(false, 6, true)
    case 39 => FieldSpec(false, 2, true)
    case 41 => FieldSpec(false, 8, false)
    case _ => FieldSpec(false, 3, true)
  }

  predicate IsDigit(c: char) { '0' <= c <= '9' }

  predicate AllDigits(s: string) { forall i :: 0 <= i < |s| ==> IsDigit(s[i]) }

  predicate AllPrintable(s: string) { forall i :: 0 <= i < |s| ==> ' ' <= s[i] <= '~' }

  predicate ValidMti(mti: string) { |mti| == 4 && AllDigits(mti) }

  /** The check shared by both directions; `limit` is the element's length. */
  predicate FieldValueOk(f: Field, value: string, limit: nat) {
    0 < |value| <= limit && if Spec(f).numeric then AllDigits(value) else AllPrintable(value)
  }

  function Digit(n: nat): char
    requires n < 10
  {
    '0' + n as char
  }

  function DigitValue(c: char): nat
    requires IsDigit(c)
  {
    c as int - '0' as int
  }

  function EncodeField(f: Field, value: string): Result<string, string> {
    if !FieldValueOk(f, value, Spec(f).length) then Err("invalid field value")
    else if Spec(f).llvar then Ok([Digit(|value| / 10), Digit(|value| % 10)] + value)
    else if |value| != Spec(f).length then Err("wrong length")
    else Ok(value)
  }

  datatype Decoded = Decoded(value: string, offset: nat)

  function DecodeField(f: Field, payload: string, offset: nat): Result<Decoded, string>
    requires offset <= |payload|
  {
    var rest := payload[offset..];
    if Spec(f).llvar && !(|rest| >= 2 && IsDigit(rest[0]) && IsDigit(rest[1])) then Err("invalid LLVAR prefix") else
      var length := if Spec(f).llvar then 10 * DigitValue(rest[0]) + DigitValue(rest[1]) else Spec(f).length;
      var start := if Spec(f).llvar then 2 else 0;
      if length > Spec(f).length then Err("exceeds maximum length")
      else if |rest| < start + length then Err("truncated")
      else
        var value := rest[start..start + length];
        if !FieldValueOk(f, value, length) then Err("invalid field value")
        else Ok(Decoded(value, offset + start + length))
  }

  // ----- the bitmap -----

  function Pow2(k: nat): nat { if k == 0 then 1 else 2 * Pow2(k - 1) }

  /** `(b & (1 << k)) !== 0` and `b | (1 << k)`. */
  predicate Bit(b: nat, k: nat) { if k == 0 then b % 2 == 1 else Bit(b / 2, k - 1) }

  function SetBit(b: nat, k: nat): nat {
    if k == 0 then (if b % 2 == 1 then b else b + 1) else 2 * SetBit(b / 2, k - 1) + b % 2
  }

  lemma {:induction false} SetBitBits(b: nat, k: nat, j: nat)
    ensures Bit(SetBit(b, k), j) <==> j == k || Bit(b, j)
  {
    if k > 0 {
      assert SetBit(b, k) / 2 == SetBit(b / 2, k - 1) && SetBit(b, k) % 2 == b % 2;
      if j > 0 { SetBitBits(b / 2, k - 1, j - 1); }
    } else {
      assert j > 0 ==> SetBit(b, 0) / 2 == b / 2;
    }
  }

  lemma {:induction false} SetBitBound(b: nat, k: nat, n: nat)
    requires b < Pow2(n) && k < n
    ensures SetBit(b, k) < Pow2(n)
  {
    if k > 0 { SetBitBound(b / 2, k - 1, n - 1); }
  }

  lemma {:induction false} ZeroBits(k: nat)
    ensures !Bit(0, k)
  {
    if k > 0 { ZeroBits(k - 1); }
  }

  /** Two bitmaps of `n` bits with the same bits are the same number. */
  lemma {:induction false} BitsDetermine(a: nat, b: nat, n: nat)
    requires a < Pow2(n) && b < Pow2(n)
    requires forall k: nat :: k < n ==> Bit(a, k) == Bit(b, k)
    ensures a == b
  {
    if n > 0 {
      assert Bit(a, 0) == Bit(b, 0);
      forall k: nat | k < n - 1 ensures Bit(a / 2, k) == Bit(b / 2, k) {
        assert Bit(a, k + 1) == Bit(b, k + 1);
      }
      BitsDetermine(a / 2, b / 2, n - 1);
    }
  }

  predicate IsHex(c: char) { '0' <= c <= '9' || 'A' <= c <= 'F' || 'a' <= c <= 'f' }

  predicate AllHex(s: string) { forall i :: 0 <= i < |s| ==> IsHex(s[i]) }

  function HexDigit(n: nat): char
    requires n < 16
  {
    if n < 10 then '0' + n as char else 'A' + (n - 10) as char
  }

  function HexValue(c: char): (v: nat)
    requires IsHex(c)
    ensures v < 16
  {
    if c <= '9' then c as int - '0' as int
    else if c <= 'F' then c as int - 'A' as int + 10
    else c as int - 'a' as int + 10
  }

  /** Upper-case hexadecimal padded on the left to `width`. */
  function ToHex(b: nat, width: nat): string {
    if width == 0 then "" else ToHex(b / 16, width - 1) + [HexDigit(b % 16)]
  }

  function FromHex(s: string): nat
    requires AllHex(s)
  {
    if s == "" then 0 else FromHex(s[..|s| - 1]) * 16 + HexValue(s[|s| - 1])
  }

  function UpperHex(s: string): string
    requires AllHex(s)
  {
    seq(|s|, i requires 0 <= i < |s| => HexDigit(HexValue(s[i])))
  }

  lemma PowFour(k: nat)
    ensures Pow2(k + 4) == 16 * Pow2(k)
  {
    assert Pow2(k + 4) == 2 * Pow2(k + 3);
    assert Pow2(k + 3) == 2 * Pow2(k + 2);
    assert Pow2(k + 2) == 2 * Pow2(k + 1);
  }

  lemma PowNibble(n: nat)
    requires n > 0
    ensures Pow2(4 * n) == 16 * Pow2(4 * (n - 1))
  {
    PowFour(4 * (n - 1));
    assert 4 * n == 4 * (n - 1) + 4;
  }

  lemma {:induction false} HexRoundTrip(b: nat, width: nat)
    requires b < Pow2(4 * width)
    ensures |ToHex(b, width)| == width && AllHex(ToHex(b, width)) && FromHex(ToHex(b, width)) == b
  {
    if width > 0 {
      PowNibble(width);
      HexRoundTrip(b / 16, width - 1);
      assert ToHex(b, width)[..width - 1] == ToHex(b / 16, width - 1);
    }
  }

  lemma {:induction false} HexUnique(s: string)
    requires AllHex(s)
    ensures ToHex(FromHex(s), |s|) == UpperHex(s) && FromHex(s) < Pow2(4 * |s|)
  {
    if s != "" {
      var front := s[..|s| - 1];
      HexUnique(front);
      assert UpperHex(s)[..|s| - 1] == UpperHex(front);
      PowNibble(|s|);
      assert FromHex(s) / 16 == FromHex(front) && FromHex(s) % 16 == HexValue(s[|s| - 1]);
    }
  }

  /** Case does not change the value. */
  lemma {:induction false} HexCase(s: string)
    requires AllHex(s)
    ensures AllHex(UpperHex(s)) && FromHex(UpperHex(s)) == FromHex(s)
  {
    if s != "" {
      HexCase(s[..|s| - 1]);
      assert UpperHex(s)[..|s| - 1] == UpperHex(s[..|s| - 1]);
    }
  }

  // ----- encoding -----

  function BitmapOf(fields: map<Field, string>, n: nat): nat
    requires n <= |SUPPORTED|
    decreases n, |fields|
  {
    if n == 0 then 0
    else if SUPPORTED[n - 1] in fields then SetBit(BitmapOf(fields, n - 1), 64 - SUPPORTED[n - 1])
    else BitmapOf(fields, n - 1)
  }

  predicate Present(fields: map<Field, string>, f: int) {
    IsSupported(f) && f in fields
  }

  /** The elements numbered `f` and up, in order. */
  function Body(fields: map<Field, string>, f: nat): Result<string, string>
    decreases 65 - f, |fields|
  {
    if f > 64 then Ok("")
    else if !Present(fields, f) then Body(fields, f + 1)
    else
      var element := EncodeField(f, fields[f]);
      var rest := Body(fields, f + 1);
      if element.Err? then element else if rest.Err? then rest else Ok(element.value + rest.value)
  }

  function Encode(m: Message): Result<string, string> {
    if !ValidMti(m.mti) then Err("MTI must contain four digits") else
      var body := Body(m.fields, 2);
      if body.Err? then body
      else Ok(m.mti + ToHex(BitmapOf(m.fields, |SUPPORTED|), 16) + body.value)
  }

  // ----- decoding -----

  datatype Parsed = Parsed(fields: map<Field, string>, offset: nat)

  function DecodeFields(bitmap: nat, payload: string, f: nat, p: Parsed): Result<Parsed, string>
    requires p.offset <= |payload|
    decreases 65 - f, |payload|
  {
    if f > 64 then Ok(p)
    else if !Bit(bitmap, 64 - f) then DecodeFields(bitmap, payload, f + 1, p)
    else if !IsSupported(f) then Err("field not supported")
    else
      var d := DecodeField(f, payload, p.offset);
      if d.Err? then Err(d.error)
      else DecodeFields(bitmap, payload, f + 1, Parsed(p.fields[f := d.value.value], d.value.offset))
  }

  function Decode(payload: string): Result<Message, string> {
    if |payload| < 20 then Err("shorter than MTI and primary bitmap")
    else if !ValidMti(payload[..4]) then Err("MTI must contain four digits")
    else if !AllHex(payload[4..20]) then Err("bitmap must be hexadecimal")
    else
      var bitmap := FromHex(payload[4..20]);
      if Bit(bitmap, 63) then Err("secondary bitmaps are not supported") else
        var r := DecodeFields(bitmap, payload, 2, Parsed(map[], 20));
        if r.Err? then Err(r.error)
        else if r.value.offset != |payload| then Err("trailing data")
        else Ok(Message(payload[..4], r.value.fields))
  }

  // ----- one element -----

  lemma FieldRoundTrip(f: Field, value: string, payload: string, offset: nat, rest: string)
    requires EncodeField(f, value).Ok? && offset <= |payload|
    requires payload[offset..] == EncodeField(f, value).value + rest
    ensures DecodeField(f, payload, offset) == Ok(Decoded(value, offset + |EncodeField(f, value).value|))
  {
    var e := EncodeField(f, value).value;
    var tail := payload[offset..];
    assert tail[..|e|] == e;
    if Spec(f).llvar {
      assert tail[0] == Digit(|value| / 10) && tail[1] == Digit(|value| % 10);
      assert tail[2..2 + |value|] == value;
    } else {
      assert tail[0..|value|] == value;
    }
  }

  lemma FieldUnique(f: Field, payload: string, offset: nat)
    requires offset <= |payload| && DecodeField(f, payload, offset).Ok?
    ensures var d := DecodeField(f, payload, offset).value;
      offset < d.offset <= |payload| && EncodeField(f, d.value) == Ok(payload[offset..d.offset])
  {
    var d := DecodeField(f, payload, offset).value;
    var rest := payload[offset..];
    if Spec(f).llvar {
      var n := 10 * DigitValue(rest[0]) + DigitValue(rest[1]);
      assert n / 10 == DigitValue(rest[0]) && n % 10 == DigitValue(rest[1]);
      assert payload[offset..d.offset] == [rest[0], rest[1]] + d.value;
    } else {
      assert payload[offset..d.offset] == d.value;
    }
  }

  // ----- the bitmap against the fields -----

  lemma {:induction false} BitmapBound(fields: map<Field, string>, n: nat)
    requires n <= |SUPPORTED|
    ensures BitmapOf(fields, n) < Pow2(64)
  {
    if n == 0 {
      PowPositive(64);
    } else {
      BitmapBound(fields, n - 1);
      if SUPPORTED[n - 1] in fields {
        SetBitBound(BitmapOf(fields, n - 1), 64 - SUPPORTED[n - 1], 64);
      }
    }
  }

  lemma {:induction false} BitmapBits(fields: map<Field, string>, n: nat, f: nat)
    requires n <= |SUPPORTED| && 1 <= f <= 64
    ensures Bit(BitmapOf(fields, n), 64 - f) <==> f in SUPPORTED[..n] && Present(fields, f)
  {
    if n == 0 {
      ZeroBits(64 - f);
    } else {
      var last := SUPPORTED[n - 1];
      BitmapBits(fields, n - 1, f);
      assert SUPPORTED[..n] == SUPPORTED[..n - 1] + [last];
      if last in fields {
        SetBitBits(BitmapOf(fields, n - 1), 64 - last, 64 - f);
      }
    }
  }

  lemma {:induction false} PowPositive(n: nat)
    ensures Pow2(n) > 0
  {
    if n > 0 { PowPositive(n - 1); }
  }

  /** Bit 64 - f of the whole bitmap says exactly whether field `f` is present. */
  lemma BitmapMeans(fields: map<Field, string>, f: nat)
    requires 1 <= f <= 64
    ensures Bit(BitmapOf(fields, 8), 64 - f) <==> Present(fields, f)
    ensures BitmapOf(fields, 8) < Pow2(64)
  {
    BitmapBits(fields, 8, f);
    BitmapBound(fields, 8);
    if IsSupported(f) {
      assert SUPPORTED[0] == 2 && SUPPORTED[1] == 3 && SUPPORTED[2] == 4 && SUPPORTED[3] == 7;
      assert SUPPORTED[4] == 11 && SUPPORTED[5] == 39 && SUPPORTED[6] == 41 && SUPPORTED[7] == 49;
      assert f in SUPPORTED && SUPPORTED[..8] == SUPPORTED;
    }
  }

  // ----- decode after encode -----

  /** The fields numbered below `f`. */
  function Below(fields: map<Field, string>, f: nat): map<Field, string> {
    map g | g in fields && g < f :: fields[g]
  }

  lemma BelowStep(fields: map<Field, string>, f: nat)
    ensures Present(fields, f) ==> Below(fields, f)[f := fields[f]] == Below(fields, f + 1)
    ensures !Present(fields, f) ==> Below(fields, f) == Below(fields, f + 1)
    ensures f > 64 ==> Below(fields, f) == fields
  {}

  /** One present field: the decoder reads it and leaves the rest of the body. */
  lemma DecodePresent(fields: map<Field, string>, bitmap: nat, payload: string, f: nat, offset: nat)
    requires f <= 64 && offset <= |payload| && Present(fields, f) && Bit(bitmap, 64 - f)
    requires Body(fields, f).Ok? && payload[offset..] == Body(fields, f).value
    ensures var next := offset + |EncodeField(f, fields[f]).value|;
      && EncodeField(f, fields[f]).Ok? && Body(fields, f + 1).Ok?
      && next <= |payload| && payload[next..] == Body(fields, f + 1).value
      && DecodeFields(bitmap, payload, f, Parsed(Below(fields, f), offset))
         == DecodeFields(bitmap, payload, f + 1, Parsed(Below(fields, f + 1), next))
  {
    var e := EncodeField(f, fields[f]).value;
    var rest := Body(fields, f + 1).value;
    FieldRoundTrip(f, fields[f], payload, offset, rest);
    assert payload[offset + |e|..] == payload[offset..][|e|..] == rest;
    BelowStep(fields, f);
  }

  lemma {:induction false} DecodeBody(fields: map<Field, string>, bitmap: nat, payload: string, f: nat, offset: nat)
    requires 2 <= f <= 65 && offset <= |payload|
    requires forall g: nat :: 2 <= g <= 64 ==> (Bit(bitmap, 64 - g) <==> Present(fields, g))
    requires Body(fields, f).Ok? && payload[offset..] == Body(fields, f).value
    ensures DecodeFields(bitmap, payload, f, Parsed(Below(fields, f), offset)) == Ok(Parsed(fields, |payload|))
    decreases 65 - f
  {
    BelowStep(fields, f);
    if f <= 64 {
      if Present(fields, f) {
        DecodePresent(fields, bitmap, payload, f, offset);
        DecodeBody(fields, bitmap, payload, f + 1, offset + |EncodeField(f, fields[f]).value|);
      } else {
        DecodeBody(fields, bitmap, payload, f + 1, offset);
      }
    }
  }

  /** Decoding what was encoded gives the message back, for every message the encoder accepts. */
  lemma DecodeAfterEncode(m: Message)
    requires Encode(m).Ok?
    ensures Decode(Encode(m).value) == Ok(m)
  {
    var p := Encode(m).value;
    var bitmap := BitmapOf(m.fields, 8);
    var body := Body(m.fields, 2).value;
    BitmapMeans(m.fields, 1);
    HexRoundTrip(bitmap, 16);
    assert p[..4] == m.mti && p[4..20] == ToHex(bitmap, 16) && p[20..] == body;
    assert Below(m.fields, 2) == map[];
    forall g: nat | 2 <= g <= 64 ensures Bit(bitmap, 64 - g) <==> Present(m.fields, g) {
      BitmapMeans(m.fields, g);
    }
    DecodeBody(m.fields, bitmap, p, 2, 20);
  }

  // ----- encode after decode -----

  /** A successful field loop keeps the fields it had, adds exactly the set bits, and its bytes are their encoding. */
  lemma {:induction false} DecodeFieldsSound(bitmap: nat, payload: string, f: nat, p: Parsed)
    requires 2 <= f && p.offset <= |payload| && (forall g :: g in p.fields ==> g < f)
    requires DecodeFields(bitmap, payload, f, p).Ok?
    ensures var r := DecodeFields(bitmap, payload, f, p).value;
      && p.offset <= r.offset <= |payload|
      && (forall g: Field :: g < f ==> (g in r.fields <==> g in p.fields) && (g in p.fields ==> r.fields[g] == p.fields[g]))
      && (forall g: nat :: f <= g <= 64 ==> (Bit(bitmap, 64 - g) <==> Present(r.fields, g)))
      && Body(r.fields, f) == Ok(payload[p.offset..r.offset])
    decreases 65 - f
  {
    if f <= 64 {
      var r := DecodeFields(bitmap, payload, f, p).value;
      if !Bit(bitmap, 64 - f) {
        DecodeFieldsSound(bitmap, payload, f + 1, p);
      } else {
        FieldUnique(f, payload, p.offset);
        var d := DecodeField(f, payload, p.offset).value;
        DecodeFieldsSound(bitmap, payload, f + 1, Parsed(p.fields[f := d.value], d.offset));
        assert f in r.fields && r.fields[f] == d.value;
        assert payload[p.offset..r.offset] == payload[p.offset..d.offset] + payload[d.offset..r.offset];
      }
    } else {
      assert payload[p.offset..p.offset] == "";
    }
  }

  /** The payload with its bitmap digits in upper case. */
  function Normal(payload: string): string
    requires |payload| >= 20 && AllHex(payload[4..20])
  {
    payload[..4] + UpperHex(payload[4..20]) + payload[20..]
  }

  /** Encoding what was decoded gives the payload back with its bitmap in upper case, for every payload accepted. */
  lemma EncodeAfterDecode(payload: string)
    requires Decode(payload).Ok?
    ensures Encode(Decode(payload).value) == Ok(Normal(payload))
  {
    var m := Decode(payload).value;
    var hex := payload[4..20];
    var bitmap := FromHex(hex);
    DecodeFieldsSound(bitmap, payload, 2, Parsed(map[], 20));
    HexUnique(hex);
    forall k: nat | k < 64 ensures Bit(bitmap, k) == Bit(BitmapOf(m.fields, 8), k) {
      BitmapMeans(m.fields, 64 - k);
    }
    BitmapMeans(m.fields, 1);
    BitsDetermine(bitmap, BitmapOf(m.fields, 8), 64);
    assert payload[20..|payload|] == payload[20..];
  }

  /** Both directions at once: a payload decodes to `m` exactly when `m` encodes to it, up to bitmap case. */
  lemma CodecExact(payload: string, m: Message)
    requires |payload| >= 20 && AllHex(payload[4..20])
    ensures Decode(payload) == Ok(m) <==> Encode(m) == Ok(Normal(payload))
  {
    if Decode(payload) == Ok(m) {
      EncodeAfterDecode(payload);
    }
    if Encode(m) == Ok(Normal(payload)) {
      DecodeAfterEncode(m);
      NormalDecodes(payload);
    }
  }

  lemma NormalDecodes(payload: string)
    requires |payload| >= 20 && AllHex(payload[4..20])
    ensures Decode(Normal(payload)) == Decode(payload)
  {
    HexCase(payload[4..20]);
    var n := Normal(payload);
    assert n[..4] == payload[..4] && n[4..20] == UpperHex(payload[4..20]) && n[20..] == payload[20..];
    SameTailDecodes(FromHex(payload[4..20]), payload, n, 2, Parsed(map[], 20));
  }

  lemma {:induction false} SameTailDecodes(bitmap: nat, a: string, b: string, f: nat, p: Parsed)
    requires |a| == |b| && 20 <= p.offset <= |a| && a[20..] == b[20..]
    ensures DecodeFields(bitmap, a, f, p) == DecodeFields(bitmap, b, f, p)
    decreases 65 - f
  {
    if f <= 64 {
      assert a[p.offset..] == a[20..][p.offset - 20..] == b[p.offset..];
      if !Bit(bitmap, 64 - f) {
        SameTailDecodes(bitmap, a, b, f + 1, p);
      } else if IsSupported(f) && DecodeField(f, a, p.offset).Ok? {
        var d := DecodeField(f, a, p.offset).value;
        SameTailDecodes(bitmap, a, b, f + 1, Parsed(p.fields[f := d.value], d.offset));
      }
    }
  }

  // ----- the loops -----

  lemma {:induction false} BodySkips(fields: map<Field, string>, f: nat, g: nat)
    requires f <= g <= 65 && forall h :: f <= h < g ==> !IsSupported(h)
    ensures Body(fields, f) == Body(fields, g)
    decreases g - f
  {
    if f < g {
      BodySkips(fields, f + 1, g);
    }
  }

  /** The wire form of the supported fields from index `i` on. */
  function Start(i: nat): nat
    requires i <= |SUPPORTED|
  {
    if i == |SUPPORTED| then 65 else SUPPORTED[i]
  }

  method BuildBitmap(fields: map<Field, string>) returns (bitmap: nat)
    ensures bitmap == BitmapOf(fields, 8)
    ensures forall f: nat :: 1 <= f <= 64 ==> (Bit(bitmap, 64 - f) <==> Present(fields, f))
  {
    bitmap := 0;
    for i := 0 to |SUPPORTED|
      invariant bitmap == BitmapOf(fields, i)
    {
      if SUPPORTED[i] in fields {
        bitmap := SetBit(bitmap, 64 - SUPPORTED[i]);
      }
    }
    forall f: nat | 1 <= f <= 64 ensures Bit(bitmap, 64 - f) <==> Present(fields, f) {
      BitmapMeans(fields, f);
    }
  }

  method BuildBody(fields: map<Field, string>) returns (r: Result<string, string>)
    ensures r.Ok? <==> Body(fields, 2).Ok?
    ensures r.Ok? ==> r == Body(fields, 2)
  {
    var body := "";
    var first: nat := 2;
    for i := 0 to |SUPPORTED|
      invariant Body(fields, Start(i)).Ok? <==> Body(fields, first).Ok?
      invariant Body(fields, first).Ok? ==> Body(fields, first).value == body + Body(fields, Start(i)).value
    {
      var f: Field := SUPPORTED[i];
      BodySkips(fields, f + 1, Start(i + 1));
      if f in fields {
        var element := EncodeField(f, fields[f]);
        if element.Err? {
          return element;
        }
        body := body + element.value;
      }
    }
    assert Body(fields, Start(|SUPPORTED|)) == Ok("");
    assert body + "" == body;
    return Ok(body);
  }

  method EncodeIso8583(m: Message) returns (r: Result<string, string>)
    ensures r.Ok? <==> Encode(m).Ok?
    ensures r.Ok? ==> r == Encode(m) && Decode(r.value) == Ok(m)
  {
    if !ValidMti(m.mti) {
      return Err("MTI must contain four digits");
    }
    var bitmap := BuildBitmap(m.fields);
    var body := BuildBody(m.fields);
    if body.Err? {
      return body;
    }
    r := Ok(m.mti + ToHex(bitmap, 16) + body.value);
    DecodeAfterEncode(m);
  }

  method DecodeIso8583(payload: string) returns (r: Result<Message, string>)
    ensures r == Decode(payload)
    ensures r.Ok? ==> Encode(r.value) == Ok(Normal(payload))
  {
    if |payload| < 20 {
      return Err("shorter than MTI and primary bitmap");
    }
    var mti := payload[..4];
    if !ValidMti(mti) {
      return Err("MTI must contain four digits");
    }
    var bitmapText := payload[4..20];
    if !AllHex(bitmapText) {
      return Err("bitmap must be hexadecimal");
    }
    var bitmap := FromHex(bitmapText);
    if Bit(bitmap, 63) {
      return Err("secondary bitmaps are not supported");
    }
    var fields: map<Field, string> := map[];
    var offset: nat := 20;
    for f := 2 to 65
      invariant offset <= |payload|
      invariant DecodeFields(bitmap, payload, 2, Parsed(map[], 20)) == DecodeFields(bitmap, payload, f, Parsed(fields, offset))
    {
      if Bit(bitmap, 64 - f) {
        if !IsSupported(f) {
          return Err("field not supported");
        }
        var decoded := DecodeField(f, payload, offset);
        if decoded.Err? {
          return Err(decoded.error);
        }
        fields := fields[f := decoded.value.value];
        offset := decoded.value.offset;
      }
    }
    if offset != |payload| {
      return Err("trailing data");
    }
    r := Ok(Message(mti, fields));
    EncodeAfterDecode(payload);
  }
}
