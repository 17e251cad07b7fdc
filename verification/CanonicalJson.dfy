/**
 * The evidence printer: object keys in UTF-16 ordinal order, a byte budget on
 * the way, and journals serialised line by line under one budget.
 */
module CanonicalJson {
  import opened Prelude
  import opened Json

  // ----- ordinal order of keys -----

  /** Orders characters as their UTF-16 code units: surrogate pairs come before U+E000 to U+FFFF. */
  function Rank(c: char): nat {
    if 0xE000 <= c as int < 0x1_0000 then c as int + 0x11_0000 else c as int
  }

  predicate Less(a: string, b: string) {
    b != "" && (a == "" || Rank(a[0]) < Rank(b[0]) || (a[0] == b[0] && Less(a[1..], b[1..])))
  }

  lemma {:induction false} LessTotal(a: string, b: string)
    ensures a == b || Less(a, b) || Less(b, a)
    ensures !(Less(a, b) && Less(b, a)) && !Less(a, a)
    decreases |a|
  {
    if a != "" && b != "" && a[0] == b[0] {
      LessTotal(a[1..], b[1..]);
      assert a == [a[0]] + a[1..] && b == [b[0]] + b[1..];
    }
    if a != "" { LessTotal(a[1..], a[1..]); }
  }

  lemma {:induction false} LessTransitive(a: string, b: string, c: string)
    requires Less(a, b) && Less(b, c)
    ensures Less(a, c)
    decreases |a|
  {
    if a != "" && a[0] == b[0] == c[0] { LessTransitive(a[1..], b[1..], c[1..]); }
  }

  // ----- sorted fields -----

  predicate Sorted(fields: seq<Field>) {
    forall i, j :: 0 <= i < j < |fields| ==> Less(fields[i].key, fields[j].key)
  }

  function Insert(f: Field, sorted: seq<Field>): seq<Field> {
    if sorted == [] || Less(f.key, sorted[0].key) then [f] + sorted
    else [sorted[0]] + Insert(f, sorted[1..])
  }

  function SortFields(fields: seq<Field>): seq<Field> {
    if fields == [] then [] else Insert(fields[0], SortFields(fields[1..]))
  }

  lemma {:induction false} InsertSorted(f: Field, sorted: seq<Field>)
    requires Sorted(sorted) && forall g :: g in sorted ==> g.key != f.key
    ensures Sorted(Insert(f, sorted)) && |Insert(f, sorted)| == |sorted| + 1
    ensures forall g :: g in Insert(f, sorted) <==> g == f || g in sorted
  {
    if sorted != [] && !Less(f.key, sorted[0].key) {
      InsertSorted(f, sorted[1..]);
      LessTotal(f.key, sorted[0].key);
      assert sorted == [sorted[0]] + sorted[1..];
      var r := Insert(f, sorted[1..]);
      forall g | g in r ensures Less(sorted[0].key, g.key) {
        if g != f { assert g in sorted[1..]; }
      }
    } else {
      forall g | g in sorted ensures Less(f.key, g.key) {
        if g != sorted[0] { LessTransitive(f.key, sorted[0].key, g.key); }
      }
    }
  }

  lemma {:induction false} SortFieldsSorts(fields: seq<Field>)
    requires DistinctKeys(fields)
    ensures Sorted(SortFields(fields)) && |SortFields(fields)| == |fields|
    ensures forall g :: g in SortFields(fields) <==> g in fields
  {
    if fields != [] {
      SortFieldsSorts(fields[1..]);
      InsertSorted(fields[0], SortFields(fields[1..]));
      assert fields == [fields[0]] + fields[1..];
    }
  }

  lemma TailMembers(a: seq<Field>)
    requires Sorted(a) && a != []
    ensures forall g :: g in a[1..] <==> g in a && g != a[0]
  {
    assert a == [a[0]] + a[1..];
    LessTotal(a[0].key, a[0].key);
  }

  /** Sorted field lists with the same members are the same list. */
  lemma {:induction false} SortedUnique(a: seq<Field>, b: seq<Field>)
    requires Sorted(a) && Sorted(b) && forall g :: g in a <==> g in b
    ensures a == b
    decreases |a|
  {
    assert b != [] ==> b[0] in b;
    if a != [] {
      assert a[0] in a;
      HeadsAgree(a, b);
      assert a == [a[0]] + a[1..] && b == [b[0]] + b[1..];
      TailMembers(a);
      TailMembers(b);
      SortedUnique(a[1..], b[1..]);
    }
  }

  lemma HeadsAgree(a: seq<Field>, b: seq<Field>)
    requires Sorted(a) && Sorted(b) && a != [] && b != [] && a[0] in b && b[0] in a
    ensures a[0] == b[0]
  {
    LessTotal(a[0].key, b[0].key);
  }

  // ----- canonical form -----

  /** Every object's fields sorted, at every depth. */
  function Canon(v: Value): Value
    decreases v, 1
  {
    match v
    case Arr(items) => Arr(CanonItems(items))
    case Obj(fields) => Obj(CanonFields(fields))
    case _ => v
  }

  function CanonItems(items: seq<Value>): seq<Value>
    decreases items, 0
  {
    if items == [] then [] else [Canon(items[0])] + CanonItems(items[1..])
  }

  function CanonFields(fields: seq<Field>): seq<Field>
    decreases fields, 0
  {
    if fields == [] then []
    else Insert(Field(fields[0].key, Canon(fields[0].value)), CanonFields(fields[1..]))
  }

  /** What `stableStringify` prints when the budget allows. */
  function StableText(v: Value): string { Print(Canon(v)) }

  lemma {:induction false} CanonWellFormed(v: Value)
    requires WellFormed(v)
    ensures WellFormed(Canon(v))
    decreases v, 1
  {
    match v
    case Arr(items) => CanonItemsFacts(items);
    case Obj(fields) => CanonFieldsFacts(fields);
    case _ =>
  }

  lemma {:induction false} CanonItemsFacts(items: seq<Value>)
    requires forall i :: 0 <= i < |items| ==> WellFormed(items[i])
    ensures |CanonItems(items)| == |items|
    ensures forall i :: 0 <= i < |items| ==> CanonItems(items)[i] == Canon(items[i]) && WellFormed(CanonItems(items)[i])
    decreases items, 0
  {
    if items != [] {
      CanonWellFormed(items[0]);
      CanonItemsFacts(items[1..]);
    }
  }

  /** Some field has this key and this canonical value. */
  ghost predicate HasCanon(fields: seq<Field>, g: Field) {
    exists i :: 0 <= i < |fields| && fields[i].key == g.key && Canon(fields[i].value) == g.value
  }

  lemma HasCanonStep(fields: seq<Field>)
    requires fields != []
    ensures forall g :: HasCanon(fields, g) <==>
      g == Field(fields[0].key, Canon(fields[0].value)) || HasCanon(fields[1..], g)
  {
    forall g | HasCanon(fields[1..], g) ensures HasCanon(fields, g) {
      var i :| 0 <= i < |fields[1..]| && fields[1..][i].key == g.key && Canon(fields[1..][i].value) == g.value;
      assert fields[i + 1] == fields[1..][i];
    }
    forall g | HasCanon(fields, g) && g != Field(fields[0].key, Canon(fields[0].value)) ensures HasCanon(fields[1..], g) {
      var i :| 0 <= i < |fields| && fields[i].key == g.key && Canon(fields[i].value) == g.value;
      assert fields[1..][i - 1] == fields[i];
    }
  }

  lemma {:induction false} CanonFieldsFacts(fields: seq<Field>)
    requires DistinctKeys(fields)
    requires forall i :: 0 <= i < |fields| ==> WellFormed(fields[i].value)
    ensures Sorted(CanonFields(fields)) && DistinctKeys(CanonFields(fields))
    ensures forall g :: g in CanonFields(fields) <==> HasCanon(fields, g)
    ensures forall g :: g in CanonFields(fields) ==> WellFormed(g.value)
    decreases fields, 0
  {
    if fields != [] {
      CanonWellFormed(fields[0].value);
      CanonFieldsFacts(fields[1..]);
      var head := Field(fields[0].key, Canon(fields[0].value));
      var rest := CanonFields(fields[1..]);
      InsertSorted(head, rest);
      var r := CanonFields(fields);
      HasCanonStep(fields);
      SortedDistinct(r);
    }
  }

  lemma SortedDistinct(fields: seq<Field>)
    requires Sorted(fields)
    ensures DistinctKeys(fields)
  {
    forall i, j | 0 <= i < j < |fields| ensures fields[i].key != fields[j].key {
      LessTotal(fields[i].key, fields[j].key);
    }
  }

  // ----- equality up to key order -----

  /** The same value, except that object fields may come in another order. */
  ghost predicate Same(a: Value, b: Value)
    decreases a, 1
  {
    match a
    case Arr(items) => b.Arr? && SameItems(items, b.items)
    case Obj(fields) => b.Obj? && SameFields(fields, b.fields)
    case _ => a == b
  }

  ghost predicate SameItems(a: seq<Value>, b: seq<Value>)
    decreases a, 0
  {
    |a| == |b| && forall i :: 0 <= i < |a| ==> Same(a[i], b[i])
  }

  /** Every field on either side has a counterpart on the other. */
  ghost predicate SameFields(a: seq<Field>, b: seq<Field>)
    decreases a, 0
  {
    && (forall i :: 0 <= i < |a| ==> exists j :: 0 <= j < |b| && SameField(a[i], b[j]))
    && (forall j :: 0 <= j < |b| ==> exists i :: 0 <= i < |a| && SameField(a[i], b[j]))
  }

  ghost predicate SameField(f: Field, g: Field)
    decreases f, 0
  {
    f.key == g.key && Same(f.value, g.value)
  }

  /** Canonical equality and sameness agree on every pair of fields. */
  ghost predicate Agree(a: seq<Field>, b: seq<Field>) {
    forall i, j :: 0 <= i < |a| && 0 <= j < |b| ==>
      (SameField(a[i], b[j]) <==> a[i].key == b[j].key && Canon(a[i].value) == Canon(b[j].value))
  }

  /** Every field of `a` has a counterpart in `b`. */
  ghost predicate Covered(a: seq<Field>, b: seq<Field>) {
    forall i :: 0 <= i < |a| ==> HasCanon(b, Field(a[i].key, Canon(a[i].value)))
  }

  lemma CounterpartForward(a: seq<Field>, b: seq<Field>, i: nat)
    requires Agree(a, b) && i < |a|
    ensures HasCanon(b, Field(a[i].key, Canon(a[i].value))) <==> exists j :: 0 <= j < |b| && SameField(a[i], b[j])
  {
    if HasCanon(b, Field(a[i].key, Canon(a[i].value))) {
      var j :| 0 <= j < |b| && b[j].key == a[i].key && Canon(b[j].value) == Canon(a[i].value);
      assert SameField(a[i], b[j]);
    }
  }

  lemma CounterpartBackward(a: seq<Field>, b: seq<Field>, j: nat)
    requires Agree(a, b) && j < |b|
    ensures HasCanon(a, Field(b[j].key, Canon(b[j].value))) <==> exists i :: 0 <= i < |a| && SameField(a[i], b[j])
  {
    if HasCanon(a, Field(b[j].key, Canon(b[j].value))) {
      var i :| 0 <= i < |a| && a[i].key == b[j].key && Canon(a[i].value) == Canon(b[j].value);
      assert SameField(a[i], b[j]);
    }
  }

  lemma CoveredBothWays(a: seq<Field>, b: seq<Field>)
    requires DistinctKeys(a) && forall i :: 0 <= i < |a| ==> WellFormed(a[i].value)
    requires DistinctKeys(b) && forall i :: 0 <= i < |b| ==> WellFormed(b[i].value)
    ensures CanonFields(a) == CanonFields(b) <==> Covered(a, b) && Covered(b, a)
  {
    CanonFieldsFacts(a);
    CanonFieldsFacts(b);
    if Covered(a, b) && Covered(b, a) {
      SortedUnique(CanonFields(a), CanonFields(b));
    }
    if CanonFields(a) == CanonFields(b) {
      forall i | 0 <= i < |a| ensures HasCanon(b, Field(a[i].key, Canon(a[i].value))) {
        assert HasCanon(a, Field(a[i].key, Canon(a[i].value)));
      }
      forall j | 0 <= j < |b| ensures HasCanon(a, Field(b[j].key, Canon(b[j].value))) {
        assert HasCanon(b, Field(b[j].key, Canon(b[j].value)));
      }
    }
  }

  lemma ItemsDecide(a: seq<Value>, b: seq<Value>)
    requires forall i :: 0 <= i < |a| ==> WellFormed(a[i])
    requires forall i :: 0 <= i < |b| ==> WellFormed(b[i])
    ensures CanonItems(a) == CanonItems(b) <==> |a| == |b| && forall i :: 0 <= i < |a| ==> Canon(a[i]) == Canon(b[i])
  {
    CanonItemsFacts(a);
    CanonItemsFacts(b);
    if CanonItems(a) == CanonItems(b) {
      forall i | 0 <= i < |a| ensures Canon(a[i]) == Canon(b[i]) {
        assert CanonItems(a)[i] == CanonItems(b)[i];
      }
    }
  }

  lemma FieldsDecide(a: seq<Field>, b: seq<Field>)
    requires Agree(a, b)
    requires DistinctKeys(a) && forall i :: 0 <= i < |a| ==> WellFormed(a[i].value)
    requires DistinctKeys(b) && forall i :: 0 <= i < |b| ==> WellFormed(b[i].value)
    ensures CanonFields(a) == CanonFields(b) <==> SameFields(a, b)
  {
    CoveredBothWays(a, b);
    forall i | 0 <= i < |a|
      ensures HasCanon(b, Field(a[i].key, Canon(a[i].value))) <==> exists j :: 0 <= j < |b| && SameField(a[i], b[j])
    {
      CounterpartForward(a, b, i);
    }
    forall j | 0 <= j < |b|
      ensures HasCanon(a, Field(b[j].key, Canon(b[j].value))) <==> exists i :: 0 <= i < |a| && SameField(a[i], b[j])
    {
      CounterpartBackward(a, b, j);
    }
  }

  lemma {:induction false} CanonDecides(a: Value, b: Value)
    requires WellFormed(a) && WellFormed(b)
    ensures Canon(a) == Canon(b) <==> Same(a, b)
    decreases a, 1
  {
    match a
    case Arr(items) =>
      if b.Arr? { ItemsAgree(items, b.items); }
    case Obj(fields) =>
      if b.Obj? { FieldsAgree(fields, b.fields); }
    case _ =>
  }

  lemma {:induction false} ItemsAgree(a: seq<Value>, b: seq<Value>)
    requires forall i :: 0 <= i < |a| ==> WellFormed(a[i])
    requires forall i :: 0 <= i < |b| ==> WellFormed(b[i])
    ensures CanonItems(a) == CanonItems(b) <==> SameItems(a, b)
    decreases a, 0
  {
    ItemsDecide(a, b);
    forall i | 0 <= i < |a| && i < |b| ensures Canon(a[i]) == Canon(b[i]) <==> Same(a[i], b[i]) {
      CanonDecides(a[i], b[i]);
    }
  }

  lemma {:induction false} FieldsAgree(a: seq<Field>, b: seq<Field>)
    requires DistinctKeys(a) && forall i :: 0 <= i < |a| ==> WellFormed(a[i].value)
    requires DistinctKeys(b) && forall i :: 0 <= i < |b| ==> WellFormed(b[i].value)
    ensures CanonFields(a) == CanonFields(b) <==> SameFields(a, b)
    decreases a, 0
  {
    forall i, j | 0 <= i < |a| && 0 <= j < |b|
      ensures SameField(a[i], b[j]) <==> a[i].key == b[j].key && Canon(a[i].value) == Canon(b[j].value)
    {
      CanonDecides(a[i].value, b[j].value);
    }
    FieldsDecide(a, b);
  }

  /** The printer is an equality test: two values print alike exactly when they are equal up to key order. */
  lemma StableTextDecides(a: Value, b: Value)
    requires WellFormed(a) && WellFormed(b)
    ensures StableText(a) == StableText(b) <==> Same(a, b)
  {
    CanonWellFormed(a);
    CanonWellFormed(b);
    CanonDecides(a, b);
    if StableText(a) == StableText(b) {
      PrintInjective(Canon(a), Canon(b));
    }
  }

  /** The comparison a certification check makes. */
  predicate CheckPasses(expected: Value, actual: Value) {
    StableText(expected) == StableText(actual)
  }

  /** A check passes exactly when expected and actual are equal up to key order. */
  lemma CheckDecides(expected: Value, actual: Value)
    requires WellFormed(expected) && WellFormed(actual)
    ensures CheckPasses(expected, actual) <==> Same(expected, actual)
  {
    StableTextDecides(expected, actual);
  }

  // ----- the budgeted printer -----

  /** Sorting first and canonicalising each value gives the canonical fields. */
  lemma {:induction false} InsertCommutes(f: Field, sorted: seq<Field>, canon: seq<Field>)
    requires |canon| == |sorted|
    requires forall i :: 0 <= i < |sorted| ==> canon[i] == Field(sorted[i].key, Canon(sorted[i].value))
    ensures var r, c := Insert(f, sorted), Insert(Field(f.key, Canon(f.value)), canon);
      |c| == |r| && forall i :: 0 <= i < |r| ==> c[i] == Field(r[i].key, Canon(r[i].value))
  {
    if sorted != [] && !Less(f.key, sorted[0].key) {
      InsertCommutes(f, sorted[1..], canon[1..]);
    }
  }

  lemma {:induction false} SortThenCanon(fields: seq<Field>)
    ensures var r, c := SortFields(fields), CanonFields(fields);
      |c| == |r| && forall i :: 0 <= i < |r| ==> c[i] == Field(r[i].key, Canon(r[i].value))
  {
    if fields != [] {
      SortThenCanon(fields[1..]);
      InsertCommutes(fields[0], SortFields(fields[1..]), CanonFields(fields[1..]));
    }
  }

  function Join(parts: seq<string>): string {
    if parts == [] then "" else Join(parts[..|parts| - 1]) + parts[|parts| - 1]
  }

  lemma {:induction false} EscapeBytes(s: string, rest: string)
    ensures ByteLength(s) + ByteLength(rest) <= ByteLength(EscapeTo(s, rest))
  {
    if s != "" {
      EscapeBytes(s[1..], rest);
      ByteLengthAppend(Escape(s[0]), EscapeTo(s[1..], rest));
      EscapeCharBytes(s[0]);
    }
  }

  lemma EscapeCharBytes(c: char)
    ensures ByteLength(Escape(c)) >= CharBytes(c)
  {
    var e := Escape(c);
    assert ByteLength(e) == CharBytes(e[0]) + ByteLength(e[1..]);
  }

  lemma QuoteBytes(s: string)
    ensures ByteLength(s) <= ByteLength(QuoteTo(s, ""))
  {
    EscapeBytes(s, "\"");
    ByteLengthAppend("\"", EscapeTo(s, "\"" + ""));
    assert "\"" + "" == "\"";
  }

  class Encoder {
    var parts: seq<string>
    var remaining: int

    ghost function Written(): string
      reads this
    {
      Join(parts)
    }

    /** The whole budget: what is left and what is spent. */
    ghost function Total(): int
      reads this
    {
      remaining + ByteLength(Written())
    }

    constructor (maxBytes: nat)
      ensures Written() == "" && Total() == maxBytes && remaining == maxBytes
    {
      parts, remaining := [], maxBytes;
    }

    /**
     * `append`: refuse the text that would overrun the budget. `target` is what
     * the caller wants written in the end and `rest` what comes after `text`.
     */
    method Append(text: string, ghost target: string, ghost rest: string) returns (ok: bool)
      requires remaining >= 0 && target == Written() + (text + rest)
      modifies this
      ensures remaining >= 0 && Total() == old(Total())
      ensures ok ==> target == Written() + rest
      ensures !ok ==> ByteLength(target) > Total()
    {
      ByteLengthAppend(Written(), text);
      ByteLengthAppend(Written() + text, rest);
      assert target == Written() + text + rest;
      if ByteLength(text) > remaining {
        return false;
      }
      remaining := remaining - ByteLength(text);
      parts := parts + [text];
      assert parts[..|parts| - 1] == old(parts);
      return true;
    }

    /** `appendJsonString`: the raw size is tested before the text is quoted. */
    method AppendJsonString(s: string, ghost target: string, ghost rest: string) returns (ok: bool)
      requires remaining >= 0 && target == Written() + QuoteTo(s, rest)
      modifies this
      ensures remaining >= 0 && Total() == old(Total())
      ensures ok ==> target == Written() + rest
      ensures !ok ==> ByteLength(target) > Total()
    {
      QuoteBytes(s);
      QuoteAppend(s, "", rest);
      assert "" + rest == rest;
      if ByteLength(s) > remaining {
        ByteLengthAppend(QuoteTo(s, ""), rest);
        ByteLengthAppend(Written(), QuoteTo(s, rest));
        return false;
      }
      ok := Append(QuoteTo(s, ""), target, rest);
    }

    /** Prints `v`, or stops as soon as the target cannot fit. */
    method Encode(v: Value, ghost target: string, ghost rest: string) returns (ok: bool)
      requires WellFormed(v) && remaining >= 0 && target == Written() + PrintTo(Canon(v), rest)
      modifies this
      ensures remaining >= 0 && Total() == old(Total())
      ensures ok ==> target == Written() + rest
      ensures !ok ==> ByteLength(target) > Total()
      decreases v, 1
    {
      match v
      case Null => ok := Append("null", target, rest);
      case Bool(b) => ok := Append(if b then "true" else "false", target, rest);
      case Num(t) => ok := Append(t, target, rest);
      case Str(s) => ok := AppendJsonString(s, target, rest);
      case Arr(items) =>
        ok := Append("[", target, ItemsTo(CanonItems(items), true, "]" + rest));
        if ok {
          ok := EncodeItems(v, items, target, rest);
        }
      case Obj(fields) =>
        ok := Append("{", target, FieldsTo(CanonFields(fields), true, "}" + rest));
        if ok {
          ok := EncodeFields(v, fields, target, rest);
        }
    }

    /** The elements and the closing bracket of an array whose opening bracket is written. */
    method EncodeItems(ghost v: Value, items: seq<Value>, ghost target: string, ghost rest: string) returns (ok: bool)
      requires v == Arr(items) && WellFormed(v) && remaining >= 0
      requires target == Written() + ItemsTo(CanonItems(items), true, "]" + rest)
      modifies this
      ensures remaining >= 0 && Total() == old(Total())
      ensures ok ==> target == Written() + rest
      ensures !ok ==> ByteLength(target) > Total()
      decreases v, 0
    {
      CanonItemsFacts(items);
      ghost var canon := CanonItems(items);
      for i := 0 to |items|
        invariant remaining >= 0 && Total() == old(Total())
        invariant target == Written() + ItemsTo(canon[i..], i == 0, "]" + rest)
      {
        ghost var after := ItemsTo(canon[i + 1..], false, "]" + rest);
        assert canon[i..][1..] == canon[i + 1..];
        if i > 0 {
          ok := Append(",", target, PrintTo(canon[i], after));
          if !ok {
            return;
          }
        }
        ok := Encode(items[i], target, after);
        if !ok {
          return;
        }
      }
      assert canon[|items|..] == [];
      ok := Append("]", target, rest);
    }

    /** The sorted fields and the closing brace of an object whose opening brace is written. */
    method EncodeFields(ghost v: Value, fields: seq<Field>, ghost target: string, ghost rest: string) returns (ok: bool)
      requires v == Obj(fields) && WellFormed(v) && remaining >= 0
      requires target == Written() + FieldsTo(CanonFields(fields), true, "}" + rest)
      modifies this
      ensures remaining >= 0 && Total() == old(Total())
      ensures ok ==> target == Written() + rest
      ensures !ok ==> ByteLength(target) > Total()
      decreases v, 0
    {
      var sorted := SortFields(fields);
      SortFieldsSorts(fields);
      SortThenCanon(fields);
      ghost var canon := CanonFields(fields);
      for i := 0 to |sorted|
        invariant remaining >= 0 && Total() == old(Total())
        invariant target == Written() + FieldsTo(canon[i..], i == 0, "}" + rest)
      {
        assert sorted[i] in fields;
        ghost var after := FieldsTo(canon[i + 1..], false, "}" + rest);
        assert canon[i..][1..] == canon[i + 1..];
        ghost var value := PrintTo(canon[i].value, after);
        if i > 0 {
          ok := Append(",", target, QuoteTo(sorted[i].key, ":" + value));
          if !ok {
            return;
          }
        }
        ok := AppendJsonString(sorted[i].key, target, ":" + value);
        if !ok {
          return;
        }
        ok := Append(":", target, value);
        if !ok {
          return;
        }
        ok := Encode(sorted[i].value, target, after);
        if !ok {
          return;
        }
      }
      assert canon[|sorted|..] == [];
      ok := Append("}", target, rest);
    }
  }

  /** Bounded printing refines unbounded printing: the same text exactly when it fits. */
  method StableStringify(v: Value, maxBytes: nat) returns (r: Result<string, string>)
    requires WellFormed(v)
    ensures r == if ByteLength(StableText(v)) <= maxBytes then Ok(StableText(v)) else Err("exceeds limit")
  {
    var encoder := new Encoder(maxBytes);
    var ok := encoder.Encode(v, StableText(v), "");
    if !ok {
      return Err("exceeds limit");
    }
    var text := "";
    for i := 0 to |encoder.parts|
      invariant text == Join(encoder.parts[..i])
    {
      assert encoder.parts[..i + 1][..i] == encoder.parts[..i];
      text := text + encoder.parts[i];
    }
    assert encoder.parts[..|encoder.parts|] == encoder.parts;
    assert text + "" == text;
    return Ok(text);
  }

  // ----- journals -----

  /** The lines of a journal joined by line feeds. */
  function JournalText(events: seq<Value>): string {
    if events == [] then ""
    else if |events| == 1 then StableText(events[0])
    else JournalText(events[..|events| - 1]) + "\n" + StableText(events[|events| - 1])
  }

  /** One more line costs its bytes, and one for the line feed unless it is the first. */
  lemma JournalStep(events: seq<Value>, i: nat)
    requires i < |events|
    ensures JournalText(events[..i + 1]) ==
      if i == 0 then StableText(events[i]) else JournalText(events[..i]) + "\n" + StableText(events[i])
    ensures ByteLength(JournalText(events[..i + 1])) ==
      ByteLength(JournalText(events[..i])) + (if i == 0 then 0 else 1) + ByteLength(StableText(events[i]))
  {
    assert events[..i + 1][..i] == events[..i];
    ByteLengthAppend(JournalText(events[..i]) + "\n", StableText(events[i]));
    ByteLengthAppend(JournalText(events[..i]), "\n");
    assert ByteLength("\n") == 1;
  }

  lemma {:induction false} JournalGrows(events: seq<Value>, k: nat)
    requires k <= |events|
    ensures ByteLength(JournalText(events[..k])) <= ByteLength(JournalText(events))
    decreases |events| - k
  {
    if k < |events| {
      JournalStep(events, k);
      JournalGrows(events, k + 1);
    } else {
      assert events[..k] == events;
    }
  }

  /** What one more line costs, and that the cost is part of the whole journal's. */
  lemma JournalCost(events: seq<Value>, i: nat)
    requires i < |events|
    ensures ByteLength(JournalText(events[..i + 1])) ==
      ByteLength(JournalText(events[..i])) + (if i == 0 then 0 else 1) + ByteLength(StableText(events[i]))
    ensures ByteLength(JournalText(events[..i + 1])) <= ByteLength(JournalText(events))
  {
    JournalStep(events, i);
    JournalGrows(events, i + 1);
  }

  /** A journal serialises exactly when its whole text fits the budget, though the budget is spent line by line. */
  method SerializeJournal(events: seq<Value>, maxBytes: nat) returns (r: Result<string, string>)
    requires forall i :: 0 <= i < |events| ==> WellFormed(events[i])
    ensures r == if ByteLength(JournalText(events)) <= maxBytes then Ok(JournalText(events)) else Err("exceeds limit")
  {
    var lines: seq<string> := [];
    var remaining: nat := maxBytes;
    for i := 0 to |events|
      invariant Spent(events, lines, i, remaining, maxBytes)
    {
      var ok;
      ok, lines, remaining := SerializeNext(events, lines, i, remaining, maxBytes);
      if !ok {
        return Err("exceeds limit");
      }
    }
    assert events[..|events|] == events;
    var text := JoinLines(events, lines);
    return Ok(text);
  }

  /** The first `i` lines are there, and the budget has paid for exactly their text. */
  ghost predicate Spent(events: seq<Value>, lines: seq<string>, i: nat, remaining: nat, maxBytes: nat)
    requires i <= |events|
  {
    && |lines| == i && (forall k :: 0 <= k < i ==> lines[k] == StableText(events[k]))
    && remaining + ByteLength(JournalText(events[..i])) == maxBytes
  }

  method SerializeNext(events: seq<Value>, lines: seq<string>, i: nat, remaining: nat, ghost maxBytes: nat)
      returns (ok: bool, more: seq<string>, left: nat)
    requires i < |events| && WellFormed(events[i]) && Spent(events, lines, i, remaining, maxBytes)
    ensures ok ==> Spent(events, more, i + 1, left, maxBytes)
    ensures !ok ==> ByteLength(JournalText(events)) > maxBytes
  {
    JournalCost(events, i);
    var line := SerializeEvent(events[i], i == 0, remaining);
    if line.Err? {
      return false, lines, remaining;
    }
    left := remaining - (if i == 0 then 0 else 1) - ByteLength(line.value);
    SpentNext(events, lines, i, remaining, left, maxBytes);
    return true, lines + [line.value], left;
  }

  lemma SpentNext(events: seq<Value>, lines: seq<string>, i: nat, remaining: nat, left: nat, maxBytes: nat)
    requires i < |events| && Spent(events, lines, i, remaining, maxBytes)
    requires left == remaining - (if i == 0 then 0 else 1) - ByteLength(StableText(events[i]))
    ensures Spent(events, lines + [StableText(events[i])], i + 1, left, maxBytes)
  {
    JournalCost(events, i);
  }

  /** One line under what is left of the budget; every line but the first pays for its line feed. */
  method SerializeEvent(event: Value, first: bool, remaining: nat) returns (r: Result<string, string>)
    requires WellFormed(event)
    ensures r == if (if first then 0 else 1) + ByteLength(StableText(event)) <= remaining then Ok(StableText(event)) else Err("exceeds limit")
  {
    var left := remaining;
    if !first {
      if remaining < 1 {
        return Err("exceeds limit");
      }
      left := remaining - 1;
    }
    r := StableStringify(event, left);
  }

  method JoinLines(ghost events: seq<Value>, lines: seq<string>) returns (text: string)
    requires |lines| == |events| && forall k :: 0 <= k < |lines| ==> lines[k] == StableText(events[k])
    ensures text == JournalText(events)
  {
    text := "";
    for i := 0 to |lines|
      invariant text == JournalText(events[..i])
    {
      JournalStep(events, i);
      text := if i == 0 then lines[i] else text + "\n" + lines[i];
    }
    assert events[..|events|] == events;
  }
}
