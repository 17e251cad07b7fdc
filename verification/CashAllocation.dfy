/**
 * The bounded subset-sum solver of the simulator: each denomination's stock is
 * split into power-of-two bundles, a descending dynamic program marks the
 * reachable amounts, and the allocation is read back along back-pointers.
 */
module CashAllocation {
  import opened Prelude

  const MAX_TRANSACTION_AMOUNT := 100_000
  const MAX_CASH_UNIT_COUNT := 10_000

  type Denomination = d: int | d > 0 witness 1

  /** How many notes of each denomination. */
  type Counts = map<Denomination, nat>

  /** The money a set of notes is worth. */
  ghost function Worth(c: Counts): nat {
    if c == map[] then 0 else
      var d: Denomination :| d in c;
      d * c[d] + Worth(c - {d})
  }

  lemma {:induction false} WorthPick(c: Counts, d: Denomination)
    requires d in c
    ensures Worth(c) == d * c[d] + Worth(c - {d})
    decreases |c|
  {
    var e: Denomination :| e in c && Worth(c) == e * c[e] + Worth(c - {e});
    if e != d {
      WorthPick(c - {e}, d);
      WorthPick(c - {d}, e);
      assert c - {e} - {d} == c - {d} - {e};
    }
  }

  function CountOf(c: Counts, d: Denomination): nat {
    if d in c then c[d] else 0
  }

  /** Changing one count changes the worth by exactly that many notes. */
  lemma WorthUpdate(c: Counts, d: Denomination, n: nat)
    ensures Worth(c[d := n]) == Worth(c) - d * CountOf(c, d) + d * n
  {
    WorthPick(c[d := n], d);
    if d in c {
      WorthPick(c, d);
      assert c[d := n] - {d} == c - {d};
    } else {
      assert c[d := n] - {d} == c;
    }
  }

  /** The notes available: an absent inventory, or an absent entry, means the unit maximum. */
  function Stock(inventory: Option<Counts>, d: Denomination): nat {
    if inventory.Some? && d in inventory.value then inventory.value[d] else MAX_CASH_UNIT_COUNT
  }

  predicate Distinct(denominations: seq<Denomination>) {
    forall i, j :: 0 <= i < j < |denominations| ==> denominations[i] != denominations[j]
  }

  predicate Within(c: Counts, denominations: seq<Denomination>, inventory: Option<Counts>) {
    forall d :: d in c ==> d in denominations && c[d] <= Stock(inventory, d)
  }

  /** Some choice of notes within stock is worth exactly `amount`. */
  ghost predicate Payable(amount: int, denominations: seq<Denomination>, inventory: Option<Counts>) {
    exists c: Counts :: Within(c, denominations, inventory) && Worth(c) == amount
  }

  // ----- bundles -----

  datatype Bundle = Bundle(denomination: Denomination, count: nat, value: nat)

  ghost predicate NonEmpty(b: seq<Bundle>) {
    forall i :: 0 <= i < |b| ==> b[i].count > 0 && b[i].value == b[i].denomination * b[i].count
  }

  /** The splitting loop for one denomination: bundles of 1, 2, 4, ... notes, the last one capped. */
  function Split(bundles: seq<Bundle>, d: Denomination, remaining: nat, size: nat): seq<Bundle>
    requires size > 0
    decreases remaining
  {
    if remaining == 0 then bundles else
      var count := Min(size, remaining);
      Split(bundles + [Bundle(d, count, d * count)], d, remaining - count, size * 2)
  }

  function Cap(amount: nat, d: Denomination, inventory: Option<Counts>): nat {
    Min(amount / d, Stock(inventory, d))
  }

  function Bundles(amount: nat, denominations: seq<Denomination>, inventory: Option<Counts>): seq<Bundle> {
    if denominations == [] then [] else
      var last := |denominations| - 1;
      var d := denominations[last];
      Split(Bundles(amount, denominations[..last], inventory), d, Cap(amount, d, inventory), 1)
  }

  /** `a` is a sum of distinct bundles among the first `n`. */
  predicate Reach(b: seq<Bundle>, n: nat, a: int)
    requires n <= |b|
  {
    a == 0 || (a > 0 && n > 0 && (Reach(b, n - 1, a) || Reach(b, n - 1, a - b[n - 1].value)))
  }

  /** The bundle whose round first makes `a` reachable. */
  function FirstBundle(b: seq<Bundle>, n: nat, a: int): (k: nat)
    requires n <= |b| && a > 0 && Reach(b, n, a)
    ensures k < n && Reach(b, k, a - b[k].value) && !Reach(b, k, a)
  {
    if Reach(b, n - 1, a) then FirstBundle(b, n - 1, a) else n - 1
  }

  lemma {:induction false} ReachMore(b: seq<Bundle>, m: nat, n: nat, a: int)
    requires m <= n <= |b| && Reach(b, m, a)
    ensures Reach(b, n, a)
    ensures a > 0 ==> FirstBundle(b, n, a) == FirstBundle(b, m, a)
    decreases n
  {
    if m < n { ReachMore(b, m, n - 1, a); }
  }

  lemma {:induction false} ReachAppend(b: seq<Bundle>, c: seq<Bundle>, n: nat, a: int)
    requires n <= |b|
    ensures Reach(b + c, n, a) == Reach(b, n, a)
    decreases n
  {
    if a > 0 && n > 0 {
      ReachAppend(b, c, n - 1, a);
      ReachAppend(b, c, n - 1, a - b[n - 1].value);
    }
  }

  // ----- completeness: power-of-two bundles cover every count -----

  ghost predicate Covers(b: seq<Bundle>, d: Denomination, size: nat, base: nat) {
    forall c: nat :: c < size ==> Reach(b, |b|, base + d * c)
  }

  /** One more bundle, no larger than what is covered, doubles the covered range. */
  lemma AddCovers(b: seq<Bundle>, d: Denomination, size: nat, count: nat, base: nat)
    requires Covers(b, d, size, base) && count <= size
    ensures Covers(b + [Bundle(d, count, d * count)], d, size + count, base)
  {
    var b' := b + [Bundle(d, count, d * count)];
    forall c: nat | c < size + count ensures Reach(b', |b'|, base + d * c) {
      var step := if c < size then c else c - count;
      ReachAppend(b, b'[|b|..], |b|, base + d * step);
      assert b + b'[|b|..] == b';
      if c < size {
        ReachMore(b', |b|, |b'|, base + d * c);
      } else {
        Distribute(d, step, count);
      }
    }
  }

  lemma Distribute(d: int, m: int, n: int)
    ensures d * (m + n) == d * m + d * n
  {}

  /** Splitting a stock of `remaining` when counts below `size` are already covered covers all counts. */
  lemma {:induction false} SplitCovers(b: seq<Bundle>, d: Denomination, remaining: nat, size: nat, base: nat)
    requires size > 0 && Covers(b, d, size, base)
    ensures Covers(Split(b, d, remaining, size), d, size + remaining, base)
    decreases remaining
  {
    if remaining > 0 {
      var count := Min(size, remaining);
      AddCovers(b, d, size, count, base);
      if count == size {
        assert size * 2 == size + count;
        SplitCovers(b + [Bundle(d, count, d * count)], d, remaining - count, size * 2, base);
      }
    }
  }

  lemma SplitReaches(front: seq<Bundle>, d: Denomination, cap: nat, base: nat, n: nat)
    requires Reach(front, |front|, base) && n <= cap
    ensures var s := Split(front, d, cap, 1); Reach(s, |s|, base + d * n)
  {
    assert Covers(front, d, 1, base) by {
      forall c: nat | c < 1 ensures Reach(front, |front|, base + d * c) {
        assert d * c == 0;
      }
    }
    SplitCovers(front, d, cap, 1, base);
  }

  function Restrict(c: Counts, denominations: seq<Denomination>): Counts {
    map d | d in c && d in denominations :: c[d]
  }

  lemma RestrictSplit(c: Counts, denominations: seq<Denomination>, d: Denomination)
    requires d !in denominations
    ensures Restrict(c, denominations + [d]) ==
      if d in c then Restrict(c, denominations)[d := c[d]] else Restrict(c, denominations)
    ensures d !in Restrict(c, denominations)
  {}

  lemma RestrictWorth(c: Counts, denominations: seq<Denomination>, d: Denomination)
    requires d !in denominations
    ensures Worth(Restrict(c, denominations + [d])) == Worth(Restrict(c, denominations)) + d * CountOf(c, d)
  {
    RestrictSplit(c, denominations, d);
    if d in c {
      WorthUpdate(Restrict(c, denominations), d, c[d]);
    }
  }

  /** One more denomination keeps the restricted worth reachable. */
  lemma WorthReachableStep(c: Counts, amount: nat, front: seq<Denomination>, d: Denomination, inventory: Option<Counts>)
    requires d !in front && CountOf(c, d) <= Cap(amount, d, inventory)
    requires var b := Bundles(amount, front, inventory); Reach(b, |b|, Worth(Restrict(c, front)))
    ensures var b := Bundles(amount, front + [d], inventory); Reach(b, |b|, Worth(Restrict(c, front + [d])))
  {
    assert (front + [d])[..|front|] == front;
    SplitReaches(Bundles(amount, front, inventory), d, Cap(amount, d, inventory), Worth(Restrict(c, front)), CountOf(c, d));
    RestrictWorth(c, front, d);
  }

  lemma {:induction false} WorthReachable(c: Counts, amount: nat, denominations: seq<Denomination>, inventory: Option<Counts>)
    requires Distinct(denominations)
    requires forall d :: d in c ==> c[d] <= Cap(amount, d, inventory)
    ensures var b := Bundles(amount, denominations, inventory);
      Reach(b, |b|, Worth(Restrict(c, denominations)))
    decreases |denominations|
  {
    if denominations == [] {
      assert Restrict(c, denominations) == map[];
    } else {
      var last := |denominations| - 1;
      WorthReachable(c, amount, denominations[..last], inventory);
      WorthReachableStep(c, amount, denominations[..last], denominations[last], inventory);
      assert denominations == denominations[..last] + [denominations[last]];
    }
  }

  /** Whatever stock can pay, the bundles can pay. */
  lemma PayableReachable(amount: nat, denominations: seq<Denomination>, inventory: Option<Counts>)
    requires Distinct(denominations) && Payable(amount, denominations, inventory)
    ensures var b := Bundles(amount, denominations, inventory); Reach(b, |b|, amount)
  {
    var c :| Within(c, denominations, inventory) && Worth(c) == amount;
    assert Restrict(c, denominations) == c;
    forall d | d in c ensures c[d] <= Cap(amount, d, inventory) {
      WorthPick(c, d);
      assert d * c[d] <= amount;
      DivideBound(d, c[d], amount);
    }
    WorthReachable(c, amount, denominations, inventory);
  }

  lemma DivideBound(d: Denomination, n: nat, amount: nat)
    ensures d * n <= amount ==> n <= amount / d
  {
    if n > amount / d {
      assert d * n >= d * (amount / d + 1);
    }
  }

  // ----- soundness: the back-walk uses each bundle at most once -----

  function NotesIn(b: seq<Bundle>, n: nat, d: Denomination): nat
    requires n <= |b|
  {
    if n == 0 then 0 else
      NotesIn(b, n - 1, d) + (if b[n - 1].denomination == d then b[n - 1].count else 0)
  }

  lemma {:induction false} NotesInAppend(b: seq<Bundle>, c: seq<Bundle>, n: nat, d: Denomination)
    requires n <= |b|
    ensures NotesIn(b + c, n, d) == NotesIn(b, n, d)
  {
    if n > 0 { NotesInAppend(b, c, n - 1, d); }
  }

  /** Splitting neither loses nor invents notes, and every bundle is non-empty. */
  lemma {:induction false} SplitNotes(b: seq<Bundle>, d: Denomination, remaining: nat, size: nat, e: Denomination)
    requires size > 0
    requires NonEmpty(b)
    ensures var s := Split(b, d, remaining, size);
      && NotesIn(s, |s|, e) == NotesIn(b, |b|, e) + (if e == d then remaining else 0)
      && NonEmpty(s)
    decreases remaining
  {
    if remaining > 0 {
      var count := Min(size, remaining);
      var b' := b + [Bundle(d, count, d * count)];
      NotesInAppend(b, [Bundle(d, count, d * count)], |b|, e);
      SplitNotes(b', d, remaining - count, size * 2, e);
    }
  }

  lemma {:induction false} BundleNotes(amount: nat, denominations: seq<Denomination>, inventory: Option<Counts>, d: Denomination)
    requires Distinct(denominations)
    ensures var b := Bundles(amount, denominations, inventory);
      && NotesIn(b, |b|, d) == (if d in denominations then Cap(amount, d, inventory) else 0)
      && NonEmpty(b)
    decreases |denominations|
  {
    if denominations != [] {
      var last := |denominations| - 1;
      BundleNotes(amount, denominations[..last], inventory, d);
      SplitNotes(Bundles(amount, denominations[..last], inventory), denominations[last],
        Cap(amount, denominations[last], inventory), 1, d);
      assert denominations == denominations[..last] + [denominations[last]];
    }
  }

  function AddBundle(acc: Counts, bundle: Bundle): Counts {
    acc[bundle.denomination := CountOf(acc, bundle.denomination) + bundle.count]
  }

  /** Reading the allocation back from the marks. */
  function Walk(b: seq<Bundle>, a: nat, acc: Counts): Counts
    requires NonEmpty(b) && Reach(b, |b|, a)
    decreases a
  {
    if a == 0 then acc else
      var k := FirstBundle(b, |b|, a);
      ReachMore(b, k, |b|, a - b[k].value);
      assert b[k].value > 0 by { PositiveValue(b[k]); }
      Walk(b, a - b[k].value, AddBundle(acc, b[k]))
  }

  lemma PositiveValue(bundle: Bundle)
    requires bundle.count > 0 && bundle.value == bundle.denomination * bundle.count
    ensures bundle.value > 0
  {}

  /** What the walk from `acc` must deliver, using only the first `n` bundles. */
  ghost predicate WalkResult(r: Counts, b: seq<Bundle>, n: nat, a: nat, acc: Counts)
    requires n <= |b|
  {
    && Worth(r) == Worth(acc) + a
    && (forall d :: d in r ==> r[d] <= CountOf(acc, d) + NotesIn(b, n, d))
    && (forall d :: d in r ==> r[d] > 0 || d in acc)
    && (forall d :: d in acc ==> d in r && r[d] >= acc[d])
  }

  lemma WalkStep(b: seq<Bundle>, k: nat, n: nat, a: nat, acc: Counts, r: Counts)
    requires k < n <= |b| && NonEmpty(b) && b[k].value <= a
    requires WalkResult(r, b, k, a - b[k].value, AddBundle(acc, b[k]))
    ensures WalkResult(r, b, n, a, acc)
  {
    var d' := b[k].denomination;
    WorthUpdate(acc, d', CountOf(acc, d') + b[k].count);
    Distribute(d', CountOf(acc, d'), b[k].count);
    forall d | d in r ensures r[d] <= CountOf(acc, d) + NotesIn(b, n, d) {
      NotesMonotone(b, k + 1, n, d);
    }
  }

  /** Along the walk the bundle index falls strictly, so no count exceeds the bundled notes. */
  lemma {:induction false} WalkSound(b: seq<Bundle>, n: nat, a: nat, acc: Counts)
    requires NonEmpty(b) && n <= |b| && Reach(b, n, a) && Reach(b, |b|, a)
    ensures WalkResult(Walk(b, a, acc), b, n, a, acc)
    decreases a
  {
    if a > 0 {
      var k := FirstBundle(b, |b|, a);
      ReachMore(b, n, |b|, a);
      ReachMore(b, k, |b|, a - b[k].value);
      PositiveValue(b[k]);
      WalkSound(b, k, a - b[k].value, AddBundle(acc, b[k]));
      WalkStep(b, k, n, a, acc, Walk(b, a, acc));
    }
  }

  lemma {:induction false} NotesMonotone(b: seq<Bundle>, m: nat, n: nat, d: Denomination)
    requires m <= n <= |b|
    ensures NotesIn(b, m, d) <= NotesIn(b, n, d)
    decreases n
  {
    if m < n { NotesMonotone(b, m, n - 1, d); }
  }

  /** The value `allocateCash` computes, as a function of its inputs. */
  function AllocationOf(amount: int, denominations: seq<Denomination>, inventory: Option<Counts>): Option<Counts>
    requires Distinct(denominations)
  {
    if amount <= 0 || amount > MAX_TRANSACTION_AMOUNT then None else
      var b := Bundles(amount, denominations, inventory);
      BundleNotes(amount, denominations, inventory, 1);
      if Reach(b, |b|, amount) then Some(Walk(b, amount, map[])) else None
  }

  /** Exactness: an allocation comes back iff the stock can pay the amount, and it pays exactly that. */
  lemma AllocationExact(amount: int, denominations: seq<Denomination>, inventory: Option<Counts>)
    requires forall i, j :: 0 <= i < j < |denominations| ==> denominations[i] != denominations[j]
    ensures var r := AllocationOf(amount, denominations, inventory);
      && (r.Some? <==> 1 <= amount <= MAX_TRANSACTION_AMOUNT && Payable(amount, denominations, inventory))
      && (r.Some? ==>
          && Worth(r.value) == amount
          && Within(r.value, denominations, inventory)
          && forall d :: d in r.value ==> r.value[d] > 0)
  {
    if 1 <= amount <= MAX_TRANSACTION_AMOUNT {
      var b := Bundles(amount, denominations, inventory);
      BundleNotes(amount, denominations, inventory, 1);
      if Reach(b, |b|, amount) {
        WalkSound(b, |b|, amount, map[]);
        var c := Walk(b, amount, map[]);
        forall d | d in c ensures d in denominations && c[d] <= Stock(inventory, d) {
          BundleNotes(amount, denominations, inventory, d);
        }
        assert Within(c, denominations, inventory);
      } else if Payable(amount, denominations, inventory) {
        PayableReachable(amount, denominations, inventory);
      }
    }
  }

  // ----- which notes are paid -----

  lemma {:induction false} SplitExtends(b: seq<Bundle>, d: Denomination, remaining: nat, size: nat)
    requires size > 0
    ensures b <= Split(b, d, remaining, size)
    decreases remaining
  {
    if remaining > 0 {
      var count := Min(size, remaining);
      SplitExtends(b + [Bundle(d, count, d * count)], d, remaining - count, size * 2);
    }
  }

  lemma {:induction false} BundlesExtend(amount: nat, denominations: seq<Denomination>, k: nat, inventory: Option<Counts>)
    requires k <= |denominations|
    ensures Bundles(amount, denominations[..k], inventory) <= Bundles(amount, denominations, inventory)
    decreases |denominations|
  {
    var last := |denominations| - 1;
    if k <= last {
      BundlesExtend(amount, denominations[..last], k, inventory);
      assert denominations[..last][..k] == denominations[..k];
      SplitExtends(Bundles(amount, denominations[..last], inventory), denominations[last],
        Cap(amount, denominations[last], inventory), 1);
    } else {
      assert denominations[..k] == denominations;
    }
  }

  lemma {:induction false} FirstAppend(b: seq<Bundle>, c: seq<Bundle>, n: nat, a: int)
    requires n <= |b| && a > 0 && Reach(b, n, a)
    ensures Reach(b + c, n, a) && FirstBundle(b + c, n, a) == FirstBundle(b, n, a)
    decreases n
  {
    ReachAppend(b, c, n, a);
    ReachAppend(b, c, n - 1, a);
    if Reach(b, n - 1, a) { FirstAppend(b, c, n - 1, a); }
  }

  /** Further bundles do not change a walk that does without them. */
  lemma {:induction false} WalkAppend(b: seq<Bundle>, c: seq<Bundle>, a: nat, acc: Counts)
    requires NonEmpty(b) && NonEmpty(b + c) && Reach(b, |b|, a)
    ensures Reach(b + c, |b + c|, a) && Walk(b + c, a, acc) == Walk(b, a, acc)
    decreases a
  {
    ReachAppend(b, c, |b|, a);
    ReachMore(b + c, |b|, |b + c|, a);
    if a > 0 {
      var k := FirstBundle(b, |b|, a);
      FirstAppend(b, c, |b|, a);
      ReachMore(b, k, |b|, a - b[k].value);
      PositiveValue(b[k]);
      WalkAppend(b, c, a - b[k].value, AddBundle(acc, b[k]));
    }
  }

  /**
   * Denominations listed first are preferred: what some leading ones can pay is paid
   * exactly as if there were no others.
   */
  lemma LeadingPreferred(amount: int, denominations: seq<Denomination>, k: nat, inventory: Option<Counts>)
    requires Distinct(denominations) && k <= |denominations|
    requires Payable(amount, denominations[..k], inventory)
    ensures AllocationOf(amount, denominations, inventory) == AllocationOf(amount, denominations[..k], inventory)
    ensures var r := AllocationOf(amount, denominations, inventory); r.Some? ==> forall d :: d in r.value ==> d in denominations[..k]
  {
    AllocationExact(amount, denominations[..k], inventory);
    if 1 <= amount <= MAX_TRANSACTION_AMOUNT {
      var b, whole := Bundles(amount, denominations[..k], inventory), Bundles(amount, denominations, inventory);
      BundleNotes(amount, denominations[..k], inventory, 1);
      BundleNotes(amount, denominations, inventory, 1);
      BundlesExtend(amount, denominations, k, inventory);
      PayableReachable(amount, denominations[..k], inventory);
      WalkLonger(b, whole, amount);
    }
  }

  lemma WalkLonger(b: seq<Bundle>, whole: seq<Bundle>, amount: nat)
    requires b <= whole && NonEmpty(b) && NonEmpty(whole) && Reach(b, |b|, amount)
    ensures Reach(whole, |whole|, amount) && Walk(whole, amount, map[]) == Walk(b, amount, map[])
  {
    assert whole == b + whole[|b|..];
    WalkAppend(b, whole[|b|..], amount, map[]);
  }

  // ----- the imperative solver -----

  method SplitStock(amount: nat, denominations: seq<Denomination>, inventory: Option<Counts>)
    returns (bundles: seq<Bundle>)
    ensures bundles == Bundles(amount, denominations, inventory)
  {
    bundles := [];
    for i := 0 to |denominations|
      invariant bundles == Bundles(amount, denominations[..i], inventory)
    {
      var d := denominations[i];
      assert denominations[..i + 1][..i] == denominations[..i];
      var remaining := Cap(amount, d, inventory);
      var size := 1;
      while remaining > 0
        invariant size > 0 && remaining >= 0
        invariant Split(bundles, d, remaining, size) == Bundles(amount, denominations[..i + 1], inventory)
      {
        var count := Min(size, remaining);
        bundles := bundles + [Bundle(d, count, d * count)];
        remaining := remaining - count;
        size := size * 2;
      }
    }
    assert denominations[..|denominations|] == denominations;
  }

  /** What the two arrays hold for amount `x` after `n` bundles: -1, or the first bundle and the step back. */
  ghost predicate Mark(previous: int, selected: int, b: seq<Bundle>, n: nat, x: nat)
    requires n <= |b|
  {
    if x == 0 then previous == 0
    else if Reach(b, n, x) then
      selected == FirstBundle(b, n, x) && previous == x - b[selected].value
    else previous == -1
  }

  ghost predicate Marked(previous: seq<int>, selected: seq<int>, b: seq<Bundle>, n: nat)
    requires n <= |b| && |selected| == |previous|
  {
    forall x :: 0 <= x < |previous| ==> Mark(previous[x], selected[x], b, n, x)
  }

  /** The sentinel -1 means unreachable, and nothing else. */
  lemma MarkReads(p: int, s: int, b: seq<Bundle>, n: nat, x: nat)
    requires n <= |b| && Mark(p, s, b, n, x)
    ensures p == -1 <==> !Reach(b, n, x)
  {
    if x > 0 && Reach(b, n, x) {
      assert Reach(b, FirstBundle(b, n, x), x - b[FirstBundle(b, n, x)].value);
    }
  }

  lemma MarkStep(p: int, s: int, p': int, s': int, b: seq<Bundle>, n: nat, x: nat)
    requires n < |b| && 0 < b[n].value <= x
    requires Mark(p, s, b, n, x) && Mark(p', s', b, n, x - b[n].value)
    ensures if p == -1 && p' != -1 then Mark(x - b[n].value, n, b, n + 1, x) else Mark(p, s, b, n + 1, x)
  {
    MarkReads(p, s, b, n, x);
    MarkReads(p', s', b, n, x - b[n].value);
  }

  lemma MarkSkip(p: int, s: int, b: seq<Bundle>, n: nat, x: nat)
    requires n < |b| && x < b[n].value && Mark(p, s, b, n, x)
    ensures Mark(p, s, b, n + 1, x)
  {}

  /** One round: amounts are visited downwards, so a bundle cannot feed on its own marks. */
  method MarkBundle(previousAmount: array<int>, selectedBundle: array<int>, b: seq<Bundle>, n: nat)
    requires n < |b| && NonEmpty(b)
    requires previousAmount != selectedBundle && 0 < previousAmount.Length == selectedBundle.Length
    requires Marked(previousAmount[..], selectedBundle[..], b, n)
    modifies previousAmount, selectedBundle
    ensures Marked(previousAmount[..], selectedBundle[..], b, n + 1)
  {
    var value := b[n].value;
    PositiveValue(b[n]);
    var current := previousAmount.Length - 1;
    while current >= value
      invariant current < previousAmount.Length
      invariant value - 1 <= current || current == previousAmount.Length - 1
      invariant forall x :: 0 <= x <= current ==> Mark(previousAmount[x], selectedBundle[x], b, n, x)
      invariant forall x :: current < x < previousAmount.Length ==> Mark(previousAmount[x], selectedBundle[x], b, n + 1, x)
    {
      MarkStep(previousAmount[current], selectedBundle[current],
        previousAmount[current - value], selectedBundle[current - value], b, n, current);
      if previousAmount[current] == -1 && previousAmount[current - value] != -1 {
        previousAmount[current] := current - value;
        selectedBundle[current] := n;
      }
      current := current - 1;
    }
    forall x | 0 <= x <= current ensures Mark(previousAmount[x], selectedBundle[x], b, n + 1, x) {
      MarkSkip(previousAmount[x], selectedBundle[x], b, n, x);
    }
  }

  /** Reading the allocation back along the marks. */
  method ReadBack(previousAmount: array<int>, selectedBundle: array<int>, b: seq<Bundle>)
    returns (taken: Counts)
    requires NonEmpty(b) && 0 < previousAmount.Length == selectedBundle.Length
    requires Marked(previousAmount[..], selectedBundle[..], b, |b|)
    requires Reach(b, |b|, previousAmount.Length - 1)
    ensures taken == Walk(b, previousAmount.Length - 1, map[])
  {
    taken := map[];
    var current := previousAmount.Length - 1;
    while current > 0
      invariant 0 <= current < previousAmount.Length && Reach(b, |b|, current)
      invariant Walk(b, current, taken) == Walk(b, previousAmount.Length - 1, map[])
    {
      assert Mark(previousAmount[current], selectedBundle[current], b, |b|, current);
      var bundle := b[selectedBundle[current]];
      PositiveValue(bundle);
      ReachMore(b, selectedBundle[current], |b|, current - bundle.value);
      taken := AddBundle(taken, bundle);
      current := previousAmount[current];
    }
  }

  method AllocateCash(amount: int, denominations: seq<Denomination>, inventory: Option<Counts>)
    returns (allocation: Option<Counts>)
    requires Distinct(denominations)
    ensures allocation == AllocationOf(amount, denominations, inventory)
    ensures allocation.Some? <==> 1 <= amount <= MAX_TRANSACTION_AMOUNT && Payable(amount, denominations, inventory)
    ensures allocation.Some? ==> Within(allocation.value, denominations, inventory) && Worth(allocation.value) == amount
  {
    AllocationExact(amount, denominations, inventory);
    if amount <= 0 || amount > MAX_TRANSACTION_AMOUNT {
      return None;
    }
    var b := SplitStock(amount, denominations, inventory);
    BundleNotes(amount, denominations, inventory, 1);
    var previousAmount := new int[amount + 1](_ => -1);
    var selectedBundle := new int[amount + 1](_ => -1);
    previousAmount[0] := 0;
    for n := 0 to |b|
      invariant Marked(previousAmount[..], selectedBundle[..], b, n)
    {
      MarkBundle(previousAmount, selectedBundle, b, n);
    }
    assert Mark(previousAmount[amount], selectedBundle[amount], b, |b|, amount);
    if previousAmount[amount] == -1 {
      return None;
    }
    var taken := ReadBack(previousAmount, selectedBundle, b);
    return Some(taken);
  }
}
