/**
 * Where malloc puts an object (RandomHeap::getObject in
 * src/include/randomheap.h and RandomMiniHeapCore::malloc in
 * src/include/randomminiheap-core.h).  Two random draws choose a slot: the
 * first a miniheap, the second a slot of it.  Counting the pairs of draws that
 * choose each slot shows that every slot is equally likely.
 */
module Placement {
  import opened PowersOfTwo
  import opened Log2
  import opened Growth

  /** A slot: the miniheap and the index inside it. */
  datatype Slot = Slot(heap: nat, index: nat)

  /** The slot two draws choose while miniheaps 0..k are active. */
  function Lands(p: Params, k: nat, a: nat, b: nat): Slot
    requires p.minObjects > 0
  {
    var i := Index(a, Chunks(k + 1));
    MulPositive(p.minObjects, Pow2(if i == 0 then 0 else i - 1));
    Slot(i, b % MiniHeapSize(p, i))
  }

  predicate IsSlot(p: Params, k: nat, s: Slot) {
    s.heap <= k && s.index < MiniHeapSize(p, s.heap)
  }

  predicate Pair(w: nat, a: nat, b: nat) { a < w && b < w }

  /** All pairs of draws below w. */
  ghost function Draws(w: nat): set<(nat, nat)> {
    set a: nat, b: nat | a < w && b < w && Pair(w, a, b) :: (a, b)
  }

  /** The pairs of draws below w that choose a slot of the given set. */
  ghost function Landing(p: Params, k: nat, w: nat, slots: set<Slot>): set<(nat, nat)>
    requires p.minObjects > 0
  {
    set a: nat, b: nat | a < w && b < w && Lands(p, k, a, b) in slots :: (a, b)
  }

  // ---------------------------------------------------------------------
  // Counting
  // ---------------------------------------------------------------------

  predicate Between(lo: nat, v: nat, hi: nat) { lo <= v < hi }

  ghost function Interval(lo: nat, hi: nat): set<nat> {
    set v: nat | v < hi && Between(lo, v, hi)
  }

  lemma {:induction false} IntervalSize(lo: nat, hi: nat)
    requires lo <= hi
    ensures |Interval(lo, hi)| == hi - lo
  {
    if lo < hi {
      IntervalSize(lo, hi - 1);
      assert Interval(lo, hi) == Interval(lo, hi - 1) + {hi - 1};
    } else {
      assert Interval(lo, hi) == {};
    }
  }

  ghost function Shift(s: set<nat>, d: nat): set<nat> {
    set v | v in s :: v + d
  }

  lemma ShiftMember(s: set<nat>, d: nat, u: nat)
    ensures u in Shift(s, d) <==> u >= d && u - d in s
  {
    if u >= d && u - d in s {
      assert (u - d) + d == u;
    }
  }

  lemma {:induction false} ShiftSize(s: set<nat>, d: nat)
    ensures |Shift(s, d)| == |s|
  {
    if s != {} {
      var x :| x in s;
      ShiftSize(s - {x}, d);
      forall u: nat
        ensures u in Shift(s, d) <==> u in Shift(s - {x}, d) || u == x + d
        ensures x + d !in Shift(s - {x}, d)
      {
        ShiftMember(s, d, u);
        ShiftMember(s - {x}, d, u);
        ShiftMember(s - {x}, d, x + d);
      }
      assert Shift(s, d) == Shift(s - {x}, d) + {x + d};
    }
  }

  /** Numbers below n with a remainder in s. */
  ghost function Residues(n: nat, m: nat, s: set<nat>): set<nat>
    requires m > 0
  {
    set a: nat | a < n && HasResidue(a, m, s)
  }

  predicate HasResidue(a: nat, m: nat, s: set<nat>)
    requires m > 0
  {
    a % m in s
  }

  /** One more period holds one more hit per remainder. */
  lemma NextPeriod(q: nat, m: nat, s: set<nat>, n: nat)
    requires m > 0 && n == q * m && forall v | v in s :: v < m
    ensures Residues(n + m, m, s) == Residues(n, m, s) + Shift(s, n)
    ensures |Residues(n + m, m, s)| == |Residues(n, m, s)| + |s|
  {
    ShiftSize(s, n);
    forall a: nat
      ensures a in Shift(s, n) <==> n <= a < n + m && a % m in s
    {
      ShiftMember(s, n, a);
      if n <= a < n + m {
        DivModUnique(a, m, q, a - n);
      }
    }
  }

  /** q full periods hold q times as many hits as one. */
  lemma {:induction false} PeriodicSize(q: nat, m: nat, s: set<nat>, n: nat)
    requires m > 0 && n == q * m && forall v | v in s :: v < m
    ensures |Residues(n, m, s)| == q * |s|
  {
    if q == 0 {
      assert Residues(n, m, s) == {};
    } else {
      Distribute(q - 1, 1, m);
      Distribute(q - 1, 1, |s|);
      PeriodicSize(q - 1, m, s, n - m);
      NextPeriod(q - 1, m, s, n - m);
    }
  }

  ghost function Product(s: set<nat>, t: set<nat>): set<(nat, nat)> {
    set a, b | a in s && b in t :: (a, b)
  }

  lemma {:induction false} RowSize(x: nat, t: set<nat>)
    ensures |Product({x}, t)| == |t|
  {
    if t != {} {
      var y :| y in t;
      RowSize(x, t - {y});
      assert Product({x}, t) == Product({x}, t - {y}) + {(x, y)};
    }
  }

  lemma {:induction false} ProductSize(s: set<nat>, t: set<nat>)
    ensures |Product(s, t)| == |s| * |t|
  {
    if s == {} {
      assert Product(s, t) == {};
    } else {
      var x :| x in s;
      var rest := s - {x};
      ProductSize(rest, t);
      RowSize(x, t);
      assert Product(s, t) == Product(rest, t) + Product({x}, t);
      assert Product(rest, t) !! Product({x}, t);
      Distribute(|rest|, 1, |t|);
      assert |s| == |rest| + 1;
    }
  }

  lemma PartialMember(q: nat, m: nat, j: nat, top: nat, a: nat)
    requires j < m && top == q * m && a < top + m
    ensures HasResidue(a, m, {j}) && a >= top <==> a == top + j
  {
    if a >= top {
      DivModUnique(a, m, q, a - top);
    }
  }

  /** The last, partial period reaches remainder j or it does not. */
  lemma PartialPeriod(q: nat, m: nat, j: nat, top: nat, rest: nat)
    requires j < m && rest < m && top == q * m
    ensures |Residues(top + rest, m, {j})| == q + if j < rest then 1 else 0
  {
    PeriodicSize(q, m, {j}, top);
    var full := Residues(top, m, {j});
    assert |full| == q;
    var last := if j < rest then {top + j} else {};
    forall a: nat | a < top + rest
      ensures HasResidue(a, m, {j}) <==> a in full || a in last
    {
      PartialMember(q, m, j, top, a);
    }
    PartialMember(q, m, j, top, top + j);
    assert Residues(top + rest, m, {j}) == full + last;
    assert full !! last;
  }

  /** Exact count for one remainder: full periods, plus one if the last partial period reaches it. */
  lemma ResidueSize(n: nat, m: nat, j: nat)
    requires j < m
    ensures |Residues(n, m, {j})| == n / m + if j < n % m then 1 else 0
  {
    var q, rest := n / m, n % m;
    var top := q * m;
    assert n == top + rest;
    PartialPeriod(q, m, j, top, rest);
  }

  // ---------------------------------------------------------------------
  // The two draws
  // ---------------------------------------------------------------------

  /** How many of the masked values select miniheap i. */
  function Width(i: nat): (n: nat)
    ensures n > 0
  {
    if i == 0 then 1 else Pow2(i - 1)
  }

  /** The masked values that select miniheap i. */
  ghost function Selectors(i: nat): set<nat> {
    if i == 0 then {0} else Interval(Pow2(i - 1), Pow2(i))
  }

  lemma SelectorsSize(i: nat, k: nat)
    requires i <= k
    ensures |Selectors(i)| == Width(i)
    ensures forall u | u in Selectors(i) :: u < Pow2(k)
  {
    Pow2Monotone(i, k);
    if i > 0 { IntervalSize(Pow2(i - 1), Pow2(i)); }
  }

  lemma SelectorsSelect(i: nat, v: nat)
    ensures CeilLog2(v + 1) == i <==> v in Selectors(i)
  {
    CeilLog2Correct(v + 1);
    if i > 0 && v in Selectors(i) {
      forall j: nat | j < i ensures Pow2(j) < v + 1 { Pow2Monotone(j, i - 1); }
      CeilLog2Unique(v + 1, CeilLog2(v + 1), i);
    }
  }

  predicate Selects(k: nat, a: nat, i: nat) { Index(a, Chunks(k + 1)) == i }

  /** The first draws that select miniheap i. */
  ghost function HeapDraws(k: nat, w: nat, i: nat): set<nat> {
    set a: nat | a < w && Selects(k, a, i)
  }

  lemma HeapDrawsSize(k: nat, r: nat, w: nat, i: nat)
    requires i <= k && w == r * Pow2(k)
    ensures |HeapDraws(k, w, i)| == r * Width(i)
  {
    var m := Pow2(k);
    SelectorsSize(i, k);
    PeriodicSize(r, m, Selectors(i), w);
    forall a: nat
      ensures Selects(k, a, i) <==> a % m in Selectors(i)
    {
      SelectorsSelect(i, a % m);
    }
    assert HeapDraws(k, w, i) == Residues(w, m, Selectors(i));
  }

  lemma SizeIsScaledWidth(p: Params, i: nat)
    ensures MiniHeapSize(p, i) == p.minObjects * Width(i)
    ensures p.minObjects > 0 ==> MiniHeapSize(p, i) > 0
  {
    if p.minObjects > 0 { MulPositive(p.minObjects, Width(i)); }
  }

  /** The number of pairs that choose one slot. */
  lemma LandingSize(p: Params, k: nat, r: nat, w: nat, s: Slot)
    requires p.minObjects > 0 && IsSlot(p, k, s) && w == r * Pow2(k)
    ensures var n := MiniHeapSize(p, s.heap);
            |Landing(p, k, w, {s})| == (r * Width(s.heap)) * (w / n + if s.index < w % n then 1 else 0)
  {
    var n := MiniHeapSize(p, s.heap);
    HeapDrawsSize(k, r, w, s.heap);
    ResidueSize(w, n, s.index);
    ProductSize(HeapDraws(k, w, s.heap), Residues(w, n, {s.index}));
    assert Landing(p, k, w, {s}) == Product(HeapDraws(k, w, s.heap), Residues(w, n, {s.index})) by {
      LandingIsProduct(p, k, w, s);
    }
  }

  lemma LandingIsProduct(p: Params, k: nat, w: nat, s: Slot)
    requires p.minObjects > 0 && IsSlot(p, k, s)
    ensures Landing(p, k, w, {s}) == Product(HeapDraws(k, w, s.heap), Residues(w, MiniHeapSize(p, s.heap), {s.index}))
  {
  }

  /** All slots of the active miniheaps are chosen by equally many pairs of draws. */
  ghost predicate Uniform(p: Params, k: nat, w: nat)
    requires p.minObjects > 0
  {
    forall s, t | IsSlot(p, k, s) && IsSlot(p, k, t) :: |Landing(p, k, w, {s})| == |Landing(p, k, w, {t})|
  }

  /** The largest active miniheap's size is a multiple of every smaller one. */
  lemma SizesDivide(p: Params, k: nat, i: nat) returns (f: nat)
    requires i <= k
    ensures MiniHeapSize(p, k) == f * MiniHeapSize(p, i)
  {
    var ek, ei := if k == 0 then 0 else k - 1, if i == 0 then 0 else i - 1;
    f := Pow2(ek - ei);
    Pow2Add(ek - ei, ei);
    SizeIsScaledWidth(p, k);
    SizeIsScaledWidth(p, i);
    Swap(p.minObjects, f, Width(i));
  }

  lemma Swap(a: nat, b: nat, c: nat)
    ensures a * (b * c) == b * (a * c)
  {
    assert a * (b * c) == (a * b) * c == (b * a) * c == b * (a * c);
  }

  lemma DivisorOfMultiple(w: nat, n: nat, f: nat, m: nat)
    requires m > 0 && n > 0 && n == f * m && w % n == 0
    ensures w == (w / m) * m && w % m == 0
  {
    var q := w / n;
    assert w == q * n;
    assert q * (f * m) == (q * f) * m;
    DivModUnique(w, m, q * f, 0);
  }

  lemma ExactShare(p: Params, k: nat, r: nat, w: nat, s: Slot, q: nat)
    requires p.minObjects > 0 && IsSlot(p, k, s)
    requires w == r * Pow2(k) && w % MiniHeapSize(p, s.heap) == 0 && q == w / MiniHeapSize(p, s.heap)
    ensures |Landing(p, k, w, {s})| == (r * Width(s.heap)) * q
  {
    LandingSize(p, k, r, w, s);
  }

  /** When the largest active size divides the range of the draws, all slots get the same share. */
  lemma EqualShare(p: Params, k: nat, r: nat, w: nat, s: Slot)
    requires p.minObjects > 0 && IsSlot(p, k, s) && MiniHeapSize(p, k) > 0
    requires w == r * Pow2(k) && w % MiniHeapSize(p, k) == 0
    ensures p.minObjects * |Landing(p, k, w, {s})| == r * w
  {
    var n := MiniHeapSize(p, s.heap);
    SizeIsScaledWidth(p, s.heap);
    var q := w / n;
    assert w == q * n && w % n == 0 by {
      var f := SizesDivide(p, k, s.heap);
      DivisorOfMultiple(w, MiniHeapSize(p, k), f, n);
    }
    ExactShare(p, k, r, w, s, q);
    ShareArithmetic(p.minObjects, r, Width(s.heap), q, n, w);
  }

  lemma ShareArithmetic(m: nat, r: nat, width: nat, q: nat, n: nat, w: nat)
    requires n == m * width && w == q * n
    ensures m * ((r * width) * q) == r * w
  {
    assert (r * width) * q == r * (width * q);
    Swap(m, r, width * q);
    assert m * (width * q) == (m * width) * q == q * n;
  }

  /**
   * Placement is uniform exactly when the number of slots of the largest
   * active miniheap divides the range of the draws.
   */
  lemma PlacementUniform(p: Params, k: nat, r: nat, w: nat)
    requires p.minObjects > 0 && r > 0 && w == r * Pow2(k) && MiniHeapSize(p, k) > 0
    ensures Uniform(p, k, w) <==> w % MiniHeapSize(p, k) == 0
  {
    var n := MiniHeapSize(p, k);
    if w % n == 0 {
      forall s, t | IsSlot(p, k, s) && IsSlot(p, k, t)
        ensures |Landing(p, k, w, {s})| == |Landing(p, k, w, {t})|
      {
        EqualShare(p, k, r, w, s);
        EqualShare(p, k, r, w, t);
        CancelFactor(p.minObjects, |Landing(p, k, w, {s})|, |Landing(p, k, w, {t})|);
      }
    } else {
      NotUniform(p, k, r, w);
    }
  }

  /** Otherwise the first slot of the largest miniheap is hit more often than its last. */
  lemma NotUniform(p: Params, k: nat, r: nat, w: nat)
    requires p.minObjects > 0 && r > 0 && w == r * Pow2(k) && MiniHeapSize(p, k) > 0
    requires w % MiniHeapSize(p, k) != 0
    ensures !Uniform(p, k, w)
  {
    var n := MiniHeapSize(p, k);
    var first, last := Slot(k, 0), Slot(k, n - 1);
    LandingSize(p, k, r, w, first);
    LandingSize(p, k, r, w, last);
    MulPositive(r, Width(k));
    DiffersByOne(r * Width(k), w / n);
    assert IsSlot(p, k, first) && IsSlot(p, k, last);
    assert |Landing(p, k, w, {first})| != |Landing(p, k, w, {last})|;
  }

  lemma DiffersByOne(c: nat, q: nat)
    requires c > 0
    ensures c * (q + 1) != c * (q + 0)
  {
    Distribute(q, 1, c);
  }

  lemma CancelFactor(m: nat, a: nat, b: nat)
    requires m > 0 && m * a == m * b
    ensures a == b
  {
    assert m * a / m == a && m * b / m == b by {
      DivModUnique(m * a, m, a, 0);
      DivModUnique(m * b, m, b, 0);
    }
  }

  /** A power-of-two number of objects makes placement uniform for every ladder within the range of the draws. */
  lemma PowerOfTwoIsUniform(p: Params, k: nat, m: nat, bits: nat)
    requires p.minObjects == Pow2(m) && k + m <= bits
    ensures Uniform(p, k, Pow2(bits))
  {
    SizeIsScaledWidth(p, k);
    var e := if k == 0 then 0 else k - 1;
    Pow2Add(m, e);
    Pow2Add(bits - (m + e), m + e);
    DivModUnique(Pow2(bits), Pow2(m + e), Pow2(bits - (m + e)), 0);
    Pow2Add(bits - k, k);
    PlacementUniform(p, k, Pow2(bits - k), Pow2(bits));
  }

  // ---------------------------------------------------------------------
  // The load bound
  // ---------------------------------------------------------------------

  lemma DrawsSize(w: nat)
    ensures |Draws(w)| == w * w
  {
    IntervalSize(0, w);
    ProductSize(Interval(0, w), Interval(0, w));
    assert Draws(w) == Product(Interval(0, w), Interval(0, w));
  }

  lemma LandingSplit(p: Params, k: nat, w: nat, slots: set<Slot>, s: Slot)
    requires p.minObjects > 0 && s in slots
    ensures |Landing(p, k, w, slots)| == |Landing(p, k, w, slots - {s})| + |Landing(p, k, w, {s})|
  {
    var rest, one := Landing(p, k, w, slots - {s}), Landing(p, k, w, {s});
    assert Landing(p, k, w, slots) == rest + one;
    assert rest !! one;
  }

  /** Pairs landing in a set of slots are the sum of the pairs landing on each. */
  lemma {:induction false} LandingSum(p: Params, k: nat, r: nat, w: nat, slots: set<Slot>)
    requires p.minObjects > 0 && MiniHeapSize(p, k) > 0
    requires forall s | s in slots :: IsSlot(p, k, s)
    requires w == r * Pow2(k) && w % MiniHeapSize(p, k) == 0
    ensures p.minObjects * |Landing(p, k, w, slots)| == |slots| * (r * w)
  {
    if slots == {} {
      assert Landing(p, k, w, slots) == {};
    } else {
      var s :| s in slots;
      LandingSum(p, k, r, w, slots - {s});
      EqualShare(p, k, r, w, s);
      LandingSplit(p, k, w, slots, s);
      Distribute(|Landing(p, k, w, slots - {s})|, |Landing(p, k, w, {s})|, p.minObjects);
      Distribute(|slots - {s}|, 1, r * w);
      assert |slots| == |slots - {s}| + 1;
    }
  }

  /** Every pair of draws lands on a slot of an active miniheap. */
  lemma LandsActive(p: Params, k: nat, a: nat, b: nat)
    requires p.minObjects > 0
    ensures IsSlot(p, k, Lands(p, k, a, b))
  {
    IndexInRange(a, k + 1);
    SizeIsScaledWidth(p, Index(a, Chunks(k + 1)));
  }

  /**
   * Under the load bound, the pairs of draws that collide with an occupied slot
   * are fewer than den/num of all pairs, and some pair finds a free slot.
   */
  lemma CollisionsBounded(p: Params, k: nat, r: nat, w: nat, occupied: set<Slot>)
    requires p.minObjects > 0 && MiniHeapSize(p, k) > 0 && r > 0
    requires 0 < p.den <= p.num
    requires forall s | s in occupied :: IsSlot(p, k, s)
    requires w == r * Pow2(k) && w % MiniHeapSize(p, k) == 0
    requires Enough(p, |occupied|, Capacity(p, k + 1))
    ensures p.num * |Landing(p, k, w, occupied)| < p.den * |Draws(w)|
    ensures exists a: nat, b: nat :: Pair(w, a, b) && Lands(p, k, a, b) !in occupied
  {
    DrawsSize(w);
    LandingSum(p, k, r, w, occupied);
    var hits := |Landing(p, k, w, occupied)|;
    MulPositive(r, Pow2(k));
    MulPositive(r, w);
    BoundArithmetic(p.num, p.den, p.minObjects, |occupied|, r, Pow2(k), w, hits);
    if forall a: nat, b: nat | Pair(w, a, b) :: Lands(p, k, a, b) in occupied {
      assert Landing(p, k, w, occupied) == Draws(w);
      MulMonotone(p.den, p.num, w * w);
    }
  }

  lemma BoundArithmetic(num: nat, den: nat, m: nat, n: nat, r: nat, c: nat, w: nat, hits: nat)
    requires m > 0 && w == r * c && r * w > 0
    requires m * hits == n * (r * w)
    requires num * n < (m * c) * den
    ensures num * hits < den * (w * w)
  {
    var share := r * w;
    MulStrict(num * n, (m * c) * den, share);
    assert (num * n) * share == num * (n * share);
    Swap(num, m, hits);
    assert ((m * c) * den) * share == m * (den * (w * w)) by { Regroup(m, c, den, r, w); }
    if num * hits >= den * (w * w) {
      MulMonotone(den * (w * w), num * hits, m);
    }
  }

  lemma MulStrict(a: nat, b: nat, c: nat)
    requires a < b && c > 0
    ensures a * c < b * c
  {
    MulMonotone(a + 1, b, c);
    Distribute(a, 1, c);
  }

  lemma Regroup(m: nat, c: nat, den: nat, r: nat, w: nat)
    requires w == r * c
    ensures ((m * c) * den) * (r * w) == m * (den * (w * w))
  {
    assert ((m * c) * den) * (r * w) == m * ((c * den) * (r * w));
    assert (c * den) * (r * w) == den * (c * (r * w));
    assert c * (r * w) == (c * r) * w == w * w;
  }
}
