/**
 * Ceiling logarithms (src/include/math/log2.h), half-logarithms
 * (src/include/math/halflog2.h) and the size classes that are computed from
 * them (src/include/diehardheap.h).
 */
module Log2 {
  import opened PowersOfTwo

  /** The meaning every form of log2 is proved against: the least k with 2^k >= v. */
  ghost predicate IsCeilLog2(v: nat, k: nat) {
    && v <= Pow2(k)
    && forall j: nat :: j < k ==> Pow2(j) < v
  }

  lemma CeilLog2Unique(v: nat, a: nat, b: nat)
    requires IsCeilLog2(v, a) && IsCeilLog2(v, b)
    ensures a == b
  {
  }

  /** std::bit_width: the number of bits needed to write n. */
  function BitWidth(n: nat): nat {
    if n == 0 then 0 else 1 + BitWidth(n / 2)
  }

  lemma {:induction false} BitWidthBounds(n: nat)
    ensures n < Pow2(BitWidth(n))
    ensures n > 0 ==> BitWidth(n) > 0 && Pow2(BitWidth(n) - 1) <= n
  {
    if n > 0 {
      BitWidthBounds(n / 2);
    }
  }

  /** The C++20 form. */
  function CeilLog2(sz: nat): nat {
    if sz <= 1 then 0 else BitWidth(sz - 1)
  }

  lemma CeilLog2Correct(sz: nat)
    ensures IsCeilLog2(sz, CeilLog2(sz))
  {
    if sz > 1 {
      BitWidthBounds(sz - 1);
      forall j: nat | j < CeilLog2(sz)
        ensures Pow2(j) < sz
      {
        Pow2Monotone(j, CeilLog2(sz) - 1);
      }
    }
  }

  /** Position of the highest set bit, as the scan instructions return it. */
  function BitScanReverse(n: nat): nat
    requires n > 0
  {
    BitWidth(n) - 1
  }

  /**
   * The bit-scan forms, on words of the given number of bits: shift left by
   * one, subtract one, scan.
   */
  function ScanLog2(sz: nat, bits: nat): (k: nat)
    requires 0 < sz < Pow2(bits)
  {
    var shifted := (2 * sz) % Pow2(bits);
    var word := (shifted - 1) % Pow2(bits);
    if word == 0 then 0 else BitScanReverse(word)
  }

  /** The bit-scan forms agree with the C++20 form exactly while 2 * sz - 1 still fits a word. */
  lemma ScanLog2Correct(sz: nat, bits: nat)
    requires 0 < sz < Pow2(bits)
    ensures ScanLog2(sz, bits) == CeilLog2(sz) <==> 2 * sz <= Pow2(bits)
  {
    var w := Pow2(bits);
    if 2 * sz < w {
      ScanLog2Below(sz, bits);
    } else if 2 * sz == w {
      ScanLog2AtTop(sz, bits);
    } else {
      ScanLog2Above(sz, bits);
    }
  }

  lemma ScanLog2AtTop(sz: nat, bits: nat)
    requires 0 < 2 * sz == Pow2(bits)
    ensures ScanLog2(sz, bits) == CeilLog2(sz)
  {
    var w := Pow2(bits);
    assert bits > 0 && sz == Pow2(bits - 1);
    DivModUnique(2 * sz, w, 1, 0);
    DivModUnique(-1, w, -1, w - 1);
    if bits >= 1 { BitWidthOf(w - 1, bits); }
    assert ScanLog2(sz, bits) == bits - 1;
    CeilLog2Correct(sz);
    forall j: nat | j < bits - 1 ensures Pow2(j) < sz { Pow2Strict(j, bits - 1); }
    CeilLog2Unique(sz, CeilLog2(sz), bits - 1);
  }

  lemma ScanLog2Above(sz: nat, bits: nat)
    requires sz < Pow2(bits) < 2 * sz
    ensures ScanLog2(sz, bits) != CeilLog2(sz)
  {
    var w := Pow2(bits);
    var n := 2 * sz - w - 1;
    DivModUnique(2 * sz, w, 1, 2 * sz - w);
    DivModUnique(n, w, 0, n);
    CeilLog2Correct(sz);
    assert Pow2(CeilLog2(sz)) >= sz;
    if CeilLog2(sz) < bits { Pow2Strict(CeilLog2(sz), bits); assert false; }
    BitWidthBounds(n);
    if n > 0 && BitWidth(n) > bits { Pow2Monotone(bits, BitWidth(n) - 1); assert false; }
  }

  lemma BitWidthOf(n: nat, k: nat)
    requires k > 0 && Pow2(k - 1) <= n < Pow2(k)
    ensures BitWidth(n) == k
  {
    BitWidthBounds(n);
    if BitWidth(n) < k { Pow2Monotone(BitWidth(n), k - 1); }
    if BitWidth(n) > k { Pow2Monotone(k, BitWidth(n) - 1); }
  }

  lemma ScanLog2Below(sz: nat, bits: nat)
    requires 0 < sz && 2 * sz < Pow2(bits)
    ensures ScanLog2(sz, bits) == CeilLog2(sz)
  {
    var w := Pow2(bits);
    DivModUnique(2 * sz, w, 0, 2 * sz);
    DivModUnique(2 * sz - 1, w, 0, 2 * sz - 1);
    CeilLog2Bracket(sz);
    BitWidthOf(2 * sz - 1, CeilLog2(sz) + 1);
  }

  lemma CeilLog2Bracket(sz: nat)
    requires sz > 0
    ensures Pow2(CeilLog2(sz)) <= 2 * sz - 1 < Pow2(CeilLog2(sz) + 1)
  {
    CeilLog2Correct(sz);
    var k := CeilLog2(sz);
    if k > 0 { assert Pow2(k - 1) < sz; }
  }

  /**
   * The portable loop, whose counter is an unsigned int of the given width.
   * The counter becomes zero once it is shifted past the top bit and the loop
   * then never ends, which is why v may be at most 2^(bits-1).
   */
  method LoopLog2(v: nat, bits: nat) returns (log: nat)
    requires bits > 0 && v <= Pow2(bits - 1)
    ensures log == CeilLog2(v)
  {
    log := 0;
    var value := 1;
    while value < v
      invariant log < bits && value == Pow2(log)
      invariant forall j: nat :: j < log ==> Pow2(j) < v
      decreases v - value
    {
      if log == bits - 1 { assert false; }
      LoopCounterValue(log, bits);
      LoopCounterValue(log + 1, bits);
      value := (value * 2) % Pow2(bits);
      log := log + 1;
    }
    CeilLog2Correct(v);
    CeilLog2Unique(v, log, CeilLog2(v));
  }

  /** The loop counter after the given number of turns, with wrap-around. */
  function LoopCounter(turns: nat, bits: nat): nat {
    if turns == 0 then 1 else (LoopCounter(turns - 1, bits) * 2) % Pow2(bits)
  }

  lemma {:induction false} LoopCounterValue(turns: nat, bits: nat)
    requires turns < bits
    ensures LoopCounter(turns, bits) == Pow2(turns)
  {
    if turns > 0 {
      LoopCounterValue(turns - 1, bits);
      Pow2Strict(turns, bits);
      DivModUnique(Pow2(turns), Pow2(bits), 0, Pow2(turns));
    }
  }

  lemma {:induction false} LoopCounterZero(turns: nat, bits: nat)
    requires 0 < bits <= turns
    ensures LoopCounter(turns, bits) == 0
  {
    if turns == bits {
      LoopCounterValue(bits - 1, bits);
      DivModUnique(Pow2(bits), Pow2(bits), 1, 0);
    } else {
      LoopCounterZero(turns - 1, bits);
      DivModUnique(0, Pow2(bits), 0, 0);
    }
  }

  /** The loop's exit test is ever met exactly when v is within its range. */
  lemma LoopLog2Ends(v: nat, bits: nat)
    requires bits > 0
    ensures (exists turns: nat :: LoopCounter(turns, bits) >= v) <==> v <= Pow2(bits - 1)
  {
    if v <= Pow2(bits - 1) {
      LoopCounterValue(bits - 1, bits);
    } else {
      forall turns: nat
        ensures LoopCounter(turns, bits) < v
      {
        if turns < bits {
          LoopCounterValue(turns, bits);
          Pow2Monotone(turns, bits - 1);
        } else {
          LoopCounterZero(turns, bits);
        }
      }
    }
  }

  // ---------------------------------------------------------------------
  // Half-logarithms
  // ---------------------------------------------------------------------

  /** The half-log size classes, 2^n and 3 * 2^n, without a limit on their size. */
  function HalfSize(v: nat): nat {
    var sz1 := Pow2(v / 2);
    sz1 + if v % 2 == 1 then sz1 / 2 else 0
  }

  /** The index of the class for a size: halflog2 over unbounded numbers. */
  function HalfIndex(v: nat): int
    requires v >= 2
  {
    var a := CeilLog2(v);
    CeilLog2Correct(v);
    var b := CeilLog2(v - Pow2(a - 1));
    2 * a + (if b + 1 == a then 1 else 0) - 1
  }

  lemma HalfSizeEven(k: nat)
    ensures HalfSize(2 * k) == Pow2(k)
  {
    DivModUnique(2 * k, 2, k, 0);
  }

  lemma HalfSizeOdd(k: nat)
    ensures HalfSize(2 * k + 1) == Pow2(k) + Pow2(k) / 2
    ensures k >= 1 ==> HalfSize(2 * k + 1) == Pow2(k) + Pow2(k - 1)
  {
    DivModUnique(2 * k + 1, 2, k, 1);
    if k >= 1 { DivModUnique(Pow2(k), 2, Pow2(k - 1), 0); }
  }

  lemma HalfSizeStep(k: nat)
    ensures HalfSize(k) <= HalfSize(k + 1)
    ensures k >= 1 ==> HalfSize(k) < HalfSize(k + 1)
  {
    var h := k / 2;
    HalfSizeEven(h);
    HalfSizeOdd(h);
    HalfSizeEven(h + 1);
    if k % 2 == 0 {
      assert k == 2 * h;
    } else {
      assert k == 2 * h + 1 && k + 1 == 2 * (h + 1);
    }
  }

  lemma {:induction false} HalfSizeMonotone(a: nat, b: nat)
    requires a <= b
    ensures HalfSize(a) <= HalfSize(b)
    ensures 1 <= a < b ==> HalfSize(a) < HalfSize(b)
  {
    if a < b {
      HalfSizeMonotone(a, b - 1);
      HalfSizeStep(b - 1);
    }
  }

  /** b + 1 == a holds exactly when v lies in the upper half of (2^(a-1), 2^a]. */
  lemma HalfIndexCases(v: nat)
    requires v >= 2
    ensures var a := CeilLog2(v);
            && a >= 1 && Pow2(a - 1) < v <= Pow2(a)
            && HalfIndex(v) == if a >= 2 && v - Pow2(a - 1) <= Pow2(a - 2) then 2 * a - 1 else 2 * a
  {
    CeilLog2Correct(v);
    var a := CeilLog2(v);
    assert Pow2(a - 1) < v <= Pow2(a);
    var rest := v - Pow2(a - 1);
    CeilLog2Correct(rest);
    var b := CeilLog2(rest);
    assert b <= a - 1;
    if b < a - 1 {
      Pow2Monotone(b, a - 2);
    } else if a >= 2 {
      assert Pow2(a - 2) < rest;
    }
  }

  /** The index names the smallest half-log class that holds v. */
  lemma HalfIndexCorrect(v: nat)
    requires v >= 2
    ensures HalfIndex(v) >= 2
    ensures v <= HalfSize(HalfIndex(v))
    ensures forall k: nat :: k < HalfIndex(v) ==> HalfSize(k) < v
  {
    HalfIndexCases(v);
    var a, h := CeilLog2(v), HalfIndex(v);
    HalfSizeEven(a);
    HalfSizeEven(a - 1);
    HalfSizeOdd(a - 1);
    assert HalfSize(h - 1) < v <= HalfSize(h) by {
      if h == 2 * a {
        assert h - 1 == 2 * (a - 1) + 1;
      } else {
        assert h == 2 * (a - 1) + 1 && h - 1 == 2 * (a - 1);
      }
    }
    forall k: nat | k < h
      ensures HalfSize(k) < v
    {
      HalfSizeMonotone(k, h - 1);
    }
  }

  /** Every class of size two or more is its own class. */
  lemma HalfIndexInverse(k: nat)
    requires k >= 2
    ensures HalfSize(k) >= 2 && HalfIndex(HalfSize(k)) == k
  {
    HalfSizeEven(1);
    HalfSizeMonotone(2, k);
    var h := HalfIndex(HalfSize(k));
    HalfIndexCorrect(HalfSize(k));
    if h < k {
      HalfSizeMonotone(h, k);
    }
  }

  /** An expression of the source, undefined when it shifts by a negative count or by the width of int or more. */
  datatype Expr = Undefined | Defined(value: int)

  /** int has ints bits and size_t, the wider type, has sizes bits: 32 and 64. */
  predicate Widths(ints: nat, sizes: nat) {
    ints >= 3 && sizes >= ints + 2
  }

  /** 1 << n is an int: the last shift that is defined yields the least int. */
  function Shift(n: int, ints: nat): Expr
    requires ints > 0
  {
    if n < 0 || n >= ints then Undefined
    else if n == ints - 1 then Defined(0 - Pow2(n))
    else Defined(Pow2(n))
  }

  /** The conversion of an int to size_t. */
  function ToSize(x: int, sizes: nat): int {
    if x < 0 then x + Pow2(sizes) else x
  }

  /** halfpow2: the shift is an int, and the rest is computed in size_t. */
  function HalfPow2(v: nat, ints: nat, sizes: nat): Expr
    requires ints > 0
  {
    match Shift(v / 2, ints)
    case Undefined => Undefined
    case Defined(x) =>
      var sz1 := ToSize(x, sizes);
      Defined((sz1 + (v % 2) * (sz1 / 2)) % Pow2(sizes))
  }

  /** halflog2: v is a size_t and the shift an int. */
  function HalfLog2(v: nat, ints: nat, sizes: nat): Expr
    requires ints > 0
  {
    var a := CeilLog2(v);
    match Shift(a - 1, ints)
    case Undefined => Undefined
    case Defined(x) =>
      var b := CeilLog2((v - ToSize(x, sizes)) % Pow2(sizes));
      Defined(2 * a + (if b + 1 == a then 1 else 0) - 1)
  }

  lemma CeilLog2At(k: nat, v: nat)
    requires k > 0 && Pow2(k - 1) < v <= Pow2(k)
    ensures CeilLog2(v) == k
  {
    CeilLog2Correct(v);
    var c := CeilLog2(v);
    if c < k { Pow2Monotone(c, k - 1); }
  }

  /** The powers of two around the width of int. */
  lemma WidthPowers(ints: nat, sizes: nat)
    requires Widths(ints, sizes)
    ensures Pow2(ints - 1) == 2 * Pow2(ints - 2) && Pow2(ints) == 4 * Pow2(ints - 2)
    ensures Pow2(sizes) == 2 * Pow2(sizes - 1) && Pow2(sizes - 1) >= 8 * Pow2(ints - 2)
    ensures Pow2(ints - 2) >= 2
  {
    Pow2Monotone(ints + 1, sizes - 1);
    Pow2Monotone(1, ints - 2);
  }

  /** While the shift does not reach the sign bit, halfpow2 is the class size. */
  lemma HalfPow2Below(v: nat, ints: nat, sizes: nat)
    requires Widths(ints, sizes) && v <= 2 * ints - 3
    ensures HalfPow2(v, ints, sizes) == Defined(HalfSize(v))
  {
    WidthPowers(ints, sizes);
    HalfSizeMonotone(v, 2 * ints - 2);
    HalfSizeEven(ints - 1);
    var sz1 := Pow2(v / 2);
    assert Shift(v / 2, ints) == Defined(sz1);
    HalfSizeIsSum(v);
    DivModUnique(HalfSize(v), Pow2(sizes), 0, HalfSize(v));
  }

  lemma HalfSizeIsSum(v: nat)
    ensures HalfSize(v) == Pow2(v / 2) + (v % 2) * (Pow2(v / 2) / 2)
  {
    if v % 2 == 1 { assert (v % 2) * (Pow2(v / 2) / 2) == Pow2(v / 2) / 2; }
  }

  /** The two values that come from the sign bit. */
  lemma HalfPow2AtSign(ints: nat, sizes: nat)
    requires Widths(ints, sizes)
    ensures HalfPow2(2 * ints - 2, ints, sizes) == Defined(Pow2(sizes) - Pow2(ints - 1))
    ensures HalfPow2(2 * ints - 1, ints, sizes) == Defined(Pow2(sizes - 1) - 3 * Pow2(ints - 2))
  {
    WidthPowers(ints, sizes);
    var m, q := Pow2(sizes), Pow2(ints - 2);
    var sz1 := m - 2 * q;
    DivModUnique(2 * ints - 2, 2, ints - 1, 0);
    DivModUnique(2 * ints - 1, 2, ints - 1, 1);
    DivModUnique(sz1, m, 0, sz1);
    DivModUnique(sz1, 2, Pow2(sizes - 1) - q, 0);
    DivModUnique(sz1 + sz1 / 2, m, 1, Pow2(sizes - 1) - 3 * q);
  }

  /** halfpow2 is the class size exactly up to 2 * (width of int) - 3. */
  lemma HalfPow2Exact(v: nat, ints: nat, sizes: nat)
    requires Widths(ints, sizes)
    ensures HalfPow2(v, ints, sizes) == Defined(HalfSize(v)) <==> v <= 2 * ints - 3
  {
    WidthPowers(ints, sizes);
    if v <= 2 * ints - 3 {
      HalfPow2Below(v, ints, sizes);
    } else if v <= 2 * ints - 1 {
      HalfPow2AtSign(ints, sizes);
      HalfSizeEven(ints - 1);
      HalfSizeOdd(ints - 1);
    }
  }

  /** It grows with v exactly up to 2 * (width of int) - 2, among the values for which it is defined. */
  lemma HalfPow2MonotoneIff(n: nat, ints: nat, sizes: nat)
    requires Widths(ints, sizes) && n < 2 * ints
    ensures (forall a: nat, b: nat | a <= b <= n :: Grows(a, b, ints, sizes)) <==> n <= 2 * ints - 2
  {
    WidthPowers(ints, sizes);
    HalfPow2AtSign(ints, sizes);
    if n <= 2 * ints - 2 {
      forall a: nat, b: nat | a <= b <= n
        ensures Grows(a, b, ints, sizes)
      {
        HalfPow2Grows(a, b, ints, sizes);
      }
    } else {
      assert !Grows(2 * ints - 2, 2 * ints - 1, ints, sizes);
    }
  }

  /** Both are defined, and the class sizes are in order, strictly from the first on. */
  predicate Grows(a: nat, b: nat, ints: nat, sizes: nat)
    requires ints > 0
  {
    var x, y := HalfPow2(a, ints, sizes), HalfPow2(b, ints, sizes);
    x.Defined? && y.Defined? && x.value <= y.value && (1 <= a < b ==> x.value < y.value)
  }

  lemma HalfPow2Grows(a: nat, b: nat, ints: nat, sizes: nat)
    requires Widths(ints, sizes) && a <= b <= 2 * ints - 2
    ensures Grows(a, b, ints, sizes)
  {
    WidthPowers(ints, sizes);
    HalfPow2AtSign(ints, sizes);
    if a <= 2 * ints - 3 {
      HalfPow2Below(a, ints, sizes);
      HalfSizeMonotone(a, 2 * ints - 2);
      HalfSizeEven(ints - 1);
      if b <= 2 * ints - 3 {
        HalfPow2Below(b, ints, sizes);
        HalfSizeMonotone(a, b);
      }
    }
  }

  lemma HalfLog2Below(v: nat, ints: nat, sizes: nat)
    requires Widths(ints, sizes) && 2 <= v <= Pow2(ints - 1)
    ensures HalfLog2(v, ints, sizes) == Defined(HalfIndex(v))
  {
    WidthPowers(ints, sizes);
    HalfIndexCases(v);
    var a := CeilLog2(v);
    if a >= ints { Pow2Monotone(ints - 1, a - 1); }
    var rest := v - Pow2(a - 1);
    DivModUnique(rest, Pow2(sizes), 0, rest);
  }

  /** The shift is the least int; the difference in size_t then is a sum. */
  lemma HalfLog2AtSign(v: nat, ints: nat, sizes: nat)
    requires Widths(ints, sizes) && Pow2(ints - 1) < v <= Pow2(ints)
    ensures HalfLog2(v, ints, sizes) == Defined(2 * ints - 1)
  {
    WidthPowers(ints, sizes);
    CeilLog2At(ints, v);
    var x, m, rest := 0 - Pow2(ints - 1), Pow2(sizes), v + Pow2(ints - 1);
    assert Shift(ints - 1, ints) == Defined(x);
    assert (v - ToSize(x, sizes)) % m == rest by { DivModUnique(v - ToSize(x, sizes), m, -1, rest); }
    CeilLog2At(ints + 1, rest);
  }

  lemma HalfLog2Above(v: nat, ints: nat, sizes: nat)
    requires ints > 0 && v > Pow2(ints)
    ensures HalfLog2(v, ints, sizes) == Undefined
  {
    CeilLog2Correct(v);
    var a := CeilLog2(v);
    if a <= ints { Pow2Monotone(a, ints); }
  }

  /** What halflog2 computes: the index, one value for all sizes whose logarithm reaches the sign bit, then nothing. */
  lemma HalfLog2Values(v: nat, ints: nat, sizes: nat)
    requires Widths(ints, sizes) && 2 <= v
    ensures HalfLog2(v, ints, sizes) ==
            if v <= Pow2(ints - 1) then Defined(HalfIndex(v))
            else if v <= Pow2(ints) then Defined(2 * ints - 1)
            else Undefined
  {
    if v <= Pow2(ints - 1) {
      HalfLog2Below(v, ints, sizes);
    } else if v <= Pow2(ints) {
      HalfLog2AtSign(v, ints, sizes);
    } else {
      HalfLog2Above(v, ints, sizes);
    }
  }

  /** Class k is the smallest that holds v. */
  ghost predicate SmallestClass(v: nat, k: int) {
    k >= 0 && v <= HalfSize(k) && forall j: nat :: j < k ==> HalfSize(j) < v
  }

  lemma SmallestClassIsIndex(v: nat, k: int)
    requires v >= 2
    ensures SmallestClass(v, k) <==> k == HalfIndex(v)
  {
    HalfIndexCorrect(v);
    var h := HalfIndex(v);
    if k >= 0 && k > h { assert HalfSize(h) >= v; }
  }

  /** halflog2 names the smallest class that holds v exactly up to 3/4 of the range of unsigned int. */
  lemma HalfLog2Correct(v: nat, ints: nat, sizes: nat)
    requires Widths(ints, sizes) && 2 <= v
    ensures var h := HalfLog2(v, ints, sizes);
            h.Defined? && SmallestClass(v, h.value) <==> v <= 3 * Pow2(ints - 2)
  {
    WidthPowers(ints, sizes);
    HalfLog2Values(v, ints, sizes);
    var h := HalfLog2(v, ints, sizes);
    if h.Defined? { SmallestClassIsIndex(v, h.value); }
    if Pow2(ints - 1) < v <= Pow2(ints) {
      CeilLog2At(ints, v);
      HalfIndexCases(v);
    }
  }

  /** k is the least number with halfpow2(k) >= v, where halfpow2 is computed as the source does. */
  ghost predicate LeastHalf(v: nat, k: int, ints: nat, sizes: nat)
    requires ints > 0
  {
    && k >= 0 && HalfAtLeast(v, k, ints, sizes)
    && forall j: nat :: j < k ==> !HalfAtLeast(v, j, ints, sizes)
  }

  predicate HalfAtLeast(v: nat, k: nat, ints: nat, sizes: nat)
    requires ints > 0
  {
    var x := HalfPow2(k, ints, sizes);
    x.Defined? && x.value >= v
  }

  /** The two functions of the source fit each other exactly up to half the range of unsigned int. */
  lemma HalfLog2IsLeastIff(v: nat, ints: nat, sizes: nat)
    requires Widths(ints, sizes) && 2 <= v
    ensures var h := HalfLog2(v, ints, sizes);
            (h.Defined? && LeastHalf(v, h.value, ints, sizes)) <==> v <= Pow2(ints - 1)
  {
    WidthPowers(ints, sizes);
    HalfLog2Values(v, ints, sizes);
    HalfPow2AtSign(ints, sizes);
    HalfSizeEven(ints - 1);
    var top: nat := 2 * ints - 2;
    if v <= Pow2(ints - 1) {
      HalfIndexCorrect(v);
      var k := HalfIndex(v);
      assert top < k ==> HalfSize(top) < v;
      if k < 2 * ints - 2 { HalfPow2Below(k, ints, sizes); }
      forall j: nat | j < k
        ensures !HalfAtLeast(v, j, ints, sizes)
      {
        HalfPow2Below(j, ints, sizes);
      }
    } else if v <= Pow2(ints) {
      assert HalfAtLeast(v, 2 * ints - 2, ints, sizes);
    }
  }

  /** halflog2(halfpow2(k)) is k exactly from 2 to 2 * (width of int) - 3. */
  lemma HalfLog2RoundTrip(k: nat, ints: nat, sizes: nat)
    requires Widths(ints, sizes)
    ensures var x := HalfPow2(k, ints, sizes);
            (x.Defined? && x.value >= 0 && HalfLog2(x.value, ints, sizes) == Defined(k)) <==> 2 <= k <= 2 * ints - 3
  {
    WidthPowers(ints, sizes);
    if k < 2 {
      HalfPow2Below(k, ints, sizes);
      assert CeilLog2(1) == 0;
      assert k == 0 ==> HalfSize(k) == 1;
      assert k == 1 ==> HalfSize(k) == 1;
    } else if k <= 2 * ints - 3 {
      HalfPow2Below(k, ints, sizes);
      HalfIndexInverse(k);
      HalfSizeMonotone(k, 2 * ints - 2);
      HalfSizeEven(ints - 1);
      HalfLog2Values(HalfSize(k), ints, sizes);
    } else if k < 2 * ints {
      HalfPow2AtSign(ints, sizes);
      HalfLog2Values(HalfPow2(k, ints, sizes).value, ints, sizes);
    }
  }

  /** The first size that goes wrong with 32-bit ints and 64-bit sizes, and what comes out of the round trip at 62. */
  lemma HalfLog2Fails(ints: nat, sizes: nat)
    requires Widths(ints, sizes)
    ensures var v := 3 * Pow2(ints - 2) + 1;
            HalfLog2(v, ints, sizes) == Defined(2 * ints - 1) && HalfIndex(v) == 2 * ints
    ensures HalfPow2(2 * ints - 2, ints, sizes) == Defined(Pow2(sizes) - Pow2(ints - 1))
    ensures HalfLog2(Pow2(sizes) - Pow2(ints - 1), ints, sizes) == Undefined
  {
    WidthPowers(ints, sizes);
    var v := 3 * Pow2(ints - 2) + 1;
    HalfLog2Values(v, ints, sizes);
    CeilLog2At(ints, v);
    HalfIndexCases(v);
    HalfPow2AtSign(ints, sizes);
    HalfLog2Values(Pow2(sizes) - Pow2(ints - 1), ints, sizes);
  }

  /** log2 of the smallest object (16 bytes on 64-bit machines). */
  const ALIGNMENT_LOG: nat := 4
  const ALIGNMENT: nat := 16

  lemma AlignmentIsPower()
    ensures Pow2(ALIGNMENT_LOG) == ALIGNMENT
  {
    assert Pow2(2) == 4 && Pow2(4) == 4 * Pow2(2);
  }

  function ClassSize(index: nat): nat {
    Pow2(index) * ALIGNMENT
  }

  function ClassIndex(sz: nat): int {
    CeilLog2(sz) - ALIGNMENT_LOG
  }

  /** A request gets the smallest class that holds it, wasting less than half of the slot. */
  lemma ClassFits(sz: nat)
    requires sz >= ALIGNMENT
    ensures ClassIndex(sz) >= 0
    ensures sz <= ClassSize(ClassIndex(sz)) < 2 * sz
    ensures forall i: nat :: sz <= ClassSize(i) <==> ClassIndex(sz) <= i
  {
    AlignmentIsPower();
    CeilLog2Correct(sz);
    var k := CeilLog2(sz);
    if k < ALIGNMENT_LOG { Pow2Strict(k, ALIGNMENT_LOG); }
    Pow2Add(k - ALIGNMENT_LOG, ALIGNMENT_LOG);
    if k > 0 { assert Pow2(k - 1) < sz; }
    forall i: nat
      ensures sz <= ClassSize(i) <==> ClassIndex(sz) <= i
    {
      Pow2Add(i, ALIGNMENT_LOG);
      if k <= i + ALIGNMENT_LOG {
        Pow2Monotone(k, i + ALIGNMENT_LOG);
      }
    }
  }
}
