/**
 * Replicated execution (src/replicated/reader.cpp, voter.cpp,
 * mostcommonelement.h, fingerprinter.h): one reader for each replica fills a
 * shared buffer block by block, and the voter prints one block of each round
 * once all readers have signalled.  ReplicasAliveNow stays at the number of
 * replicas.
 */
module Voting {

  const BUFFER_LENGTH: nat := 4096

  type Byte = b: int | -128 <= b < 128 witness 0

  const NUL: Byte := 0

  // ---------------------------------------------------------------------
  // The most common element
  // ---------------------------------------------------------------------

  function Freq<T(==)>(a: seq<T>, x: T): (n: nat)
    ensures n <= |a|
  {
    if a == [] then 0 else Freq(a[..|a| - 1], x) + if a[|a| - 1] == x then 1 else 0
  }

  /** Among the first n positions, the first whose element is most frequent in all of a. */
  function Best(a: seq<int>, n: nat): (i: nat)
    requires 0 < n <= |a|
    ensures i < n
  {
    if n == 1 then 0
    else var b := Best(a, n - 1); if Freq(a, a[n - 1]) > Freq(a, a[b]) then n - 1 else b
  }

  function Winner(a: seq<int>): (i: nat)
    requires |a| > 0
    ensures i < |a|
  {
    Best(a, |a|)
  }

  lemma {:induction false} BestIsFirst(a: seq<int>, n: nat)
    requires 0 < n <= |a|
    ensures forall i :: 0 <= i < n ==> Freq(a, a[i]) <= Freq(a, a[Best(a, n)])
    ensures forall i :: 0 <= i < Best(a, n) ==> Freq(a, a[i]) < Freq(a, a[Best(a, n)])
  {
    if n > 1 {
      BestIsFirst(a, n - 1);
    }
  }

  /** No element is more frequent than the winner, and every earlier position has a less frequent one. */
  lemma WinnerIsFirst(a: seq<int>)
    requires |a| > 0
    ensures forall i :: 0 <= i < |a| ==> Freq(a, a[i]) <= Freq(a, a[Winner(a)])
    ensures forall i :: 0 <= i < Winner(a) ==> Freq(a, a[i]) < Freq(a, a[Winner(a)])
  {
    BestIsFirst(a, |a|);
  }

  /** The positions at which x occurs. */
  ghost function Places<T>(a: seq<T>, x: T): set<nat> {
    set i: nat | i < |a| && a[i] == x
  }

  lemma {:induction false} FreqIsCount<T>(a: seq<T>, x: T)
    ensures Freq(a, x) == |Places(a, x)|
  {
    if a == [] {
      assert Places(a, x) == {};
    } else {
      var n := |a| - 1;
      FreqIsCount(a[..n], x);
      assert Places(a, x) == Places(a[..n], x) + if a[n] == x then {n} else {};
    }
  }

  lemma {:induction false} FreqPositive(a: seq<int>, i: nat)
    requires i < |a|
    ensures Freq(a, a[i]) > 0
  {
    if i < |a| - 1 {
      FreqPositive(a[..|a| - 1], i);
    }
  }

  /** The position of the first most frequent element and how often it occurs. */
  method MostCommonElement(a: array<int>) returns (result: nat, count: nat)
    ensures a.Length > 0 ==> result == Winner(a[..]) && count == Freq(a[..], a[result])
    ensures a.Length == 0 ==> count == 0
  {
    ghost var all := a[..];
    var maxOccurrences := 0;
    var mostCommonItem := 0;
    var i := 0;
    while i < a.Length
      invariant i <= a.Length
      invariant i == 0 ==> maxOccurrences == 0
      invariant i > 0 ==> mostCommonItem == Best(all, i) && maxOccurrences == Freq(all, all[mostCommonItem])
    {
      var thisFrequency := 0;
      ghost var max, item := maxOccurrences, mostCommonItem;
      var j := 0;
      while j < a.Length
        invariant j <= a.Length && thisFrequency == Freq(all[..j], all[i])
        invariant if thisFrequency > max then maxOccurrences == thisFrequency && mostCommonItem == i
                  else maxOccurrences == max && mostCommonItem == item
      {
        assert all[..j + 1][..j] == all[..j];
        if a[i] == a[j] {
          thisFrequency := thisFrequency + 1;
          if thisFrequency > maxOccurrences {
            mostCommonItem := i;
            maxOccurrences := thisFrequency;
          }
        }
        j := j + 1;
      }
      assert all[..a.Length] == all;
      FreqPositive(all, i);
      i := i + 1;
    }
    result, count := mostCommonItem, maxOccurrences;
  }

  lemma {:induction false} FreqsAddUp(a: seq<int>, x: int, y: int)
    requires x != y
    ensures Freq(a, x) + Freq(a, y) <= |a|
  {
    if a != [] {
      FreqsAddUp(a[..|a| - 1], x, y);
    }
  }

  lemma {:induction false} FirstOccurrence<T>(a: seq<T>, x: T)
    requires Freq(a, x) > 0
    ensures exists i :: 0 <= i < |a| && a[i] == x
  {
    if a[|a| - 1] != x {
      FirstOccurrence(a[..|a| - 1], x);
    }
  }

  /** When more than half of the values are x, the winner is the first position that holds x. */
  lemma MajorityWins(a: seq<int>, x: int)
    requires 2 * Freq(a, x) > |a|
    ensures a[Winner(a)] == x && forall i :: 0 <= i < Winner(a) ==> a[i] != x
  {
    var w := Winner(a);
    BestIsFirst(a, |a|);
    FirstOccurrence(a, x);
    if a[w] != x { FreqsAddUp(a, x, a[w]); }
  }

  /** No two values are the same. */
  predicate Distinct(a: seq<int>) {
    forall i, j | 0 <= i < j < |a| :: a[i] != a[j]
  }

  lemma {:induction false} OccursTwice(a: seq<int>, x: int)
    requires Freq(a, x) >= 2
    ensures !Distinct(a)
  {
    var n := |a| - 1;
    if a[n] == x {
      FirstOccurrence(a[..n], x);
      var i :| 0 <= i < n && a[..n][i] == x;
      assert a[i] == a[n];
    } else {
      OccursTwice(a[..n], x);
      var i, j :| 0 <= i < j < n && a[..n][i] == a[..n][j];
      assert a[i] == a[j];
    }
  }

  lemma {:induction false} TwiceIsCounted(a: seq<int>, i: nat, j: nat)
    requires i < j < |a| && a[i] == a[j]
    ensures Freq(a, a[i]) >= 2
  {
    if j == |a| - 1 {
      FreqPositive(a[..j], i);
    } else {
      TwiceIsCounted(a[..|a| - 1], i, j);
    }
  }

  /** The winner occurs once if and only if every value does. */
  lemma NoAgreementIff(a: seq<int>)
    requires |a| > 0
    ensures Freq(a, a[Winner(a)]) < 2 <==> Distinct(a)
  {
    var w := Winner(a);
    BestIsFirst(a, |a|);
    if Freq(a, a[w]) >= 2 { OccursTwice(a, a[w]); }
    if i, j :| 0 <= i < j < |a| && a[i] == a[j] { TwiceIsCounted(a, i, j); }
  }

  // ---------------------------------------------------------------------
  // Blocks and fingerprints
  // ---------------------------------------------------------------------

  /** The sum of the bytes. */
  function Fingerprint(block: seq<Byte>): int {
    if block == [] then 0 else Fingerprint(block[..|block| - 1]) + block[|block| - 1]
  }

  /** The sum of a whole buffer stays within 32 bits, so the source's int never overflows. */
  lemma {:induction false} FingerprintFits(block: seq<Byte>)
    ensures -128 * |block| <= Fingerprint(block) <= 127 * |block|
    ensures |block| == BUFFER_LENGTH ==> -0x8000_0000 <= Fingerprint(block) < 0x8000_0000
  {
    if block != [] {
      FingerprintFits(block[..|block| - 1]);
    }
  }

  function Zeroes(n: nat): (z: seq<Byte>)
    ensures |z| == n && forall j :: 0 <= j < n ==> z[j] == NUL
  {
    if n == 0 then [] else Zeroes(n - 1) + [NUL]
  }

  /** Filling a block up with zeroes leaves its fingerprint as it is. */
  lemma {:induction false} PaddingKeepsFingerprint(block: seq<Byte>, n: nat)
    ensures Fingerprint(block + Zeroes(n)) == Fingerprint(block)
  {
    if n == 0 {
      assert block + Zeroes(n) == block;
    } else {
      assert (block + Zeroes(n))[..|block| + n - 1] == block + Zeroes(n - 1);
      PaddingKeepsFingerprint(block, n - 1);
    }
  }

  /** The position in a stream at which block b begins. */
  function Start(s: seq<Byte>, b: nat): (lo: nat)
    ensures lo <= |s|
  {
    if b * BUFFER_LENGTH <= |s| then b * BUFFER_LENGTH else |s|
  }

  function ByteAt(s: seq<Byte>, i: nat): Byte {
    if i < |s| then s[i] else NUL
  }

  /** Block b of a stream, filled up with zeroes. */
  function Block(s: seq<Byte>, b: nat): (r: seq<Byte>)
    ensures |r| == BUFFER_LENGTH
    ensures forall j :: 0 <= j < BUFFER_LENGTH ==> r[j] == ByteAt(s, b * BUFFER_LENGTH + j)
  {
    s[Start(s, b)..Start(s, b + 1)] + Zeroes(BUFFER_LENGTH - (Start(s, b + 1) - Start(s, b)))
  }

  /** The number of blocks a reader sends: at least one, and none is empty otherwise. */
  function Blocks(s: seq<Byte>): nat {
    if |s| == 0 then 1 else (|s| + BUFFER_LENGTH - 1) / BUFFER_LENGTH
  }

  /** The first n blocks of the stream, without the padding. */
  function Leading(s: seq<Byte>, n: nat): seq<Byte> {
    s[..Start(s, n)]
  }

  /** What the voter prints of a buffer: everything but zero bytes. */
  function Strip(block: seq<Byte>): seq<Byte> {
    if block == [] then []
    else Strip(block[..|block| - 1]) + if block[|block| - 1] != NUL then [block[|block| - 1]] else []
  }

  lemma {:induction false} StripAppend(a: seq<Byte>, b: seq<Byte>)
    ensures Strip(a + b) == Strip(a) + Strip(b)
  {
    if b == [] {
      assert a + b == a;
    } else {
      assert (a + b)[..|a + b| - 1] == a + b[..|b| - 1];
      StripAppend(a, b[..|b| - 1]);
    }
  }

  lemma {:induction false} StripZeroes(n: nat)
    ensures Strip(Zeroes(n)) == []
  {
    if n > 0 {
      assert Zeroes(n)[..n - 1] == Zeroes(n - 1);
      StripZeroes(n - 1);
    }
  }

  /** Printing loses exactly the zero bytes: it is faithful if and only if the text has none. */
  lemma {:induction false} StripIsFaithful(t: seq<Byte>)
    ensures |Strip(t)| <= |t|
    ensures Strip(t) == t <==> NUL !in t
  {
    if t != [] {
      var front := t[..|t| - 1];
      StripIsFaithful(front);
      assert t == front + [t[|t| - 1]];
      assert Strip(t) == t && t[|t| - 1] != NUL ==> Strip(t)[..|t| - 1] == front;
      assert t[|t| - 1] != NUL ==> Strip(t) == Strip(front) + [t[|t| - 1]];
    }
  }

  lemma StripText(t: seq<Byte>, n: nat)
    ensures Strip(t + Zeroes(n)) == Strip(t)
  {
    StripAppend(t, Zeroes(n));
    StripZeroes(n);
  }

  lemma Cut(s: seq<Byte>, lo: nat, hi: nat)
    requires lo <= hi <= |s|
    ensures Strip(s[..hi]) == Strip(s[..lo]) + Strip(s[lo..hi])
  {
    assert s[..lo] + s[lo..hi] == s[..hi];
    StripAppend(s[..lo], s[lo..hi]);
  }

  /** Printing block b after the first b blocks prints the first b + 1 blocks. */
  lemma PrintBlock(s: seq<Byte>, b: nat)
    ensures Strip(Leading(s, b)) + Strip(Block(s, b)) == Strip(Leading(s, b + 1))
  {
    var lo, hi := Start(s, b), Start(s, b + 1);
    StripText(s[lo..hi], BUFFER_LENGTH - (hi - lo));
    Cut(s, lo, hi);
  }
}
