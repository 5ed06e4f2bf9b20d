/**
 * The sequential bitmap (src/include/util/bitmap.h): an array of 64-bit words
 * that stands for a set of indices.
 */
module BitMaps {

  const WORDBITS: nat := 64

  function Zeros(): (z: seq<bool>)
    ensures |z| == WORDBITS && forall i :: 0 <= i < WORDBITS ==> !z[i]
  {
    seq(WORDBITS, _ => false)
  }

  /** A machine word, bit by bit; bit 0 is the least significant one. */
  type Word = w: seq<bool> | |w| == WORDBITS witness Zeros()

  const ZERO: Word := Zeros()

  /** The word that holds an index, and the position of the index inside it. */
  function Item(index: nat): nat { index / WORDBITS }

  function Position(index: nat): (p: nat)
    ensures p < WORDBITS
  {
    index % WORDBITS
  }

  /** A one shifted left by pos. */
  function Mask(pos: nat): Word
    requires pos < WORDBITS
  {
    ZERO[pos := true]
  }

  function And(v: Word, w: Word): Word { seq(WORDBITS, i requires 0 <= i < WORDBITS => v[i] && w[i]) }

  function Or(v: Word, w: Word): Word { seq(WORDBITS, i requires 0 <= i < WORDBITS => v[i] || w[i]) }

  function Not(w: Word): Word { seq(WORDBITS, i requires 0 <= i < WORDBITS => !w[i]) }

  /** The test a nonzero w & mask stands for is a test of one bit. */
  lemma MaskSelects(w: Word, pos: nat)
    requires pos < WORDBITS
    ensures And(w, Mask(pos)) != ZERO <==> w[pos]
  {
    assert And(w, Mask(pos))[pos] == w[pos];
    if !w[pos] {
      assert And(w, Mask(pos)) == ZERO;
    }
  }

  /** w | mask and w & ~mask change one bit; the latter changes the word iff the bit was set. */
  lemma MaskWrites(w: Word, pos: nat)
    requires pos < WORDBITS
    ensures Or(w, Mask(pos)) == w[pos := true]
    ensures And(w, Not(Mask(pos))) == w[pos := false]
    ensures And(w, Not(Mask(pos))) != w <==> w[pos]
  {
    assert And(w, Not(Mask(pos)))[pos] == false;
  }

  lemma ItemPosition(i: nat, j: nat)
    ensures i == Item(i) * WORDBITS + Position(i)
    ensures i == j <==> Item(i) == Item(j) && Position(i) == Position(j)
  {
  }

  /** The indices whose bit is set: the abstract value of a word array. */
  ghost function Indices(words: seq<Word>): set<nat> {
    set i: nat | i < |words| * WORDBITS && words[Item(i)][Position(i)]
  }

  lemma IndicesAfterWrite(words: seq<Word>, index: nat)
    requires index < |words| * WORDBITS
    ensures var item, mask := Item(index), Mask(Position(index));
            && Indices(words[item := Or(words[item], mask)]) == Indices(words) + {index}
            && Indices(words[item := And(words[item], Not(mask))]) == Indices(words) - {index}
  {
    var item, pos := Item(index), Position(index);
    MaskWrites(words[item], pos);
    forall i: nat | i < |words| * WORDBITS
      ensures i in Indices(words[item := words[item][pos := true]]) <==> i in Indices(words) || i == index
      ensures i in Indices(words[item := words[item][pos := false]]) <==> i in Indices(words) && i != index
    {
      ItemPosition(i, index);
    }
  }

  class BitMap {
    var words: array<Word>

    /** Bits currently backed by memory: the requested number rounded up to whole words. */
    function Elements(): nat
      reads this, words
    {
      words.Length * WORDBITS
    }

    ghost function Contents(): set<nat>
      reads this, words
    {
      Indices(words[..])
    }

    constructor ()
      ensures Contents() == {} && Elements() == 0
      ensures fresh(words)
    {
      words := new Word[0];
    }

    /** Sets aside room for nelts indices, all clear; earlier contents are dropped. */
    method Reserve(nelts: nat)
      modifies this
      ensures fresh(words)
      ensures Contents() == {}
      ensures nelts <= Elements() < nelts + WORDBITS
    {
      words := new Word[(nelts + WORDBITS - 1) / WORDBITS];
      Clear();
    }

    method Clear()
      modifies words
      ensures Contents() == {}
    {
      for i := 0 to words.Length
        invariant forall k :: 0 <= k < i ==> words[k] == ZERO
      {
        words[i] := ZERO;
      }
    }

    /** True iff the bit was clear; it is set afterwards and no other bit changed. */
    method TryToSet(index: nat) returns (ok: bool)
      requires index < Elements()
      modifies words
      ensures ok <==> index !in old(Contents())
      ensures Contents() == old(Contents()) + {index}
    {
      var item, mask := Item(index), Mask(Position(index));
      var oldValue := words[item];
      ghost var before := words[..];
      words[item] := Or(oldValue, mask);
      assert words[..] == before[item := Or(oldValue, mask)];
      IndicesAfterWrite(before, index);
      MaskSelects(oldValue, Position(index));
      return !(And(oldValue, mask) != ZERO);
    }

    /** True iff the bit was set; it is clear afterwards and no other bit changed. */
    method Reset(index: nat) returns (wasSet: bool)
      requires index < Elements()
      modifies words
      ensures wasSet <==> index in old(Contents())
      ensures Contents() == old(Contents()) - {index}
    {
      var item := Item(index);
      var oldValue := words[item];
      var newValue := And(oldValue, Not(Mask(Position(index))));
      ghost var before := words[..];
      words[item] := newValue;
      assert words[..] == before[item := newValue];
      IndicesAfterWrite(before, index);
      MaskWrites(oldValue, Position(index));
      return oldValue != newValue;
    }

    method IsSet(index: nat) returns (result: bool)
      requires index < Elements()
      ensures result <==> index in Contents()
    {
      MaskSelects(words[Item(index)], Position(index));
      result := And(words[Item(index)], Mask(Position(index))) != ZERO;
    }
  }
}
