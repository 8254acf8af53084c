/**
 * The growable bit array of src/util/bitvec.rs: 64-bit blocks, with one bit for
 * each index.
 */
module BitSets {
  type Word = bv64

  /** The place of an index inside its block: the six low bits. */
  type Place = bv6

  function PlaceOf(i: nat): Place {
    (i % 64) as bv6
  }

  function Bit(p: Place): Word {
    1 << p
  }

  /** 1 << (idx & 63) */
  function Mask(i: nat): Word {
    Bit(PlaceOf(i))
  }

  /** Some bit of the mask is set. */
  predicate Meets(x: Word, mask: Word) {
    x & mask != 0
  }

  // ----- one word -----

  lemma {:induction false} OrApart(x: Word, b: Word, c: Word)
    requires b & c == 0
    ensures (x | b) & c == x & c
  {
  }

  lemma {:induction false} OrSame(x: Word, b: Word)
    ensures (x | b) & b == b
  {
  }

  lemma {:induction false} AndNotApart(x: Word, b: Word, c: Word)
    requires b & c == 0
    ensures (x & !b) & c == x & c
  {
  }

  lemma {:induction false} AndNotSame(x: Word, b: Word)
    ensures (x & !b) & b == 0
  {
  }

  lemma {:induction false} OrAdds(x: Word, b: Word, c: Word)
    requires b != 0 && (b == c || b & c == 0)
    ensures Meets(x | b, c) <==> b == c || Meets(x, c)
  {
    if b == c {
      OrSame(x, b);
    } else {
      OrApart(x, b, c);
    }
  }

  lemma {:induction false} AndNotTakes(x: Word, b: Word, c: Word)
    requires b == c || b & c == 0
    ensures Meets(x & !b, c) <==> b != c && Meets(x, c)
  {
    if b == c {
      AndNotSame(x, b);
    } else {
      AndNotApart(x, b, c);
    }
  }

  // ----- the masks of two indices -----

  lemma {:induction false} BitsApart(p: Place, q: Place)
    requires p != q
    ensures Bit(p) & Bit(q) == 0
  {
  }

  lemma {:induction false} BitNotZero(p: Place)
    ensures Bit(p) != 0
  {
  }

  lemma {:induction false} PlaceRoundTrip(k: nat)
    requires k < 64
    ensures (k as bv6) as nat == k
  {
  }

  lemma {:induction false} PlacesApart(i: nat, j: nat)
    requires i % 64 != j % 64
    ensures PlaceOf(i) != PlaceOf(j)
  {
    PlaceRoundTrip(i % 64);
    PlaceRoundTrip(j % 64);
  }

  predicate SameOrApart(i: nat, j: nat, b: Word, c: Word) {
    && b != 0
    && (i % 64 == j % 64 ==> b == c)
    && (i % 64 != j % 64 ==> b & c == 0)
  }

  lemma {:induction false} MasksApart(i: nat, j: nat)
    ensures SameOrApart(i, j, Mask(i), Mask(j))
  {
    BitNotZero(PlaceOf(i));
    if i % 64 != j % 64 {
      PlacesApart(i, j);
      BitsApart(PlaceOf(i), PlaceOf(j));
    }
  }

  lemma {:induction false} SameIndex(i: nat, j: nat)
    ensures i == j <==> i / 64 == j / 64 && i % 64 == j % 64
  {
  }

  /** In block i / 64 the word y is x with the bit of index i set, seen by the mask of index j. */
  predicate SetsBit(i: nat, j: nat, x: Word, y: Word, mask: Word) {
    Meets(y, mask) <==> i % 64 == j % 64 || Meets(x, mask)
  }

  predicate ClearsBit(i: nat, j: nat, x: Word, y: Word, mask: Word) {
    Meets(y, mask) <==> i % 64 != j % 64 && Meets(x, mask)
  }

  lemma {:induction false} OrSets(i: nat, j: nat, x: Word, b: Word, c: Word)
    requires SameOrApart(i, j, b, c)
    ensures SetsBit(i, j, x, x | b, c)
  {
    assert b == c <==> i % 64 == j % 64;
    OrAdds(x, b, c);
  }

  lemma {:induction false} AndNotClears(i: nat, j: nat, x: Word, b: Word, c: Word)
    requires SameOrApart(i, j, b, c)
    ensures ClearsBit(i, j, x, x & !b, c)
  {
    assert b == c <==> i % 64 == j % 64;
    AndNotTakes(x, b, c);
  }

  lemma {:induction false} MaskSets(i: nat, j: nat, x: Word)
    ensures SetsBit(i, j, x, x | Mask(i), Mask(j))
  {
    MasksApart(i, j);
    OrSets(i, j, x, Mask(i), Mask(j));
  }

  lemma {:induction false} MaskClears(i: nat, j: nat, x: Word)
    ensures ClearsBit(i, j, x, x & !Mask(i), Mask(j))
  {
    MasksApart(i, j);
    AndNotClears(i, j, x, Mask(i), Mask(j));
  }

  // ----- the array -----

  /** The stored block, or zero past the end. */
  function Block(blocks: seq<Word>, n: nat): Word {
    if n < |blocks| then blocks[n] else 0
  }

  predicate HasMask(blocks: seq<Word>, n: nat, mask: Word) {
    Meets(Block(blocks, n), mask)
  }

  /** Index i is in the set. */
  predicate Has(blocks: seq<Word>, i: nat) {
    HasMask(blocks, i / 64, Mask(i))
  }

  /** block_mut: the vector grown with zero blocks until it holds block n. */
  function Grown(blocks: seq<Word>, n: nat): (r: seq<Word>)
    ensures |r| == if |blocks| <= n then n + 1 else |blocks|
    ensures forall m: nat :: Block(r, m) == Block(blocks, m)
  {
    if |blocks| <= n then blocks + seq(n + 1 - |blocks|, _ => 0) else blocks
  }

  lemma {:induction false} PutHas(blocks: seq<Word>, n: nat, w: Word, m: nat, c: Word)
    requires n < |blocks|
    ensures HasMask(blocks[n := w], m, c) <==> if m == n then Meets(w, c) else HasMask(blocks, m, c)
  {
  }

  lemma {:induction false} GrownHas(blocks: seq<Word>, n: nat, m: nat, c: Word)
    ensures HasMask(Grown(blocks, n), m, c) <==> HasMask(blocks, m, c)
  {
    assert Block(Grown(blocks, n), m) == Block(blocks, m);
  }

  lemma {:induction false} ZeroMeetsNothing(mask: Word)
    ensures !Meets(0, mask)
  {
  }

  lemma {:induction false} PutAdds(blocks: seq<Word>, w: Word, i: nat, j: nat, c: Word)
    requires i / 64 < |blocks| && SetsBit(i, j, blocks[i / 64], w, c)
    ensures HasMask(blocks[i / 64 := w], j / 64, c) <==> j == i || HasMask(blocks, j / 64, c)
  {
    SameIndex(i, j);
    PutHas(blocks, i / 64, w, j / 64, c);
  }

  lemma {:induction false} PutTakes(blocks: seq<Word>, w: Word, i: nat, j: nat, c: Word)
    requires i / 64 < |blocks| && ClearsBit(i, j, blocks[i / 64], w, c)
    ensures HasMask(blocks[i / 64 := w], j / 64, c) <==> j != i && HasMask(blocks, j / 64, c)
  {
    SameIndex(i, j);
    PutHas(blocks, i / 64, w, j / 64, c);
  }

  /** Or-ing the mask of i into its block adds exactly the index i. */
  lemma {:induction false} InsertAdds(blocks: seq<Word>, i: nat, j: nat)
    requires i / 64 < |blocks|
    ensures Has(blocks[i / 64 := blocks[i / 64] | Mask(i)], j) <==> j == i || Has(blocks, j)
  {
    MaskSets(i, j, blocks[i / 64]);
    PutAdds(blocks, blocks[i / 64] | Mask(i), i, j, Mask(j));
  }

  lemma {:induction false} InsertAddsOne(blocks: seq<Word>, i: nat, w: Word)
    requires i / 64 < |blocks| && w == blocks[i / 64] | Mask(i)
    ensures forall j: nat :: Has(blocks[i / 64 := w], j) <==> j == i || Has(blocks, j)
  {
    forall j: nat
      ensures Has(blocks[i / 64 := w], j) <==> j == i || Has(blocks, j)
    {
      InsertAdds(blocks, i, j);
    }
  }

  /** And-ing its block with the complement of the mask of i takes away exactly the index i. */
  lemma {:induction false} RemoveTakes(blocks: seq<Word>, i: nat, j: nat)
    requires i / 64 < |blocks|
    ensures Has(blocks[i / 64 := blocks[i / 64] & !Mask(i)], j) <==> j != i && Has(blocks, j)
  {
    MaskClears(i, j, blocks[i / 64]);
    PutTakes(blocks, blocks[i / 64] & !Mask(i), i, j, Mask(j));
  }

  lemma {:induction false} RemoveTakesOne(blocks: seq<Word>, i: nat, w: Word)
    requires i / 64 < |blocks| && w == blocks[i / 64] & !Mask(i)
    ensures forall j: nat :: Has(blocks[i / 64 := w], j) <==> j != i && Has(blocks, j)
  {
    forall j: nat
      ensures Has(blocks[i / 64 := w], j) <==> j != i && Has(blocks, j)
    {
      RemoveTakes(blocks, i, j);
    }
  }

  /** Growing the vector changes no membership. */
  lemma {:induction false} GrownSame(blocks: seq<Word>, n: nat)
    ensures forall j: nat :: Has(Grown(blocks, n), j) <==> Has(blocks, j)
  {
    forall j: nat
      ensures Has(Grown(blocks, n), j) <==> Has(blocks, j)
    {
      GrownHas(blocks, n, j / 64, Mask(j));
    }
  }

  /** No index beyond the stored blocks is in the set. */
  lemma {:induction false} NothingBeyond(blocks: seq<Word>, i: nat)
    requires i >= 64 * |blocks|
    ensures !Has(blocks, i)
  {
    ZeroMeetsNothing(Mask(i));
  }

  lemma {:induction false} RemoveNothing(blocks: seq<Word>, i: nat)
    requires |blocks| <= i / 64
    ensures forall j: nat :: Has(blocks, j) <==> j != i && Has(blocks, j)
  {
    NothingBeyond(blocks, i);
  }

  /** *block |= bit */
  method OrBit(blocks: seq<Word>, i: nat) returns (after: seq<Word>)
    requires i / 64 < |blocks|
    ensures forall j: nat :: Has(after, j) <==> j == i || Has(blocks, j)
  {
    var bit, block := Mask(i), i / 64;
    var word := blocks[block] | bit;
    InsertAddsOne(blocks, i, word);
    after := blocks[block := word];
  }

  /** *block &= !bit */
  method AndNotBit(blocks: seq<Word>, i: nat) returns (after: seq<Word>)
    requires i / 64 < |blocks|
    ensures forall j: nat :: Has(after, j) <==> j != i && Has(blocks, j)
  {
    var bit, block := Mask(i), i / 64;
    var word := blocks[block] & !bit;
    RemoveTakesOne(blocks, i, word);
    after := blocks[block := word];
  }

  class BitSet {
    var blocks: seq<Word>

    ghost predicate Contains(i: nat)
      reads this
    {
      Has(blocks, i)
    }

    constructor ()
      ensures forall j: nat :: !Contains(j)
    {
      blocks := [];
    }

    method Clear()
      modifies this
      ensures forall j: nat :: !Contains(j)
    {
      blocks := [];
    }

    method Insert(i: nat)
      modifies this
      ensures forall j: nat :: Contains(j) <==> j == i || old(Contains(j))
    {
      var block := i / 64;
      GrownSame(blocks, block);
      if |blocks| <= block {
        blocks := blocks + seq(block + 1 - |blocks|, _ => 0);
      }
      blocks := OrBit(blocks, i);
    }

    method Remove(i: nat)
      modifies this
      ensures forall j: nat :: Contains(j) <==> j != i && old(Contains(j))
    {
      var block := i / 64;
      if |blocks| > block {
        blocks := AndNotBit(blocks, i);
      } else {
        RemoveNothing(blocks, i);
      }
    }

    method Get(i: nat) returns (present: bool)
      ensures present == Contains(i)
    {
      var bit, block := Mask(i), i / 64;
      var word := Block(blocks, block);
      present := Meets(word, bit);
    }
  }
}
