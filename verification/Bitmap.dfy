/** The packed bit set behind the frame allocator: bit `p % 8` of byte `p / 8`
    tells whether page `p` is in use. */
module Bitmap {

  function Mask(i: nat): bv8
    requires i < 8
  {
    (1 as bv8) << i
  }

  /** Bit `i` of one byte. */
  predicate BitOf(b: bv8, i: nat)
    requires i < 8
  {
    (b >> i) & 1 == 1
  }

  predicate Marked(bytes: seq<bv8>, p: nat)
  {
    p / 8 < |bytes| && BitOf(bytes[p / 8], p % 8)
  }

  /** The pages a bitmap marks as used. */
  function Pages(bytes: seq<bv8>): set<nat>
  {
    set p: nat | p < 8 * |bytes| && Marked(bytes, p)
  }

  /** A byte with bit `i` forced to one or to zero. */
  function WithBit(b: bv8, i: nat, on: bool): bv8
    requires i < 8
  {
    if on then b | Mask(i) else b & !Mask(i)
  }

  lemma MaskValues()
    ensures Mask(0) == 1 && Mask(1) == 2 && Mask(2) == 4 && Mask(3) == 8
    ensures Mask(4) == 16 && Mask(5) == 32 && Mask(6) == 64 && Mask(7) == 128
  {
  }

  lemma BitOfIsMask(b: bv8, j: nat)
    requires j < 8
    ensures BitOf(b, j) <==> b & Mask(j) != 0
  {
    if j == 0 {
    } else if j == 1 {
    } else if j == 2 {
    } else if j == 3 {
    } else if j == 4 {
    } else if j == 5 {
    } else if j == 6 {
    } else {
      assert j == 7;
    }
  }

  /** Writing one bit of a byte changes that bit and no other. */
  lemma WithBitAt(b: bv8, i: nat, j: nat, on: bool)
    requires i < 8 && j < 8
    ensures BitOf(WithBit(b, i, on), j) <==> if i == j then on else BitOf(b, j)
  {
    BitOfIsMask(b, j);
    BitOfIsMask(WithBit(b, i, on), j);
    MasksDisjoint(i, j);
    MaskNonZero(i);
  }

  lemma MaskNonZero(i: nat)
    requires i < 8
    ensures Mask(i) != 0
  {
    MaskValues();
  }

  lemma MasksDisjoint(i: nat, j: nat)
    requires i < 8 && j < 8
    ensures i != j ==> Mask(i) & Mask(j) == 0
  {
    MaskValues();
  }

  /** Writing the bit of page `p` adds exactly `p` to the marked pages, or removes exactly `p`. */
  lemma StoreChangesOnePage(bytes: seq<bv8>, p: nat, on: bool)
    requires p / 8 < |bytes|
    ensures Pages(bytes[p / 8 := WithBit(bytes[p / 8], p % 8, on)])
         == if on then Pages(bytes) + {p} else Pages(bytes) - {p}
  {
    var k := p / 8;
    var after := bytes[k := WithBit(bytes[k], p % 8, on)];
    forall q: nat | q / 8 < |bytes|
      ensures Marked(after, q) <==> if q == p then on else Marked(bytes, q)
    {
      WithBitAt(bytes[k], p % 8, q % 8, on);
    }
  }

  /** A zero-filled bitmap marks no page. */
  lemma ZeroedMarksNothing(bytes: seq<bv8>)
    requires forall k :: 0 <= k < |bytes| ==> bytes[k] == 0
    ensures Pages(bytes) == {}
  {
    forall p: nat | p < 8 * |bytes|
      ensures !Marked(bytes, p)
    {
      BitOfIsMask(bytes[p / 8], p % 8);
    }
  }
}
