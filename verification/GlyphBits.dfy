/** The bits of a glyph line, as the console tests them and as binary digits. */
module GlyphBits {
  /** The weights of a byte's bits, from the left. */
  function Weight(i: nat): (w: nat)
    ensures w > 0
  {
    match i
    case 0 => 128
    case 1 => 64
    case 2 => 32
    case 3 => 16
    case 4 => 8
    case 5 => 4
    case 6 => 2
    case _ => 1
  }

  /** The console's test for pixel `i` of a line, from the left. */
  predicate MaskHits(b: bv8, i: nat)
    requires i < 8
  {
    b & ((0x80 as bv8) >> i) != 0
  }

  /** Digit `i` from the left of a number below 256 in base two. */
  predicate Digit(n: nat, i: nat)
  {
    n / Weight(i) % 2 == 1
  }

  lemma LowBit(x: bv8)
    ensures x & 1 != 0 <==> (x as nat) % 2 == 1
  {
  }

  lemma Half(x: bv8)
    ensures (x >> 1) as nat == (x as nat) / 2
  {
  }

  /** Shifting a byte is dividing its value. */
  lemma Shifts(b: bv8)
    ensures (b >> 1) as nat == (b as nat) / 2 && (b >> 2) as nat == (b as nat) / 4
    ensures (b >> 3) as nat == (b as nat) / 8 && (b >> 4) as nat == (b as nat) / 16
    ensures (b >> 5) as nat == (b as nat) / 32 && (b >> 6) as nat == (b as nat) / 64
    ensures (b >> 7) as nat == (b as nat) / 128
  {
    Half(b);
    assert b >> 2 == (b >> 1) >> 1 && b >> 3 == (b >> 2) >> 1 && b >> 4 == (b >> 3) >> 1;
    assert b >> 5 == (b >> 4) >> 1 && b >> 6 == (b >> 5) >> 1 && b >> 7 == (b >> 6) >> 1;
    Half(b >> 1);
    Half(b >> 2);
    Half(b >> 3);
    Half(b >> 4);
    Half(b >> 5);
    Half(b >> 6);
  }

  predicate Odd(b: bv8)
  {
    b & 1 != 0
  }

  lemma Masks(b: bv8)
    ensures MaskHits(b, 0) <==> Odd(b >> 7)
    ensures MaskHits(b, 1) <==> Odd(b >> 6)
    ensures MaskHits(b, 2) <==> Odd(b >> 5)
    ensures MaskHits(b, 3) <==> Odd(b >> 4)
    ensures MaskHits(b, 4) <==> Odd(b >> 3)
    ensures MaskHits(b, 5) <==> Odd(b >> 2)
    ensures MaskHits(b, 6) <==> Odd(b >> 1)
    ensures MaskHits(b, 7) <==> Odd(b)
  {
  }

  lemma OddIsDigit(x: bv8, n: nat, i: nat)
    requires x as nat == n / Weight(i)
    ensures Odd(x) <==> Digit(n, i)
  {
    LowBit(x);
    hide Weight;
  }

  /** The mask test reads exactly that digit. */
  lemma MaskReadsDigit(b: bv8, i: nat)
    requires i < 8
    ensures MaskHits(b, i) <==> Digit(b as nat, i)
  {
    Masks(b);
    Shifts(b);
    var n := b as nat;
    hide MaskHits, Odd, Digit;
    match i
    case 0 => OddIsDigit(b >> 7, n, i);
    case 1 => OddIsDigit(b >> 6, n, i);
    case 2 => OddIsDigit(b >> 5, n, i);
    case 3 => OddIsDigit(b >> 4, n, i);
    case 4 => OddIsDigit(b >> 3, n, i);
    case 5 => OddIsDigit(b >> 2, n, i);
    case 6 => OddIsDigit(b >> 1, n, i);
    case _ => OddIsDigit(b, n, i);
  }
}
