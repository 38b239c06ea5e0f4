/** Bitmaps as arrays of bytes, set bit by bit (SET_CPU_BITMAP, IS_CPU_SET). */
module Bitmaps {

  function Mask(k: nat): bv8
    requires k < 8
  {
    match k
    case 0 => 1
    case 1 => 2
    case 2 => 4
    case 3 => 8
    case 4 => 16
    case 5 => 32
    case 6 => 64
    case 7 => 128
  }

  /** Bit `n` of a bitmap. */
  predicate Bit(b: seq<bv8>, n: nat)
    requires n / 8 < |b|
  {
    b[n / 8] & Mask(n % 8) != 0
  }

  /** Bit n is bit n mod 8, from the lowest one, of byte n / 8. */
  lemma BitIs(b: seq<bv8>, n: nat)
    requires n / 8 < |b|
    ensures Bit(b, n) <==> (b[n / 8] >> (n % 8)) & 1 == 1
  {
  }

  /** Setting one bit changes no other bit. */
  method SetBit(b: array<bv8>, n: nat)
    requires n / 8 < b.Length
    modifies b
    ensures forall k: nat :: k / 8 < b.Length ==> (Bit(b[..], k) <==> k == n || old(Bit(b[..], k)))
  {
    b[n / 8] := b[n / 8] | Mask(n % 8);
    forall k: nat | k / 8 < b.Length ensures Bit(b[..], k) <==> k == n || old(Bit(b[..], k)) { }
  }
}
