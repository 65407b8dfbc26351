/** Bytes and little-endian numbers. */
module Bytes {

  newtype byte = x: int | 0 <= x < 256

  /** The `n` low bytes of `v`, least significant first; `v` is taken modulo 256^n. */
  function ToLittleEndian(v: nat, n: nat): (s: seq<byte>)
    ensures |s| == n
  {
    if n == 0 then [] else [(v % 256) as byte] + ToLittleEndian(v / 256, n - 1)
  }

  function FromLittleEndian(s: seq<byte>): nat {
    if s == [] then 0 else s[0] as int + 256 * FromLittleEndian(s[1..])
  }

  function Power256(n: nat): nat {
    if n == 0 then 1 else 256 * Power256(n - 1)
  }

  lemma {:induction false} LittleEndianRoundTrip(v: nat, n: nat)
    requires v < Power256(n)
    ensures FromLittleEndian(ToLittleEndian(v, n)) == v
  {
    if n > 0 {
      LittleEndianRoundTrip(v / 256, n - 1);
      assert ToLittleEndian(v, n)[1..] == ToLittleEndian(v / 256, n - 1);
    }
  }

  lemma {:induction false} LittleEndianBounded(s: seq<byte>)
    ensures FromLittleEndian(s) < Power256(|s|)
  {
    if s != [] { LittleEndianBounded(s[1..]); }
  }

  /** Exclusive or of the `bits` low bits. */
  function BitXor(a: nat, b: nat, bits: nat): nat {
    if bits == 0 then 0 else (a % 2 + b % 2) % 2 + 2 * BitXor(a / 2, b / 2, bits - 1)
  }

  function Power2(n: nat): (p: nat)
    ensures p > 0
  {
    if n == 0 then 1 else 2 * Power2(n - 1)
  }

  lemma {:induction false} Power2Adds(a: nat, b: nat)
    ensures Power2(a + b) == Power2(a) * Power2(b)
    decreases b
  {
    if b > 0 { Power2Adds(a, b - 1); }
  }

  lemma {:induction false} BitXorBounded(a: nat, b: nat, bits: nat)
    ensures BitXor(a, b, bits) < Power2(bits)
  {
    if bits > 0 { BitXorBounded(a / 2, b / 2, bits - 1); }
  }

  lemma Halves(bit: nat, half: nat)
    requires bit < 2
    ensures (bit + 2 * half) / 2 == half && (bit + 2 * half) % 2 == bit
  {}

  lemma BitTwice(x: nat, y: nat)
    ensures ((x % 2 + y % 2) % 2 + y % 2) % 2 == x % 2
  {}

  lemma {:induction false} BitXorCommutes(a: nat, b: nat, bits: nat)
    ensures BitXor(a, b, bits) == BitXor(b, a, bits)
  {
    if bits > 0 { BitXorCommutes(a / 2, b / 2, bits - 1); }
  }

  /** The same mask applied twice gives the value back. */
  lemma {:induction false} BitXorTwice(a: nat, mask: nat, bits: nat)
    requires a < Power2(bits)
    ensures BitXor(BitXor(a, mask, bits), mask, bits) == a
  {
    if bits > 0 {
      var bit, half := (a % 2 + mask % 2) % 2, BitXor(a / 2, mask / 2, bits - 1);
      BitXorTwice(a / 2, mask / 2, bits - 1);
      Halves(bit, half);
      BitTwice(a, mask);
      assert BitXor(a, mask, bits) == bit + 2 * half;
    }
  }

  lemma ByteBits()
    ensures Power2(8) == 256
  {
    assert Power2(4) == 16;
  }

  function Xor(a: byte, b: byte): byte {
    BitXorBounded(a as nat, b as nat, 8);
    ByteBits();
    BitXor(a as nat, b as nat, 8) as byte
  }

  lemma XorTwice(a: byte, b: byte)
    ensures Xor(Xor(a, b), b) == a
  {
    ByteBits();
    BitXorTwice(a as nat, b as nat, 8);
  }
}
