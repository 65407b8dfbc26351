/** The disguised child offsets of a PKG1 directory: `GetWzOffset` (`Tools/PKG1/WZSerializer.cs`) and
    `ReadWzOffset` (`Tools/PKG1/WZReader.cs`), in 32-bit arithmetic. */
module WzOffset {
  import opened Basics
  import opened Bytes
  import opened WzPrimitives

  const ALL_ONES := 0xFFFF_FFFF
  const MAGIC := 0x581C_3F6D

  /** Rotation by a byte of which C# uses the low five bits; the two halves share no bits. */
  function Rotl(value: nat, shift: nat): (r: nat)
    requires value < TWO32
    ensures r < TWO32
  {
    var s := shift % 32;
    if s == 0 then value else (value * Power2(s) + value / Power2(32 - s)) % TWO32
  }

  /** The mask computed from the position the offset is stored at. */
  function Mask(position: nat, versionKey: nat): (mask: nat)
    ensures mask < TWO32
  {
    WordBits();
    BitXorBounded(position, ALL_ONES, 32);
    var scaled := BitXor(position, ALL_ONES, 32) * versionKey % TWO32;
    var shifted := if scaled >= MAGIC then scaled - MAGIC else scaled - MAGIC + TWO32;
    Rotl(shifted, shifted % 32)
  }

  lemma WordBits()
    ensures Power2(32) == TWO32
  {
    assert Power2(8) == 256 by { ByteBits(); }
    assert Power2(16) == 0x1_0000 by { assert Power2(12) == 16 * Power2(8); }
    assert Power2(24) == 0x100_0000 by { assert Power2(20) == 16 * Power2(16); }
    assert Power2(28) == 16 * Power2(24);
  }

  /** The writer's code for `target`, stored `positionFromStart` bytes after the contents start. */
  function GetWzOffset(positionFromStart: nat, contentsStart: nat, target: nat, versionKey: nat): (code: nat)
    ensures code < TWO32
  {
    WordBits();
    BitXorBounded(Mask(positionFromStart % TWO32, versionKey), (target - contentsStart * 2) % TWO32, 32);
    BitXor(Mask(positionFromStart % TWO32, versionKey), (target - contentsStart * 2) % TWO32, 32)
  }

  /** The reader complements a 64-bit position and casts the result to 32 bits. */
  function ReadWzOffset(positionFromStart: nat, contentsStart: nat, code: nat, versionKey: nat): nat {
    (BitXor(Mask(positionFromStart, versionKey), code, 32) + contentsStart * 2) % TWO32
  }

  lemma HalfOfSum(a: nat, half: nat)
    ensures (a + 2 * half) % 2 == a % 2 && (a + 2 * half) / 2 == a / 2 + half
  {}

  /** Exclusive or over `bits` bits looks at no others. */
  lemma {:induction false} HighBitsIgnored(a: nat, k: nat, b: nat, bits: nat)
    ensures BitXor(a + k * Power2(bits), b, bits) == BitXor(a, b, bits)
  {
    if bits > 0 {
      var half := k * Power2(bits - 1);
      assert k * Power2(bits) == 2 * half;
      HalfOfSum(a, half);
      HighBitsIgnored(a / 2, k, b / 2, bits - 1);
    }
  }

  lemma MaskOfLowBits(position: nat, versionKey: nat)
    ensures Mask(position % TWO32, versionKey) == Mask(position, versionKey)
  {
    WordBits();
    assert position == position % TWO32 + position / TWO32 * TWO32;
    HighBitsIgnored(position % TWO32, position / TWO32, ALL_ONES, 32);
  }

  lemma BitXorUndoes(mask: nat, v: nat)
    requires v < TWO32
    ensures BitXor(mask, BitXor(mask, v, 32), 32) == v
  {
    WordBits();
    BitXorCommutes(mask, v, 32);
    BitXorCommutes(mask, BitXor(v, mask, 32), 32);
    BitXorTwice(v, mask, 32);
  }

  lemma AddBack(target: nat, start: nat)
    requires target < TWO32
    ensures ((target - start * 2) % TWO32 + start * 2) % TWO32 == target
  {}

  /** Reading an offset undoes writing it, for every key, position and contents start. */
  lemma OffsetReadsBack(positionFromStart: nat, contentsStart: nat, target: nat, versionKey: nat)
    requires target < TWO32
    ensures ReadWzOffset(positionFromStart, contentsStart, GetWzOffset(positionFromStart, contentsStart, target, versionKey), versionKey) == target
  {
    MaskOfLowBits(positionFromStart, versionKey);
    hide Mask;
    BitXorUndoes(Mask(positionFromStart, versionKey), (target - contentsStart * 2) % TWO32);
    AddBack(target, contentsStart);
  }

  /** And every code is the code of exactly the offset it is read as. */
  lemma CodeIsOfItsOffset(positionFromStart: nat, contentsStart: nat, code: nat, versionKey: nat)
    requires code < TWO32
    ensures GetWzOffset(positionFromStart, contentsStart, ReadWzOffset(positionFromStart, contentsStart, code, versionKey), versionKey) == code
  {
    MaskOfLowBits(positionFromStart, versionKey);
    hide Mask;
    var mask := Mask(positionFromStart, versionKey);
    BitXorUndoes(mask, code);
    WordBits();
    BitXorBounded(mask, code, 32);
    TakeBack(BitXor(mask, code, 32), contentsStart);
  }

  lemma TakeBack(v: nat, start: nat)
    requires v < TWO32
    ensures ((v + start * 2) % TWO32 - start * 2) % TWO32 == v
  {}

  // ---------------------------------------------------------------- the mask in numbers

  lemma TopBit(x: nat, ones: nat, bits: nat)
    requires bits > 0 && ones + 1 == Power2(bits)
    ensures ones / 2 + 1 == Power2(bits - 1) && (x <= ones ==> x / 2 <= ones / 2)
    ensures BitXor(x, ones, bits) == 1 - x % 2 + 2 * BitXor(x / 2, ones / 2, bits - 1)
  {
    var half := Power2(bits - 1);
    assert ones == 2 * (half - 1) + 1;
  }

  /** Exclusive or with all ones is the distance to them. */
  lemma {:induction false} Complement(x: nat, ones: nat, bits: nat)
    requires x <= ones && ones + 1 == Power2(bits)
    ensures BitXor(x, ones, bits) == ones - x
  {
    if bits > 0 {
      TopBit(x, ones, bits);
      hide BitXor, Power2;
      Complement(x / 2, ones / 2, bits - 1);
      assert ones % 2 == 1 && x == x / 2 * 2 + x % 2;
    }
  }

  lemma RotlBy(value: nat, s: nat)
    requires value < TWO32 && s < 32
    ensures s == 0 ==> Rotl(value, s) == value && Power2(s) == 1 && Power2(32 - s) == TWO32
    ensures s != 0 ==> Rotl(value, s) == (value * Power2(s) + value / Power2(32 - s)) % TWO32
  {
    WordBits();
    assert s % 32 == s;
  }

  /** Rotation cuts a word in two and swaps the parts. */
  lemma RotlSwaps(high: nat, low: nat, s: nat)
    requires s < 32 && high < Power2(s) && low < Power2(32 - s)
    ensures high * Power2(32 - s) + low < TWO32 && Rotl(high * Power2(32 - s) + low, s) == low * Power2(s) + high
  {
    WordBits();
    Power2Adds(s, 32 - s);
    hide Power2, Rotl;
    var p, q := Power2(s), Power2(32 - s);
    Below(high, low, p, q);
    RotlBy(high * q + low, s);
    if s != 0 {
      Cut(high, low, p, q);
    } else {
      assert high == 0;
    }
  }

  lemma Below(high: nat, low: nat, p: nat, q: nat)
    requires high < p && low < q && p * q == TWO32
    ensures high * q + low < TWO32
  {
    assert (p - 1 - high) * q >= 0;
    assert (p - 1) * q == p * q - q;
  }

  /** Shifted left, the high part leaves the word; shifted right, the low part does. */
  lemma Cut(high: nat, low: nat, p: nat, q: nat)
    requires high < p && low < q && p * q == TWO32
    ensures var value := high * q + low; (value * p + value / q) % TWO32 == low * p + high
  {
    var value := high * q + low;
    Below(low, high, q, p);
    QuotientIs(value, q, high, low);
    assert value * p == high * (p * q) + low * p;
    Remainder(high, low * p + high);
  }

  lemma Remainder(high: nat, rest: nat)
    requires rest < TWO32
    ensures (high * TWO32 + rest) % TWO32 == rest
  {}

  /** The word that is rotated: the position complemented, times the key, less 0x581C3F6D, all in 32 bits. */
  function Scrambled(position: nat, versionKey: nat): (word: nat)
    requires position < 0x1_0000_0000
    ensures word < 0x1_0000_0000
  {
    ((0xFFFF_FFFF - position) * versionKey - 0x581C_3F6D) % 0x1_0000_0000
  }

  lemma Difference(product: int)
    ensures (product - 0x581C_3F6D) % TWO32 ==
      if product % TWO32 >= MAGIC then product % TWO32 - MAGIC else product % TWO32 - MAGIC + TWO32
  {}

  lemma MaskIsRotated(position: nat, versionKey: nat)
    requires position < TWO32
    ensures var word := Scrambled(position, versionKey); Mask(position, versionKey) == Rotl(word, word % 32)
  {
    WordBits();
    Complement(position, ALL_ONES, 32);
    Difference((ALL_ONES - position) * versionKey);
    hide Power2, BitXor, Rotl;
  }

  /** The mask for a position: cut the scrambled word so that the high part has as many bits as its five
      lowest bits say, and swap the parts. */
  lemma MaskIs(position: nat, versionKey: nat, high: nat, low: nat)
    requires position < TWO32
    requires var word := Scrambled(position, versionKey); var s := word % 32;
      word == high * Power2(32 - s) + low && high < Power2(s) && low < Power2(32 - s)
    ensures Mask(position, versionKey) == low * Power2(Scrambled(position, versionKey) % 32) + high
  {
    MaskIsRotated(position, versionKey);
    hide Mask, Rotl, Scrambled, Power2;
    var word := Scrambled(position, versionKey);
    RotlSwaps(high, low, word % 32);
  }

  lemma HighPart(word: nat, p: nat, q: nat) returns (high: nat, low: nat)
    requires word < TWO32 && p * q == TWO32 && q > 0
    ensures word == high * q + low && high < p && low < q
  {
    high, low := word / q, word % q;
    assert word == high * q + low;
    if high >= p { Times(p, high, q); }
  }

  lemma CutExists(word: nat, s: nat) returns (high: nat, low: nat)
    requires word < TWO32 && s < 32
    ensures word == high * Power2(32 - s) + low && high < Power2(s) && low < Power2(32 - s)
  {
    WordBits();
    Power2Adds(s, 32 - s);
    hide Power2;
    high, low := HighPart(word, Power2(s), Power2(32 - s));
  }

  lemma CodeByMask(position: nat, contentsStart: nat, target: nat, versionKey: nat)
    requires position < TWO32
    ensures GetWzOffset(position, contentsStart, target, versionKey)
      == BitXor(Mask(position, versionKey), (target - contentsStart * 2) % TWO32, 32)
  {
    hide Mask, BitXor, Power2;
    assert position % TWO32 == position;
  }

  /** So what is stored is the offset, less twice the contents start, under that mask. */
  lemma CodeIs(position: nat, contentsStart: nat, target: nat, versionKey: nat) returns (high: nat, low: nat)
    requires position < TWO32
    ensures var word := Scrambled(position, versionKey); var s := word % 32;
      && word == high * Power2(32 - s) + low && high < Power2(s) && low < Power2(32 - s)
      && GetWzOffset(position, contentsStart, target, versionKey)
           == BitXor(low * Power2(s) + high, (target - contentsStart * 2) % 0x1_0000_0000, 32)
  {
    hide Mask, Scrambled, Power2, BitXor, GetWzOffset;
    CodeByMask(position, contentsStart, target, versionKey);
    var word := Scrambled(position, versionKey);
    high, low := CutExists(word, word % 32);
    MaskIs(position, versionKey, high, low);
  }
}
