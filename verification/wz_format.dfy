/** The PKG1 format byte by byte: what the layouts of `WzPrimitives`, `WzTree` and `WzDirectory` are in
    plain numbers, without the masks, digits and prefixes they are put together from. */
module WzFormat {
  import opened Basics
  import opened Bytes
  import opened WzPrimitives
  import opened WzTree
  import opened WzDirectory

  // ---------------------------------------------------------------- numbers

  function Digit(v: nat, weight: nat): byte
    requires weight > 0
  {
    (v / weight % 256) as byte
  }

  lemma LowestFirst(v: nat, n: nat)
    ensures ToLittleEndian(v, n + 1) == [Digit(v, 1)] + ToLittleEndian(v / 256, n)
  {}

  /** Digits of the quotient by 256 are the digits one place up. */
  lemma SecondDigit(v: nat)
    ensures Digit(v / 256, 1) == Digit(v, 0x100)
  {}

  lemma ThirdDigit(v: nat)
    ensures Digit(v / 256, 0x100) == Digit(v, 0x1_0000)
  {
    assert v / 256 / 0x100 == v / 0x1_0000;
  }

  lemma FourthDigit(v: nat)
    ensures Digit(v / 256, 0x1_0000) == Digit(v, 0x100_0000)
  {
    assert v / 256 / 0x1_0000 == v / 0x100_0000;
  }

  lemma UpperHalf(v: nat)
    ensures v / 256 / 256 / 256 / 256 == v / 0x1_0000_0000
  {
    assert v / 256 / 256 == v / 0x1_0000;
    assert v / 256 / 256 / 256 == v / 0x100_0000;
  }

  lemma TwoBytes(v: nat)
    ensures ToLittleEndian(v, 2) == [Digit(v, 1), Digit(v, 0x100)]
  {
    LowestFirst(v, 1);
    LowestFirst(v / 256, 0);
    SecondDigit(v);
    hide Digit;
  }

  lemma FourBytes(v: nat)
    ensures ToLittleEndian(v, 4) == [Digit(v, 1), Digit(v, 0x100), Digit(v, 0x1_0000), Digit(v, 0x100_0000)]
  {
    hide *;
    var w := v / 256;
    LowestFirst(v, 3);
    LowestFirst(w, 2);
    TwoBytes(w / 256);
    SecondDigit(w);
    ThirdDigit(w);
    SecondDigit(v);
    ThirdDigit(v);
    FourthDigit(v);
  }

  lemma EightBytes(v: nat)
    ensures ToLittleEndian(v, 8) ==
      [Digit(v, 1), Digit(v, 0x100), Digit(v, 0x1_0000), Digit(v, 0x100_0000)] + ToLittleEndian(v / 0x1_0000_0000, 4)
  {
    hide *;
    var w1 := v / 256;
    var w2 := w1 / 256;
    var w3 := w2 / 256;
    LowestFirst(v, 7);
    LowestFirst(w1, 6);
    LowestFirst(w2, 5);
    LowestFirst(w3, 4);
    SecondDigit(v);
    ThirdDigit(v);
    FourthDigit(v);
    SecondDigit(w1);
    ThirdDigit(w1);
    SecondDigit(w2);
    UpperHalf(v);
  }

  lemma CompactIs(v: int, bytes: nat, w: nat)
    requires (bytes == 4 && Int32(v)) || (bytes == 8 && Int64(v))
    requires w == if v >= 0 then v else if bytes == 4 then v + 0x1_0000_0000 else v + 0x1_0000_0000_0000_0000
    ensures Compact(v, bytes) == if -127 <= v <= 127 then [(v % 256) as byte] else [0x80] + ToLittleEndian(w, bytes)
  {
    Powers();
    hide ToLittleEndian, Power256;
  }

  lemma LowDigit(v: int, w: nat)
    requires w == v || w == v + 0x1_0000_0000 || w == v + 0x1_0000_0000_0000_0000
    ensures Digit(w, 1) == (v % 256) as byte
  {}

  /** A number from -127 to 127 is one byte modulo 256; any other is 0x80 and its two's complement. */
  lemma IntBytes(v: int)
    requires Int32(v)
    ensures var w := if v < 0 then v + 0x1_0000_0000 else v;
      Compact(v, 4) == if -127 <= v <= 127 then [Digit(w, 1)]
                       else [0x80, Digit(w, 1), Digit(w, 0x100), Digit(w, 0x1_0000), Digit(w, 0x100_0000)]
  {
    var w: nat := if v < 0 then v + 0x1_0000_0000 else v;
    CompactIs(v, 4, w);
    LowDigit(v, w);
    FourBytes(w);
    hide *;
  }

  lemma LongBytes(v: int)
    requires Int64(v)
    ensures var w := if v < 0 then v + 0x1_0000_0000_0000_0000 else v;
      Compact(v, 8) == if -127 <= v <= 127 then [Digit(w, 1)] else [0x80] + ToLittleEndian(w, 8)
  {
    var w: nat := if v < 0 then v + 0x1_0000_0000_0000_0000 else v;
    CompactIs(v, 8, w);
    LowDigit(v, w);
    hide *;
  }

  /** A whole number from -127 to 127 is one byte modulo 256; any other number is 0x80 and its four bytes. */
  lemma SingleBytes(bits: nat)
    requires bits < TWO32
    ensures match WholeOf(bits)
      case Some(n) => WriteSingle(bits) == [(if n < 0 then n + 256 else n) as byte]
      case None => WriteSingle(bits) == [0x80, Digit(bits, 1), Digit(bits, 0x100), Digit(bits, 0x1_0000), Digit(bits, 0x100_0000)]
  {
    hide WholeOf, ToLittleEndian, Digit;
    FourBytes(bits);
  }

  // ---------------------------------------------------------------- exclusive or

  /** The lowest bit of `r` says whether those of `a` and `b` differ. */
  predicate Differ(a: nat, b: nat, r: nat) {
    r % 2 == (a % 2 + b % 2) % 2
  }

  lemma OneLevel(a: nat, b: nat, r: nat, a': nat, b': nat, r': nat, bits: nat)
    requires a' == a / 2 && b' == b / 2 && r' == r / 2 && BitXor(a', b', bits) == r' && Differ(a, b, r)
    ensures BitXor(a, b, bits + 1) == r
  {
    assert r == r % 2 + 2 * r';
  }

  lemma FourLevels(x: nat, y: nat, z: nat, bits: nat)
    requires Differ(x, y, z) && Differ(x / 2, y / 2, z / 2) && Differ(x / 4, y / 4, z / 4) && Differ(x / 8, y / 8, z / 8)
    requires BitXor(x / 16, y / 16, bits) == z / 16
    ensures BitXor(x, y, bits + 4) == z
  {
    hide BitXor, Differ;
    OneLevel(x / 8, y / 8, z / 8, x / 16, y / 16, z / 16, bits);
    OneLevel(x / 4, y / 4, z / 4, x / 8, y / 8, z / 8, bits + 1);
    OneLevel(x / 2, y / 2, z / 2, x / 4, y / 4, z / 4, bits + 2);
    OneLevel(x, y, z, x / 2, y / 2, z / 2, bits + 3);
  }

  lemma Sixteenth(x: nat)
    ensures x / 16 / 2 == x / 32 && x / 16 / 4 == x / 64 && x / 16 / 8 == x / 128
    ensures x < 256 ==> x / 16 / 16 == 0
  {}

  lemma NoLevel(a: nat, b: nat)
    ensures BitXor(a, b, 0) == 0
  {}

  lemma IsXor(a: byte, b: byte)
    ensures Xor(a, b) as nat == BitXor(a as nat, b as nat, 8)
  {}

  /** The byte whose bits say where the bits of two bytes differ is their exclusive or. */
  lemma XorIs(a: byte, b: byte, r: byte)
    requires var x, y, z := a as nat, b as nat, r as nat;
      && Differ(x, y, z) && Differ(x / 2, y / 2, z / 2) && Differ(x / 4, y / 4, z / 4) && Differ(x / 8, y / 8, z / 8)
      && Differ(x / 16, y / 16, z / 16) && Differ(x / 32, y / 32, z / 32)
      && Differ(x / 64, y / 64, z / 64) && Differ(x / 128, y / 128, z / 128)
    ensures Xor(a, b) == r
  {
    hide BitXor, Differ, Xor;
    var x, y, z := a as nat, b as nat, r as nat;
    Sixteenth(x);
    Sixteenth(y);
    Sixteenth(z);
    NoLevel(x / 16 / 16, y / 16 / 16);
    FourLevels(x / 16, y / 16, z / 16, 0);
    FourLevels(x, y, z, 4);
    IsXor(a, b);
  }

  // ---------------------------------------------------------------- text

  /** One-byte text: byte `i` is character `i`, or '?' for a character beyond ASCII, masked with 0xAA
      counted up `i` times in a byte. */
  lemma NarrowText(s: WString, i: nat)
    requires OneByte(s) && i < |s|
    ensures |TextOf(s)| == |s|
    ensures TextOf(s)[i] == Xor(if s[i] < 0x80 then s[i] as byte else 0x3F, ((0xAA + i) % 256) as byte)
  {
    hide Xor;
  }

  lemma {:induction false} UnitOfMasked(plain: WString, from: nat, i: nat)
    requires from <= i < |plain|
    ensures var m := (0xAAAA + i) % 0x1_0000; var at := 2 * (i - from);
      && MaskedFrom(plain, from)[at] == Xor((plain[i] as int % 256) as byte, (m % 256) as byte)
      && MaskedFrom(plain, from)[at + 1] == Xor((plain[i] as int / 256) as byte, (m / 256) as byte)
    decreases i - from
  {
    hide Xor;
    if from < i { UnitOfMasked(plain, from + 1, i); }
  }

  /** A surrogate that is not half of a pair. */
  predicate Lone(s: WString, i: nat)
    requires i < |s|
  {
    if High(s[i]) then i + 1 == |s| || !Low(s[i + 1]) else Low(s[i]) && (i == 0 || !High(s[i - 1]))
  }

  /** Exactly the lone surrogates are replaced. */
  lemma {:induction false} RepairedAt(s: WString, i: nat)
    requires i < |s|
    ensures Repaired(s)[i] == if Lone(s, i) then 0xFFFD else s[i]
  {
    if High(s[0]) && |s| >= 2 && Low(s[1]) {
      if i >= 2 { RepairedAt(s[2..], i - 2); }
    } else {
      if i >= 1 { RepairedAt(s[1..], i - 1); }
    }
  }

  /** Two-byte text: bytes `2 * i` and `2 * i + 1` are the low and the high half of unit `i`, or of
      U+FFFD for a lone surrogate, masked with the halves of 0xAAAA counted up `i` times in 16 bits. */
  lemma WideText(s: WString, i: nat)
    requires !OneByte(s) && i < |s|
    ensures |TextOf(s)| == 2 * |s|
    ensures var u, m := if Lone(s, i) then 0xFFFD else s[i] as int, (0xAAAA + i) % 0x1_0000;
      && TextOf(s)[2 * i] == Xor((u % 256) as byte, (m % 256) as byte)
      && TextOf(s)[2 * i + 1] == Xor((u / 256) as byte, (m / 256) as byte)
  {
    hide Xor, Lone;
    RepairedAt(s, i);
    UnitOfMasked(Repaired(s), 0, i);
  }

  /** What stands in front of text: for one-byte text the length negated in one byte, or 0x80 and the
      length; for two-byte text the length in one byte, or 127 and the length. */
  function Prefix(n: nat, narrow: bool): seq<byte> {
    if n < 127 || (narrow && n == 127) then [((if narrow then 256 - n else n) % 256) as byte]
    else [if narrow then 0x80 else 127, Digit(n, 1), Digit(n, 0x100), Digit(n, 0x1_0000), Digit(n, 0x100_0000)]
  }

  lemma LengthBytes(n: int, narrow: bool)
    requires 0 <= n <= MAX_LENGTH
    ensures WriteLength(if narrow then -n else n) == Prefix(n, narrow)
  {
    Powers();
    FourBytes(n);
    hide ToLittleEndian, Power256, Digit;
  }

  lemma StringBytes(s: WString)
    requires |s| <= MAX_LENGTH
    ensures WriteString(s) == Prefix(|s|, OneByte(s)) + TextOf(s)
  {
    LengthBytes(|s|, OneByte(s));
    hide TextOf, OneByte, Prefix, WriteLength;
  }

  lemma ShortString(s: WString)
    requires OneByte(s) && |s| < 128
    ensures WriteString(s) == [((256 - |s|) % 256) as byte] + TextOf(s)
  {
    StringBytes(s);
    hide TextOf, OneByte, WriteString;
  }

  // ---------------------------------------------------------------- keywords

  const PROPERTY_BYTES: seq<byte> := [0xF8, 0xFA, 0xD9, 0xC3, 0xDD, 0xCB, 0xDD, 0xC4, 0xC8]
  const UOL_BYTES: seq<byte> := [0xFD, 0xFF, 0xE4, 0xE0]
  const VECTOR_BYTES: seq<byte> := [0xF0, 0xF9, 0xC3, 0xCD, 0xDD, 0xCB, 0x9D, 0xF4, 0x92] +
    [0xE4, 0xD6, 0xD7, 0xC1, 0xD9, 0xC5, 0x8A, 0xFD]

  lemma NarrowByte(s: WString, i: nat, c: byte, mask: byte, r: byte)
    requires OneByte(s) && i < |s| && s[i] as int == c as int < 0x80 && mask as int == 0xAA + i < 256 && Xor(c, mask) == r
    ensures |TextOf(s)| == |s| && TextOf(s)[i] == r
  {
    hide Xor, TextOf;
    NarrowText(s, i);
  }

  /** "Property". */
  lemma PropertyBytes(word: WString)
    requires word == PROPERTY
    ensures WriteString(word) == PROPERTY_BYTES
  {
    assert OneByte(word) && |word| == 8;
    ShortString(word);
    hide *;
    XorIs(0x50, 0xAA, 0xFA);
    NarrowByte(word, 0, 0x50, 0xAA, 0xFA);
    XorIs(0x72, 0xAB, 0xD9);
    NarrowByte(word, 1, 0x72, 0xAB, 0xD9);
    XorIs(0x6F, 0xAC, 0xC3);
    NarrowByte(word, 2, 0x6F, 0xAC, 0xC3);
    XorIs(0x70, 0xAD, 0xDD);
    NarrowByte(word, 3, 0x70, 0xAD, 0xDD);
    XorIs(0x65, 0xAE, 0xCB);
    NarrowByte(word, 4, 0x65, 0xAE, 0xCB);
    XorIs(0x72, 0xAF, 0xDD);
    NarrowByte(word, 5, 0x72, 0xAF, 0xDD);
    XorIs(0x74, 0xB0, 0xC4);
    NarrowByte(word, 6, 0x74, 0xB0, 0xC4);
    XorIs(0x79, 0xB1, 0xC8);
    NarrowByte(word, 7, 0x79, 0xB1, 0xC8);
  }

  /** "UOL". */
  lemma UolBytes(word: WString)
    requires word == UOL
    ensures WriteString(word) == UOL_BYTES
  {
    assert OneByte(word) && |word| == 3;
    ShortString(word);
    hide *;
    XorIs(0x55, 0xAA, 0xFF);
    NarrowByte(word, 0, 0x55, 0xAA, 0xFF);
    XorIs(0x4F, 0xAB, 0xE4);
    NarrowByte(word, 1, 0x4F, 0xAB, 0xE4);
    XorIs(0x4C, 0xAC, 0xE0);
    NarrowByte(word, 2, 0x4C, 0xAC, 0xE0);
  }

  lemma VectorFirstHalf(word: WString)
    requires word == VECTOR
    ensures OneByte(word) && |word| == |TextOf(word)| == 16
    ensures TextOf(word)[..8] == [0xF9, 0xC3, 0xCD, 0xDD, 0xCB, 0x9D, 0xF4, 0x92]
  {
    assert OneByte(word) && |word| == 16;
    hide *;
    XorIs(0x53, 0xAA, 0xF9);
    NarrowByte(word, 0, 0x53, 0xAA, 0xF9);
    XorIs(0x68, 0xAB, 0xC3);
    NarrowByte(word, 1, 0x68, 0xAB, 0xC3);
    XorIs(0x61, 0xAC, 0xCD);
    NarrowByte(word, 2, 0x61, 0xAC, 0xCD);
    XorIs(0x70, 0xAD, 0xDD);
    NarrowByte(word, 3, 0x70, 0xAD, 0xDD);
    XorIs(0x65, 0xAE, 0xCB);
    NarrowByte(word, 4, 0x65, 0xAE, 0xCB);
    XorIs(0x32, 0xAF, 0x9D);
    NarrowByte(word, 5, 0x32, 0xAF, 0x9D);
    XorIs(0x44, 0xB0, 0xF4);
    NarrowByte(word, 6, 0x44, 0xB0, 0xF4);
    XorIs(0x23, 0xB1, 0x92);
    NarrowByte(word, 7, 0x23, 0xB1, 0x92);
  }

  lemma VectorSecondHalf(word: WString)
    requires word == VECTOR
    ensures OneByte(word) && |word| == |TextOf(word)| == 16
    ensures TextOf(word)[8..] == [0xE4, 0xD6, 0xD7, 0xC1, 0xD9, 0xC5, 0x8A, 0xFD]
  {
    assert OneByte(word) && |word| == 16;
    hide *;
    XorIs(0x56, 0xB2, 0xE4);
    NarrowByte(word, 8, 0x56, 0xB2, 0xE4);
    XorIs(0x65, 0xB3, 0xD6);
    NarrowByte(word, 9, 0x65, 0xB3, 0xD6);
    XorIs(0x63, 0xB4, 0xD7);
    NarrowByte(word, 10, 0x63, 0xB4, 0xD7);
    XorIs(0x74, 0xB5, 0xC1);
    NarrowByte(word, 11, 0x74, 0xB5, 0xC1);
    XorIs(0x6F, 0xB6, 0xD9);
    NarrowByte(word, 12, 0x6F, 0xB6, 0xD9);
    XorIs(0x72, 0xB7, 0xC5);
    NarrowByte(word, 13, 0x72, 0xB7, 0xC5);
    XorIs(0x32, 0xB8, 0x8A);
    NarrowByte(word, 14, 0x32, 0xB8, 0x8A);
    XorIs(0x44, 0xB9, 0xFD);
    NarrowByte(word, 15, 0x44, 0xB9, 0xFD);
  }

  lemma VectorHalves()
    ensures VECTOR_BYTES == [0xF0] + ([0xF9, 0xC3, 0xCD, 0xDD, 0xCB, 0x9D, 0xF4, 0x92] + [0xE4, 0xD6, 0xD7, 0xC1, 0xD9, 0xC5, 0x8A, 0xFD])
  {
    assert VECTOR_BYTES[0] == 0xF0;
  }

  /** "Shape2D#Vector2D". */
  lemma VectorBytes(word: WString)
    requires word == VECTOR
    ensures WriteString(word) == VECTOR_BYTES
  {
    hide *;
    VectorFirstHalf(word);
    VectorSecondHalf(word);
    ShortString(word);
    VectorHalves();
    assert TextOf(word) == TextOf(word)[..8] + TextOf(word)[8..];
  }

  // ---------------------------------------------------------------- reading text

  /** The reader takes the masks off again: character `i` is byte `i` without 0xAA counted up `i` times,
      and '?' beyond ASCII. */
  lemma NarrowRead(text: seq<byte>, i: nat)
    requires i < |text|
    ensures var c := Xor(text[i], ((0xAA + i) % 256) as byte) as int;
      UnmaskedAscii(text)[i] as int == if c < 0x80 then c else 0x3F
  {
    hide Xor;
  }

  lemma {:induction false} WideRead(text: seq<byte>, from: nat, i: nat)
    requires |text| % 2 == 0 && 2 * i < |text|
    ensures var m := (0xAAAA + from + i) % 0x1_0000;
      UnmaskedFrom(text, from)[i] as int ==
        Xor(text[2 * i], (m % 256) as byte) as int + 256 * Xor(text[2 * i + 1], (m / 256) as byte) as int
    decreases i
  {
    hide Xor;
    if i > 0 { WideRead(text[2..], from + 1, i - 1); }
  }

  /** A string is its prefix and its text, whatever bytes these are; one-byte text is cut short by the
      end of the stream. */
  lemma ReadsNarrow(c: seq<byte>, at: nat, n: int)
    requires 0 <= n <= MAX_LENGTH && LiesAt(c, at, Prefix(n, true))
    ensures var text := at + |Prefix(n, true)|; var end := if text + n <= |c| then text + n else |c|;
      text <= |c| && ReadString(c, at) == Ok(UnmaskedAscii(c[text..end]), end)
  {
    LengthBytes(n, true);
    LengthReadsBack(c, at, -n);
    hide UnmaskedAscii, Prefix, WriteLength, ReadLength;
  }

  /** Two-byte text is not: a stream that ends inside it is an error. */
  lemma ReadsWide(c: seq<byte>, at: nat, n: int)
    requires 0 < n <= MAX_LENGTH && LiesAt(c, at, Prefix(n, false))
    ensures var text := at + |Prefix(n, false)|;
      text <= |c| && ReadString(c, at) ==
        if text + 2 * n <= |c| then Ok(Repaired(UnmaskedFrom(c[text..text + 2 * n], 0)), text + 2 * n) else Fail
  {
    LengthBytes(n, false);
    LengthReadsBack(c, at, n);
    hide UnmaskedFrom, Repaired, Prefix, WriteLength, ReadLength;
  }

  // ---------------------------------------------------------------- values

  /** The type byte and what follows it, for every value that is not a block. */
  lemma ValueBytes(v: Value)
    requires ValidValue(v) && !Extended(v)
    ensures v.Null? ==> WriteValue(v) == [0]
    ensures v.SByteValue? ==> WriteValue(v) == [0x10]
    ensures v.ByteValue? ==> WriteValue(v) == [0x11]
    ensures v.UInt16? ==> WriteValue(v) == [0x12, Digit(v.u, 1), Digit(v.u, 0x100)]
    ensures v.Int32Value? ==> WriteValue(v) == [3] + Compact(v.i, 4)
    ensures v.Color? ==> WriteValue(v) == [19] + Compact(if v.rgba < 0x8000_0000 then v.rgba else v.rgba - 0x1_0000_0000, 4)
    ensures v.Single? ==> WriteValue(v) == [4] + WriteSingle(v.bits)
    ensures v.Double? ==> WriteValue(v) == [5] + ToLittleEndian(v.bits, 8)
    ensures v.Int64Value? ==> WriteValue(v) == [20] + Compact(v.l, 8)
    ensures v.UInt64Value? ==>
      WriteValue(v) == [21] + Compact(if v.m < 0x8000_0000_0000_0000 then v.m else v.m - 0x1_0000_0000_0000_0000, 8)
    ensures v.Text? ==> WriteValue(v) == [8] + ([0] + WriteString(v.s))
  {
    if v.UInt16? { TwoBytes(v.u); }
  }

  lemma FrameBytes(block: seq<byte>)
    ensures var n := |block|;
      [9] + (ToLittleEndian(n, 4) + block) == [9, Digit(n, 1), Digit(n, 0x100), Digit(n, 0x1_0000), Digit(n, 0x100_0000)] + block
  {
    hide *;
    FourBytes(|block|);
  }

  /** A block value: 9, the length of the block, and the block. */
  lemma BlockBytes(v: Value)
    requires ValidValue(v) && Extended(v)
    ensures var block := WriteExtended(v); var n := |block|;
      WriteValue(v) == [9, Digit(n, 1), Digit(n, 0x100), Digit(n, 0x1_0000), Digit(n, 0x100_0000)] + block
  {
    hide *;
    WrappedShape(v);
    FrameBytes(WriteExtended(v));
  }

  lemma KeywordFirst(before: seq<byte>, word: seq<byte>, after: seq<byte>)
    ensures before + word + after == before + (word + after)
  {}

  lemma BlockShapes(v: Value)
    requires ValidValue(v) && Extended(v)
    ensures v.Vector2? ==> WriteExtended(v) == [0] + WriteString(VECTOR) + (Compact(v.x, 4) + Compact(v.y, 4))
    ensures v.Uol? ==> WriteExtended(v) == [0] + WriteString(UOL) + ([0] + ([0] + WriteString(v.target)))
    ensures v.Sub? ==> ValidNodes(v.children) && WriteExtended(v) == [0] + WriteString(PROPERTY) + ([0, 0] + WriteList(v.children))
  {
    hide WriteString, Compact, WriteList, ValidNodes;
  }

  /** The block of a sub-property, a vector and a UOL: a string in place that says which, and then two
      zeros and the children, the two coordinates, or a zero and the target in place. */
  lemma ExtendedBytes(v: Value)
    requires ValidValue(v) && Extended(v)
    ensures v.Vector2? ==> WriteExtended(v) == [0] + VECTOR_BYTES + (Compact(v.x, 4) + Compact(v.y, 4))
    ensures v.Uol? ==> WriteExtended(v) == [0] + UOL_BYTES + ([0] + ([0] + WriteString(v.target)))
    ensures v.Sub? ==> ValidNodes(v.children) && WriteExtended(v) == [0] + PROPERTY_BYTES + ([0, 0] + WriteList(v.children))
  {
    BlockShapes(v);
    hide *;
    if v.Vector2? {
      VectorBytes(VECTOR);
    } else if v.Uol? {
      UolBytes(UOL);
    } else {
      PropertyBytes(PROPERTY);
    }
  }

  lemma NodeBytes(n: Node)
    requires n.Node? && |n.name| <= MAX_LENGTH && ValidValue(n.value)
    ensures WriteNode(n) == [0] + WriteString(n.name) + WriteValue(n.value)
  {}

  lemma FirstNode(ns: seq<Node>)
    requires ValidNodes(ns) && ns != []
    ensures ValidNodes(ns[1..]) && (ns[0].Node? ==> |ns[0].name| <= MAX_LENGTH && ValidValue(ns[0].value))
    ensures WriteNodes(ns) == (if ns[0].Missing? then [] else WriteNode(ns[0])) + WriteNodes(ns[1..])
    ensures CountPresent(ns) == (if ns[0].Missing? then 0 else 1) + CountPresent(ns[1..])
  {
    hide WriteNode;
  }

  lemma NoNodes()
    ensures ValidNodes([]) && WriteNodes([]) == [] && CountPresent([]) == 0
  {}

  lemma FirstValid(ns: seq<Node>)
    requires ns != [] && ValidNodes(ns[1..]) && |ns| < TWO31
    requires ns[0].Node? ==> |ns[0].name| <= MAX_LENGTH && ValidValue(ns[0].value)
    ensures ValidNodes(ns)
  {
    forall i | 0 <= i < |ns| && ns[i].Node? ensures |ns[i].name| <= MAX_LENGTH && ValidValue(ns[i].value) {
      if i > 0 { assert ns[i] == ns[1..][i - 1]; }
    }
  }

  lemma {:induction false} NodesSplit(before: seq<Node>, n: Node, after: seq<Node>)
    requires ValidNodes(before + [n] + after) && |before + [n] + after| < TWO31
    ensures ValidNodes(before) && ValidNodes(after)
    ensures n.Node? ==> |n.name| <= MAX_LENGTH && ValidValue(n.value)
    ensures WriteNodes(before + [n] + after) == WriteNodes(before) + ((if n.Missing? then [] else WriteNode(n)) + WriteNodes(after))
    ensures CountPresent(before + [n] + after) == CountPresent(before) + (if n.Missing? then 0 else 1) + CountPresent(after)
    decreases |before|
  {
    hide WriteNode, WriteNodes, CountPresent, ValidNodes, ValidValue;
    var all := before + [n] + after;
    FirstNode(all);
    if before == [] {
      NoNodes();
      assert all[1..] == after && all[0] == n;
    } else {
      assert all[1..] == before[1..] + [n] + after && all[0] == before[0];
      NodesSplit(before[1..], n, after);
      FirstValid(before);
      FirstNode(before);
    }
  }

  /** Children are laid out one behind the other, each as its name in place and its value; the null
      children leave no trace. */
  lemma NodesBytes(before: seq<Node>, n: Node, after: seq<Node>)
    requires ValidNodes(before + [n] + after)
    ensures ValidNodes(before) && ValidNodes(after)
    ensures n.Node? ==> |n.name| <= MAX_LENGTH && ValidValue(n.value)
    ensures WriteNodes(before + [n] + after) ==
      WriteNodes(before) + ((if n.Missing? then [] else [0] + WriteString(n.name) + WriteValue(n.value)) + WriteNodes(after))
    ensures CountPresent(before + [n] + after) == CountPresent(before) + (if n.Missing? then 0 else 1) + CountPresent(after)
  {
    NodesSplit(before, n, after);
    hide *;
    if n.Node? { NodeBytes(n); }
  }

  /** An image. */
  lemma ImageBytes(ns: seq<Node>)
    requires ValidNodes(ns)
    ensures WriteImage(ns) == [0x73] + (PROPERTY_BYTES + ([0, 0] + WriteList(ns)))
    ensures CountPresent(ns) < 0x8000_0000 && WriteList(ns) == Compact(CountPresent(ns), 4) + WriteNodes(ns)
  {
    hide WriteString, Compact, CountPresent, WriteNodes, WriteList;
    PropertyBytes(PROPERTY);
    ListShape(ns);
  }

  lemma PairRead(c: seq<byte>, at: nat)
    requires at + 2 <= |c|
    ensures ReadFixed(c, at, 2) == Ok(c[at] as nat + 256 * c[at + 1] as nat, at + 2)
  {
    var pair := c[at..at + 2];
    assert pair[0] == c[at] && pair[1..] == [c[at + 1]];
    assert FromLittleEndian([c[at + 1]]) == c[at + 1] as nat + 256 * FromLittleEndian([]);
  }

  /** What the writer never writes, or writes without its value, and the reader takes all the same: two
      further types of 16-bit numbers, and the values of bytes.  Any other type is an error. */
  lemma KindsRead(c: seq<byte>, start: nat, at: nat)
    requires at < |c|
    ensures c[at] in {2, 0x0B, 0x12} && at + 3 <= |c| ==>
      ReadValue(c, start, at) == Ok(UInt16(c[at + 1] as nat + 256 * c[at + 2] as nat), at + 3)
    ensures c[at] == 0x10 && at + 2 <= |c| ==>
      ReadValue(c, start, at) == Ok(SByteValue(c[at + 1] as int - (if c[at + 1] < 128 then 0 else 256)), at + 2)
    ensures c[at] == 0x11 && at + 2 <= |c| ==> ReadValue(c, start, at) == Ok(ByteValue(c[at + 1] as nat), at + 2)
    ensures c[at] in {2, 0x0B, 0x12} && at + 3 > |c| ==> ReadValue(c, start, at) == Fail
    ensures c[at] in {0x10, 0x11} && at + 2 > |c| ==> ReadValue(c, start, at) == Fail
    ensures c[at] !in {0, 2, 3, 4, 5, 8, 9, 0x0B, 0x10, 0x11, 0x12, 19, 20, 21} ==> ReadValue(c, start, at) == Fail
  {
    if at + 3 <= |c| { PairRead(c, at + 1); }
    hide FromLittleEndian, ReadWrapped, ReadBlock, ReadCompact, ReadSingle;
  }

  /** An entry of a directory: 4, the name, the escaped size, the escaped checksum 123456789, and the
      code of the offset. */
  lemma EntryBytes(name: WString, p: Patch)
    requires |name| <= MAX_LENGTH
    ensures WriteHead(name) == [4] + WriteString(name)
    ensures WriteTail(p) ==
      [0x80, Digit(p.size, 1), Digit(p.size, 0x100), Digit(p.size, 0x1_0000), Digit(p.size, 0x100_0000),
       0x80, 0x15, 0xCD, 0x5B, 0x07,
       Digit(p.code, 1), Digit(p.code, 0x100), Digit(p.code, 0x1_0000), Digit(p.code, 0x100_0000)]
  {
    hide ToLittleEndian, WriteString;
    FourBytes(p.size);
    FourBytes(p.code);
    FourBytes(PLACEHOLDER);
    assert Digit(PLACEHOLDER, 1) == 0x15 && Digit(PLACEHOLDER, 0x100) == 0xCD;
    assert Digit(PLACEHOLDER, 0x1_0000) == 0x5B && Digit(PLACEHOLDER, 0x100_0000) == 0x07;
    hide Digit;
  }
}
