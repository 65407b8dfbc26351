/** The variable-length integers and masked strings of the PKG1 format: what
    `WzIntToByte`, `WzLongToByte` and `GetWzStringBytes` write (`Tools/PKG1/WZSerializer.cs`) and what
    `ReadWzInt`, `ReadWzLong` and `ReadWzString` read (`Tools/PKG1/WZReader.cs`), without encryption. */
module WzPrimitives {
  import opened Basics
  import opened Bytes

  newtype unit = x: int | 0 <= x < 0x1_0000      // a UTF-16 code unit
  type WString = seq<unit>

  const TWO31 := 0x8000_0000
  const TWO32 := 0x1_0000_0000
  const TWO63 := 0x8000_0000_0000_0000
  const TWO64 := 0x1_0000_0000_0000_0000
  const MAX_LENGTH := 0x3FFF_FFDF                // the runtime's longest string

  predicate Int32(v: int) { -TWO31 <= v < TWO31 }
  predicate Int64(v: int) { -TWO63 <= v < TWO63 }

  /** The result of a read: a value and the position after it, or an exception. */
  datatype Read<+T> = Ok(value: T, next: nat) | Fail

  /** `s` lies at position `at` of `c`. */
  predicate LiesAt(c: seq<byte>, at: nat, s: seq<byte>) {
    at + |s| <= |c| && c[at..at + |s|] == s
  }

  lemma LiesInside(c: seq<byte>, at: nat, s: seq<byte>)
    requires LiesAt(c, at, s)
    ensures at + |s| <= |c|
  {}

  lemma LiesAtSplit(c: seq<byte>, at: nat, a: seq<byte>, b: seq<byte>)
    requires LiesAt(c, at, a + b)
    ensures LiesAt(c, at, a) && LiesAt(c, at + |a|, b)
  {
    assert a == (a + b)[..|a|] && b == (a + b)[|a|..];
  }

  lemma LiesAtSplit3(c: seq<byte>, at: nat, a: seq<byte>, b: seq<byte>, d: seq<byte>)
    requires LiesAt(c, at, a + (b + d))
    ensures LiesAt(c, at, a) && LiesAt(c, at + |a|, b) && LiesAt(c, at + |a| + |b|, d)
  {
    LiesAtSplit(c, at, a, b + d);
    LiesAtSplit(c, at + |a|, b, d);
  }

  lemma LiesAtFirst(c: seq<byte>, at: nat, first: byte, rest: seq<byte>)
    requires LiesAt(c, at, [first] + rest)
    ensures at < |c| && c[at] == first && LiesAt(c, at + 1, rest)
  {
    LiesAtSplit(c, at, [first], rest);
    assert c[at] == c[at..at + 1][0];
  }

  // ---------------------------------------------------------------- fixed-width numbers

  /** A two's-complement integer of `bytes` bytes. */
  predicate Fits(v: int, bytes: nat) {
    -2 * v <= Power256(bytes) && 2 * v < Power256(bytes)
  }

  function Signed(v: nat, bytes: nat): int {
    if 2 * v >= Power256(bytes) then v - Power256(bytes) else v
  }

  function Unsigned(v: int, bytes: nat): nat
    requires Fits(v, bytes)
  {
    if v < 0 then v + Power256(bytes) else v
  }

  lemma Powers()
    ensures Power256(1) == 256 && Power256(2) == 0x1_0000 && Power256(4) == TWO32 && Power256(8) == TWO64
  {
    assert Power256(0) == 1;
    assert Power256(3) == 0x100_0000;
    assert Power256(5) == 256 * TWO32;
    assert Power256(6) == 0x1_0000 * TWO32;
    assert Power256(7) == 0x100_0000 * TWO32;
  }

  function ReadFixed(c: seq<byte>, at: nat, bytes: nat): (r: Read<nat>)
    ensures r.Ok? ==> r.next == at + bytes <= |c|
  {
    if at + bytes <= |c| then Ok(FromLittleEndian(c[at..at + bytes]), at + bytes) else Fail
  }

  function ReadSigned(c: seq<byte>, at: nat, bytes: nat): (r: Read<int>)
    ensures r.Ok? ==> r.next == at + bytes <= |c|
  {
    match ReadFixed(c, at, bytes)
    case Ok(v, next) => Ok(Signed(v, bytes), next)
    case Fail => Fail
  }

  function WriteSigned(v: int, bytes: nat): (s: seq<byte>)
    requires Fits(v, bytes)
    ensures |s| == bytes
  {
    ToLittleEndian(Unsigned(v, bytes), bytes)
  }

  lemma FixedReadsBack(c: seq<byte>, at: nat, v: nat, bytes: nat)
    requires v < Power256(bytes) && LiesAt(c, at, ToLittleEndian(v, bytes))
    ensures ReadFixed(c, at, bytes) == Ok(v, at + bytes)
  {
    LittleEndianRoundTrip(v, bytes);
  }

  lemma SignedReadsBack(c: seq<byte>, at: nat, v: int, bytes: nat)
    requires Fits(v, bytes) && LiesAt(c, at, WriteSigned(v, bytes))
    ensures ReadSigned(c, at, bytes) == Ok(v, at + bytes)
  {
    FixedReadsBack(c, at, Unsigned(v, bytes), bytes);
  }

  // ---------------------------------------------------------------- short or escaped integers

  /** One byte when the value fits -127..127, otherwise the escape 0x80 and all its bytes: four for
      `WzIntToByte`, eight for `WzLongToByte`. */
  function WriteCompact(v: int, bytes: nat): (s: seq<byte>)
    requires 1 <= bytes && Fits(v, bytes)
    ensures |s| == if -128 < v <= 127 then 1 else 1 + bytes
  {
    if v > 127 || v <= -128 then [0x80] + WriteSigned(v, bytes) else [(v % 256) as byte]
  }

  function ReadSByte(c: seq<byte>, at: nat): (r: Read<int>)
    ensures r.Ok? ==> r.next == at + 1 <= |c| && -128 <= r.value <= 127
  {
    if at < |c| then Ok(if c[at] >= 128 then c[at] as int - 256 else c[at] as int, at + 1) else Fail
  }

  function ReadCompact(c: seq<byte>, at: nat, bytes: nat): (r: Read<int>)
    ensures r.Ok? ==> at < r.next <= |c|
  {
    match ReadSByte(c, at)
    case Fail => Fail
    case Ok(v, next) => if v == -128 then ReadSigned(c, next, bytes) else Ok(v, next)
  }

  lemma CompactReadsBack(c: seq<byte>, at: nat, v: int, bytes: nat)
    requires 1 <= bytes && Fits(v, bytes) && LiesAt(c, at, WriteCompact(v, bytes))
    ensures ReadCompact(c, at, bytes) == Ok(v, at + |WriteCompact(v, bytes)|)
  {
    assert c[at] == WriteCompact(v, bytes)[0];
    if v > 127 || v <= -128 {
      LiesAtSplit(c, at, [0x80], WriteSigned(v, bytes));
      SignedReadsBack(c, at + 1, v, bytes);
    }
  }

  // ---------------------------------------------------------------- single-precision numbers

  /** What the last place before the point is worth in the 24-bit significand of an IEEE 754 number
      with this exponent, for numbers from 1 to below 256. */
  function OneIn(exponent: nat): (one: nat)
    ensures one > 0
  {
    match exponent
    case 127 => 0x80_0000
    case 128 => 0x40_0000
    case 129 => 0x20_0000
    case 130 => 0x10_0000
    case 131 => 0x8_0000
    case 132 => 0x4_0000
    case 133 => 0x2_0000
    case _ => 0x1_0000
  }

  /** The whole number from -127 to 127 that a 32-bit number is, if it is one; both zeros are 0. */
  function WholeOf(bits: nat): (r: Option<int>)
    ensures r.Some? ==> -127 <= r.value <= 127
  {
    var exponent, significand := bits / 0x80_0000 % 0x100, 0x80_0000 + bits % 0x80_0000;
    if exponent == 0 && significand == 0x80_0000 then Some(0)
    else if 127 <= exponent <= 133 && significand % OneIn(exponent) == 0 then
      var whole := significand / OneIn(exponent);
      Some(if bits >= TWO31 then -whole else whole)
    else None
  }

  /** The bits of a whole number. */
  function BitsOf(n: nat): (bits: nat)
    requires n < 256
    ensures bits < TWO31
  {
    if n == 0 then 0
    else
      var exponent := if n >= 128 then 134 else if n >= 64 then 133 else if n >= 32 then 132 else if n >= 16 then 131
        else if n >= 8 then 130 else if n >= 4 then 129 else if n >= 2 then 128 else 127;
      exponent * 0x80_0000 + (n * OneIn(exponent) - 0x80_0000)
  }

  /** `WzSingleToByte`: one byte for a whole number from -127 to 127, modulo 256, otherwise the escape
      0x80 and all four bytes. */
  function WriteSingle(bits: nat): (s: seq<byte>)
    ensures |s| == if WholeOf(bits).Some? then 1 else 5
  {
    match WholeOf(bits)
    case Some(n) => [(n % 256) as byte]
    case None => [0x80] + ToLittleEndian(bits, 4)
  }

  /** `ReadWzSingle`: the one byte is read as it is, without a sign. */
  function ReadSingle(c: seq<byte>, at: nat): (r: Read<nat>)
    ensures r.Ok? ==> at < r.next <= |c|
  {
    if at >= |c| then Fail
    else if c[at] == 0x80 then ReadFixed(c, at + 1, 4)
    else Ok(BitsOf(c[at] as nat), at + 1)
  }

  /** What a number becomes by being written and read back. */
  function StoredSingle(bits: nat): nat {
    match WholeOf(bits)
    case Some(n) => BitsOf(n % 256)
    case None => bits
  }

  lemma SingleReadsBack(c: seq<byte>, at: nat, bits: nat)
    requires bits < TWO32 && LiesAt(c, at, WriteSingle(bits))
    ensures ReadSingle(c, at) == Ok(StoredSingle(bits), at + |WriteSingle(bits)|)
  {
    hide BitsOf;
    assert c[at] == WriteSingle(bits)[0];
    if WholeOf(bits) == None {
      Powers();
      LiesAtSplit(c, at, [0x80], ToLittleEndian(bits, 4));
      FixedReadsBack(c, at + 1, bits, 4);
    }
  }

  /** A whole number with its sign bit set: -127 to -1 and minus zero. */
  predicate NegativeWhole(bits: nat) {
    bits >= TWO31 && WholeOf(bits).Some?
  }

  /** Exactly these come back as other numbers. */
  lemma SingleStoredIff(bits: nat)
    requires bits < TWO32
    ensures StoredSingle(bits) == bits <==> !NegativeWhole(bits)
  {
    if bits < TWO31 && WholeOf(bits).Some? {
      hide OneIn, BitsOf;
      var exponent := bits / 0x80_0000 % 0x100;
      assert bits == exponent * 0x80_0000 + bits % 0x80_0000;
      if exponent != 0 { WholeBits(exponent, bits % 0x80_0000, WholeOf(bits).value); }
    }
  }

  lemma WholeBits(exponent: nat, fraction: nat, n: nat)
    requires 127 <= exponent <= 133 && fraction < 0x80_0000
    requires (0x80_0000 + fraction) % OneIn(exponent) == 0 && n == (0x80_0000 + fraction) / OneIn(exponent)
    ensures 0 < n < 128 && BitsOf(n) == exponent * 0x80_0000 + fraction
  {
    assert n * OneIn(exponent) == 0x80_0000 + fraction;
  }

  // ---------------------------------------------------------------- strings

  predicate High(u: unit) { 0xD800 <= u <= 0xDBFF }
  predicate Low(u: unit) { 0xDC00 <= u <= 0xDFFF }

  /** Every surrogate is part of a high-low pair. */
  predicate WellFormed(s: WString) {
    s == [] ||
    if High(s[0]) then |s| >= 2 && Low(s[1]) && WellFormed(s[2..]) else !Low(s[0]) && WellFormed(s[1..])
  }

  /** `Encoding.Unicode` in both directions: a surrogate without its partner becomes U+FFFD. */
  function Repaired(s: WString): (r: WString)
    ensures |r| == |s|
  {
    if s == [] then []
    else if High(s[0]) && |s| >= 2 && Low(s[1]) then s[..2] + Repaired(s[2..])
    else [if High(s[0]) || Low(s[0]) then 0xFFFD else s[0]] + Repaired(s[1..])
  }

  lemma {:induction false} RepairedIsWellFormed(s: WString)
    ensures WellFormed(Repaired(s))
    ensures Repaired(s) == s <==> WellFormed(s)
  {
    if s != [] {
      if High(s[0]) && |s| >= 2 && Low(s[1]) {
        RepairedIsWellFormed(s[2..]);
        assert Repaired(s)[2..] == Repaired(s[2..]) && s == s[..2] + s[2..];
      } else {
        RepairedIsWellFormed(s[1..]);
        assert Repaired(s)[1..] == Repaired(s[1..]) && s == [s[0]] + s[1..];
      }
    }
  }

  /** The writer's test for its one-byte form. */
  predicate OneByte(s: WString) {
    forall i :: 0 <= i < |s| ==> s[i] <= 0xFF
  }

  /** `Encoding.ASCII` in both directions: anything above 0x7F becomes '?'. */
  function Ascii(s: WString): (r: WString)
    ensures |r| == |s| && forall i :: 0 <= i < |r| ==> r[i] == if s[i] < 0x80 then s[i] else 0x3F
  {
    seq(|s|, i requires 0 <= i < |s| => if s[i] < 0x80 then s[i] else 0x3F)
  }

  /** What a string becomes by being written and read back. */
  function Stored(s: WString): (r: WString)
    ensures |r| == |s|
  {
    if OneByte(s) then Ascii(s) else Repaired(s)
  }

  /** The strings the format can hold. */
  predicate Storable(s: WString) {
    (forall i :: 0 <= i < |s| ==> s[i] < 0x80) || (!OneByte(s) && WellFormed(s))
  }

  lemma StoredIffStorable(s: WString)
    ensures Stored(s) == s <==> Storable(s)
  {
    RepairedIsWellFormed(s);
    if OneByte(s) && Ascii(s) == s {
      forall i | 0 <= i < |s| ensures s[i] < 0x80 { assert Ascii(s)[i] == s[i]; }
    }
  }

  // ---------------------------------------------------------------- string layout

  function LengthOf(s: WString): int {
    if OneByte(s) then -|s| else |s|
  }

  /** 127 and 0x80 announce a four-byte length. */
  function WriteLength(length: int): (bytes: seq<byte>)
    requires -MAX_LENGTH <= length <= MAX_LENGTH
    ensures |bytes| == if -128 < length < 127 then 1 else 5
  {
    Powers();
    if length >= 127 then [127] + WriteSigned(length, 4)
    else if length <= -128 then [0x80] + WriteSigned(-length, 4)
    else [(length % 256) as byte]
  }

  /** Mask of the i-th one-byte character, counted up from 0xAA in a byte. */
  function AsciiMask(i: nat): byte {
    ((0xAA + i) % 0x100) as byte
  }

  /** The i-th two-byte mask, counted up from 0xAAAA in 16 bits. */
  function UnicodeMask(i: nat): (mask: nat)
    ensures mask < 0x1_0000
  {
    (0xAAAA + i) % 0x1_0000
  }

  function MaskPair(u: unit, mask: nat): (pair: seq<byte>)
    requires mask < 0x1_0000
    ensures |pair| == 2
  {
    [Xor((u as int % 256) as byte, (mask % 256) as byte), Xor((u as int / 256) as byte, (mask / 256) as byte)]
  }

  function UnmaskPair(low: byte, high: byte, mask: nat): unit
    requires mask < 0x1_0000
  {
    (Xor(low, (mask % 256) as byte) as int + 256 * Xor(high, (mask / 256) as byte) as int) as unit
  }

  lemma PairTwice(u: unit, mask: nat)
    requires mask < 0x1_0000
    ensures UnmaskPair(MaskPair(u, mask)[0], MaskPair(u, mask)[1], mask) == u
  {
    XorTwice((u as int % 256) as byte, (mask % 256) as byte);
    XorTwice((u as int / 256) as byte, (mask / 256) as byte);
  }

  function MaskedAscii(s: WString): (bytes: seq<byte>)
    ensures |bytes| == |s|
  {
    seq(|s|, i requires 0 <= i < |s| => Xor(Ascii(s)[i] as byte, AsciiMask(i)))
  }

  /** Two-byte text from unit `i` on. */
  function MaskedFrom(plain: WString, i: nat): (bytes: seq<byte>)
    requires i <= |plain|
    ensures |bytes| == 2 * (|plain| - i)
    decreases |plain| - i
  {
    if i == |plain| then [] else MaskPair(plain[i], UnicodeMask(i)) + MaskedFrom(plain, i + 1)
  }

  function UnmaskedFrom(text: seq<byte>, i: nat): (s: WString)
    requires |text| % 2 == 0
    ensures |s| == |text| / 2
    decreases |text|
  {
    if text == [] then [] else [UnmaskPair(text[0], text[1], UnicodeMask(i))] + UnmaskedFrom(text[2..], i + 1)
  }

  function TextOf(s: WString): (text: seq<byte>)
    ensures |text| == if OneByte(s) then |s| else 2 * |s|
  {
    if OneByte(s) then MaskedAscii(s) else MaskedFrom(Repaired(s), 0)
  }

  function WriteString(s: WString): seq<byte>
    requires |s| <= MAX_LENGTH
  {
    WriteLength(LengthOf(s)) + TextOf(s)
  }

  function UnmaskedAscii(text: seq<byte>): (s: WString)
    ensures |s| == |text|
  {
    Ascii(seq(|text|, i requires 0 <= i < |text| => Xor(text[i], AsciiMask(i)) as unit))
  }

  /** 32-bit product by two, as the reader computes it. */
  function Doubled(n: int): int
    requires Int32(n)
  {
    if 2 * n >= TWO31 then 2 * n - TWO32 else if 2 * n < -TWO31 then 2 * n + TWO32 else 2 * n
  }

  /** The text length in bytes that a length prefix announces, and whether it is two-byte text. */
  function ReadLength(c: seq<byte>, at: nat): (r: Read<(int, bool)>)
    ensures r.Ok? ==> at < r.next <= |c| && (r.value.1 ==> r.value.0 % 2 == 0)
  {
    Powers();
    match ReadSByte(c, at)
    case Fail => Fail
    case Ok(short, next) =>
      if short > 0 then
        if short == 127 then
          match ReadFixed(c, next, 4)
          case Fail => Fail
          case Ok(v, after) => LittleEndianBounded(c[next..next + 4]); Ok((Doubled(Signed(v, 4)), true), after)
        else Ok((2 * short, true), next)
      else if short == -128 then
        match ReadSigned(c, next, 4)
        case Fail => Fail
        case Ok(length, after) => Ok((length, false), after)
      else Ok((-short, false), next)
  }

  /** One-byte text may be cut short by the end of the stream; two-byte text may not. */
  function ReadText(c: seq<byte>, at: nat, length: int, wide: bool): (r: Read<WString>)
    requires at <= |c| && (wide ==> length % 2 == 0)
    ensures r.Ok? ==> at <= r.next <= |c|
  {
    if length < 0 then Fail
    else if wide then
      if at + length <= |c| then Ok(Repaired(UnmaskedFrom(c[at..at + length], 0)), at + length) else Fail
    else
      var end := if at + length <= |c| then at + length else |c|;
      Ok(UnmaskedAscii(c[at..end]), end)
  }

  function ReadString(c: seq<byte>, at: nat): (r: Read<WString>)
    ensures r.Ok? ==> at < r.next <= |c|
  {
    match ReadLength(c, at)
    case Fail => Fail
    case Ok((length, wide), next) => ReadText(c, next, length, wide)
  }

  lemma UnmaskAscii(s: WString)
    requires OneByte(s)
    ensures UnmaskedAscii(MaskedAscii(s)) == Ascii(s)
  {
    forall i | 0 <= i < |s| ensures UnmaskedAscii(MaskedAscii(s))[i] == Ascii(s)[i] {
      XorTwice(Ascii(s)[i] as byte, AsciiMask(i));
    }
  }

  lemma {:induction false} UnmaskUnits(plain: WString, i: nat)
    requires i <= |plain|
    ensures UnmaskedFrom(MaskedFrom(plain, i), i) == plain[i..]
    decreases |plain| - i
  {
    if i < |plain| {
      var text := MaskedFrom(plain, i);
      UnmaskUnits(plain, i + 1);
      PairTwice(plain[i], UnicodeMask(i));
      assert text[2..] == MaskedFrom(plain, i + 1);
    }
  }

  lemma UnmaskUnicode(plain: WString)
    requires WellFormed(plain)
    ensures Repaired(UnmaskedFrom(MaskedFrom(plain, 0), 0)) == plain
  {
    UnmaskUnits(plain, 0);
    RepairedIsWellFormed(plain);
    assert plain[0..] == plain;
  }

  lemma LengthReadsBack(c: seq<byte>, at: nat, length: int)
    requires -MAX_LENGTH <= length <= MAX_LENGTH && LiesAt(c, at, WriteLength(length))
    ensures ReadLength(c, at) ==
      Ok(if length > 0 then (2 * length, true) else (-length, false), at + |WriteLength(length)|)
  {
    Powers();
    assert c[at] == WriteLength(length)[0];
    if length >= 127 {
      LiesAtSplit(c, at, [127], WriteSigned(length, 4));
      FixedReadsBack(c, at + 1, length, 4);
    } else if length <= -128 {
      LiesAtSplit(c, at, [0x80], WriteSigned(-length, 4));
      SignedReadsBack(c, at + 1, -length, 4);
    }
  }

  lemma TextReadsBack(c: seq<byte>, at: nat, text: seq<byte>, wide: bool)
    requires LiesAt(c, at, text) && (wide ==> |text| % 2 == 0)
    ensures ReadText(c, at, |text|, wide) ==
      Ok(if wide then Repaired(UnmaskedFrom(text, 0)) else UnmaskedAscii(text), at + |text|)
  {
    assert c[at..at + |text|] == text;
  }

  lemma StringPartsReadBack(c: seq<byte>, at: nat, length: int, text: seq<byte>)
    requires -MAX_LENGTH <= length <= MAX_LENGTH && LiesAt(c, at, WriteLength(length) + text)
    requires |text| == if length > 0 then 2 * length else -length
    ensures ReadString(c, at) ==
      Ok(if length > 0 then Repaired(UnmaskedFrom(text, 0)) else UnmaskedAscii(text), at + |WriteLength(length) + text|)
  {
    LiesAtSplit(c, at, WriteLength(length), text);
    LengthReadsBack(c, at, length);
    TextReadsBack(c, at + |WriteLength(length)|, text, length > 0);
  }

  /** A written string reads back as what the format can store of it. */
  lemma StringReadsBack(c: seq<byte>, at: nat, s: WString)
    requires |s| <= MAX_LENGTH && LiesAt(c, at, WriteString(s))
    ensures ReadString(c, at) == Ok(Stored(s), at + |WriteString(s)|)
  {
    StringPartsReadBack(c, at, LengthOf(s), TextOf(s));
    if OneByte(s) {
      UnmaskAscii(s);
    } else {
      RepairedIsWellFormed(s);
      UnmaskUnicode(Repaired(s));
    }
  }
}
