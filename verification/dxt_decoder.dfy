/** The DXT3 and DXT5 block decoders of `Tools/PKG1/WZReader.cs`.  Colours are looked up in a palette
    function of the block's two end colours, whose floating-point arithmetic is not modelled. */
module DxtDecoder {
  import opened Bytes

  datatype Color = Color(r: byte, g: byte, b: byte)

  /** The colour of an index between two packed end colours. */
  type Palette = (nat, nat, nat) -> Color

  // ---------------------------------------------------------------- octal digits

  /** The `k`-th group of three bits. */
  function Octal(v: nat, k: nat): (digit: nat)
    ensures digit < 8
  {
    if k == 0 then v % 8 else Octal(v / 8, k - 1)
  }

  function Power8(n: nat): nat {
    if n == 0 then 1 else 8 * Power8(n - 1)
  }

  lemma EighthOfSum(low: nat, x: nat)
    ensures (low + 8 * x) / 8 == low / 8 + x && (low + 8 * x) % 8 == low % 8
  {}

  lemma {:induction false} LowDigits(low: nat, high: nat, n: nat, k: nat)
    requires k < n
    ensures Octal(low + Power8(n) * high, k) == Octal(low, k)
  {
    var x := Power8(n - 1) * high;
    assert Power8(n) * high == 8 * x;
    EighthOfSum(low, x);
    if k > 0 { LowDigits(low / 8, high, n - 1, k - 1); }
  }

  lemma {:induction false} HighDigits(low: nat, high: nat, n: nat, k: nat)
    requires low < Power8(n)
    ensures Octal(low + Power8(n) * high, n + k) == Octal(high, k)
  {
    if n > 0 {
      var x := Power8(n - 1) * high;
      assert Power8(n) * high == 8 * x;
      EighthOfSum(low, x);
      HighDigits(low / 8, high, n - 1, k);
    }
  }

  lemma Power8Is()
    ensures Power8(8) == 0x100_0000
  {
    assert Power8(4) == 4096;
  }

  // ---------------------------------------------------------------- alpha

  /** The eight alphas of a DXT5 block, before they are cast to a byte. */
  function AlphaValue(a0: int, a1: int, i: int): int {
    if i == 0 then a0
    else if i == 1 then a1
    else if a0 > a1 then ((8 - i) * a0 + (i - 1) * a1 + 3) / 7
    else if i < 6 then ((6 - i) * a0 + (i - 1) * a1 + 2) / 5
    else if i == 6 then 0 else 255
  }

  /** Interpolated alphas lie between the two end points. */
  lemma AlphaIsBetween(a0: byte, a1: byte, i: nat)
    requires i < 8 && (a0 > a1 || i < 6)
    ensures (if a0 > a1 then a1 else a0) as int <= AlphaValue(a0 as int, a1 as int, i) <= (if a0 > a1 then a0 else a1) as int
  {
    var x, y := a0 as int, a1 as int;
    if x > y {
      assert i >= 2 ==> 7 * y <= (8 - i) * x + (i - 1) * y <= 7 * x;
    } else {
      assert i >= 2 ==> 5 * x <= (6 - i) * x + (i - 1) * y <= 5 * y;
    }
  }

  function AlphaOf(a0: byte, a1: byte, i: nat): byte
    requires i < 8
  {
    if a0 > a1 || i < 6 then AlphaIsBetween(a0, a1, i); AlphaValue(a0 as int, a1 as int, i) as byte
    else AlphaValue(a0 as int, a1 as int, i) as byte
  }

  method ExpandAlphaTableDxt5(alpha: array<byte>, a0: byte, a1: byte)
    requires alpha.Length == 8
    modifies alpha
    ensures forall i :: 0 <= i < 8 ==> alpha[i] == AlphaOf(a0, a1, i)
  {
    var x, y := a0 as int, a1 as int;
    alpha[0], alpha[1] := a0, a1;
    if a0 > a1 {
      for i := 2 to 8
        invariant forall k :: 0 <= k < i ==> alpha[k] == AlphaOf(a0, a1, k)
      {
        AlphaIsBetween(a0, a1, i);
        alpha[i] := (((8 - i) * x + (i - 1) * y + 3) / 7) as byte;
      }
    } else {
      for i := 2 to 6
        invariant forall k :: 0 <= k < i ==> alpha[k] == AlphaOf(a0, a1, k)
      {
        AlphaIsBetween(a0, a1, i);
        alpha[i] := (((6 - i) * x + (i - 1) * y + 2) / 5) as byte;
      }
      alpha[6] := 0;
      alpha[7] := 255;
    }
  }

  function Three(raw: seq<byte>, at: nat): (v: nat)
    requires at + 3 <= |raw|
    ensures v < 0x100_0000
  {
    raw[at] as int + 0x100 * raw[at + 1] as int + 0x1_0000 * raw[at + 2] as int
  }

  /** The 48 bits of alpha indexes, least significant byte first. */
  function Field(raw: seq<byte>, at: nat): nat
    requires at + 6 <= |raw|
  {
    FromLittleEndian(raw[at..at + 6])
  }

  lemma FieldIsTwoThrees(raw: seq<byte>, at: nat)
    requires at + 6 <= |raw|
    ensures Field(raw, at) == Three(raw, at) + 0x100_0000 * Three(raw, at + 3)
  {
    var s := raw[at..at + 6];
    assert FromLittleEndian(s) == s[0] as int + 256 * FromLittleEndian(s[1..]);
    assert FromLittleEndian(s[1..]) == s[1] as int + 256 * FromLittleEndian(s[2..]);
    assert FromLittleEndian(s[2..]) == s[2] as int + 256 * FromLittleEndian(s[3..]);
    assert FromLittleEndian(s[3..]) == s[3] as int + 256 * FromLittleEndian(s[4..]);
    assert FromLittleEndian(s[4..]) == s[4] as int + 256 * FromLittleEndian(s[5..]);
    assert FromLittleEndian(s[5..]) == s[5] as int + 256 * FromLittleEndian(s[6..]);
    assert s[6..] == [];
  }

  /** Digit `i + j` of the whole field is digit `j` of its half. */
  lemma FieldDigit(raw: seq<byte>, at: nat, half: nat, j: nat)
    requires at + 6 <= |raw| && half < 2 && j < 8
    ensures Octal(Field(raw, at), 8 * half + j) == Octal(Three(raw, at + 3 * half), j)
  {
    FieldIsTwoThrees(raw, at);
    Power8Is();
    if half == 0 {
      LowDigits(Three(raw, at), Three(raw, at + 3), 8, j);
    } else {
      HighDigits(Three(raw, at), Three(raw, at + 3), 8, j);
    }
  }

  method ExpandAlphaIndexTableDxt5(alphaIndex: array<nat>, raw: seq<byte>, offset: nat)
    requires alphaIndex.Length == 16 && offset + 6 <= |raw|
    modifies alphaIndex
    ensures forall k :: 0 <= k < 16 ==> alphaIndex[k] == Octal(Field(raw, offset), k)
  {
    for half := 0 to 2
      invariant forall k :: 0 <= k < 8 * half ==> alphaIndex[k] == Octal(Field(raw, offset), k)
    {
      var flags := Three(raw, offset + 3 * half);
      for j := 0 to 8
        invariant forall k :: 0 <= k < 8 * half + j ==> alphaIndex[k] == Octal(Field(raw, offset), k)
      {
        FieldDigit(raw, offset, half, j);
        hide Octal, Field, Three;
        alphaIndex[8 * half + j] := Octal(flags, j);
      }
    }
  }

  /** The sixteen alphas of a DXT3 block: four bits each, low half of a byte first, spread to eight. */
  function Alpha3(raw: seq<byte>, offset: nat, k: nat): byte
    requires offset + 8 <= |raw| && k < 16
  {
    var pair := raw[offset + k / 2];
    (17 * if k % 2 == 0 then pair as int % 16 else pair as int / 16) as byte
  }

  method ExpandAlphaTableDxt3(alpha: array<byte>, raw: seq<byte>, offset: nat)
    requires alpha.Length == 16 && offset + 8 <= |raw|
    modifies alpha
    ensures forall k :: 0 <= k < 16 ==> alpha[k] == Alpha3(raw, offset, k)
  {
    for i := 0 to 8
      invariant forall k :: 0 <= k < 2 * i ==> 17 * alpha[k] as int == Alpha3(raw, offset, k) as int
    {
      alpha[2 * i] := (raw[offset + i] as int % 16) as byte;
      alpha[2 * i + 1] := (raw[offset + i] as int / 16) as byte;
    }
    for i := 0 to 16
      invariant forall k :: 0 <= k < i ==> alpha[k] == Alpha3(raw, offset, k)
      invariant forall k :: i <= k < 16 ==> 17 * alpha[k] as int == Alpha3(raw, offset, k) as int
    {
      alpha[i] := (alpha[i] as int + 16 * alpha[i] as int) as byte;
    }
  }

  // ---------------------------------------------------------------- colour

  /** Two bits for each pixel, a byte for each row, lowest bits first. */
  function ColorIndex(raw: seq<byte>, offset: nat, k: nat): (index: nat)
    requires offset + 4 <= |raw| && k < 16
    ensures index < 4
  {
    var row := raw[offset + k / 4] as int;
    match k % 4
    case 0 => row % 4
    case 1 => row / 4 % 4
    case 2 => row / 16 % 4
    case _ => row / 64
  }

  method ExpandColorIndexTable(colorIndex: array<nat>, raw: seq<byte>, offset: nat)
    requires colorIndex.Length == 16 && offset + 4 <= |raw|
    modifies colorIndex
    ensures forall k :: 0 <= k < 16 ==> colorIndex[k] == ColorIndex(raw, offset, k)
  {
    for r := 0 to 4
      invariant forall k :: 0 <= k < 4 * r ==> colorIndex[k] == ColorIndex(raw, offset, k)
    {
      var row := raw[offset + r] as int;
      var i := 4 * r;
      colorIndex[i], colorIndex[i + 1], colorIndex[i + 2], colorIndex[i + 3] := row % 4, row / 4 % 4, row / 16 % 4, row / 64;
    }
  }

  function Packed(raw: seq<byte>, at: nat): nat
    requires at + 2 <= |raw|
  {
    raw[at] as int + 256 * raw[at + 1] as int
  }

  /** The colour of pixel `k` of the block at `offset`. */
  function ColorOf(raw: seq<byte>, offset: nat, k: nat, palette: Palette): Color
    requires offset + 16 <= |raw| && k < 16
  {
    palette(Packed(raw, offset + 8), Packed(raw, offset + 10), ColorIndex(raw, offset + 12, k))
  }

  // ---------------------------------------------------------------- pixels

  datatype Pixel = Pixel(color: Color, alpha: byte)

  function Texel(p: Pixel): (t: seq<byte>)
    ensures |t| == 4
  {
    [p.color.b, p.color.g, p.color.r, p.alpha]
  }

  function Index(width: nat, x: nat, y: nat): nat {
    (y * width + x) * 4
  }

  /** The four bytes of a pixel. */
  function At(pixels: seq<byte>, width: nat, x: nat, y: nat): seq<byte> {
    if Index(width, x, y) + 4 <= |pixels| then pixels[Index(width, x, y)..Index(width, x, y) + 4] else []
  }

  lemma IndexInside(width: nat, height: nat, x: nat, y: nat)
    requires x < width && y < height
    ensures Index(width, x, y) + 4 <= width * height * 4
  {
    assert y * width + width <= height * width by { RowsBelow(y, height, width); }
  }

  lemma RowsBelow(y: nat, height: nat, width: nat)
    requires y < height
    ensures y * width + width <= height * width
  {
    var d: nat := height - y - 1;
    assert height * width == (y + 1 + d) * width == (y + 1) * width + d * width == y * width + width + d * width;
  }

  /** Different pixels have different bytes. */
  lemma IndexApart(width: nat, x: nat, y: nat, u: nat, v: nat)
    requires x < width && u < width && (x != u || y != v)
    ensures Index(width, x, y) + 4 <= Index(width, u, v) || Index(width, u, v) + 4 <= Index(width, x, y)
  {
    if y < v { RowsBelow(y, v, width); } else if v < y { RowsBelow(v, y, width); }
  }

  method SetPixel(pixel: array<byte>, x: nat, y: nat, width: nat, height: nat, color: Color, alpha: byte)
    requires pixel.Length == width * height * 4 && x < width && y < height
    modifies pixel
    ensures At(pixel[..], width, x, y) == Texel(Pixel(color, alpha))
    ensures forall u: nat, v: nat :: u < width && v < height && (u != x || v != y) ==> At(pixel[..], width, u, v) == At(old(pixel[..]), width, u, v)
  {
    IndexInside(width, height, x, y);
    hide Index;
    var offset := Index(width, x, y);
    pixel[offset], pixel[offset + 1], pixel[offset + 2], pixel[offset + 3] := color.b, color.g, color.r, alpha;
    forall u: nat, v: nat | u < width && v < height && (u != x || v != y) ensures At(pixel[..], width, u, v) == At(old(pixel[..]), width, u, v) {
      IndexInside(width, height, u, v);
      IndexApart(width, x, y, u, v);
    }
  }

  // ---------------------------------------------------------------- blocks

  /** One row of a block. */
  method PutRow(pixel: array<byte>, x: nat, y: nat, width: nat, height: nat, row: seq<Pixel>)
    requires pixel.Length == width * height * 4 && x + 4 <= width && y < height && |row| == 4
    modifies pixel
    ensures forall u: nat, v: nat :: u < width && v < height ==>
      At(pixel[..], width, u, v) == if v == y && x <= u < x + 4 then Texel(row[u - x]) else At(old(pixel[..]), width, u, v)
  {
    hide At, Texel;
    for i := 0 to 4
      invariant forall u: nat, v: nat :: u < width && v < height ==>
        At(pixel[..], width, u, v) == if v == y && x <= u < x + i then Texel(row[u - x]) else At(old(pixel[..]), width, u, v)
    {
      SetPixel(pixel, x + i, y, width, height, row[i].color, row[i].alpha);
    }
  }

  predicate InBlock(x: nat, y: nat, u: nat, v: nat) {
    x <= u < x + 4 && y <= v < y + 4
  }

  /** A block of four rows: its sixteen pixels are written and no others. */
  method PutBlock(pixel: array<byte>, x: nat, y: nat, width: nat, height: nat, block: seq<Pixel>)
    requires pixel.Length == width * height * 4 && x + 4 <= width && y + 4 <= height && |block| == 16
    modifies pixel
    ensures forall u: nat, v: nat :: u < width && v < height ==>
      At(pixel[..], width, u, v) ==
      if InBlock(x, y, u, v) then Texel(block[4 * (v - y) + (u - x)]) else At(old(pixel[..]), width, u, v)
  {
    hide At, Texel;
    for j := 0 to 4
      invariant forall u: nat, v: nat :: u < width && v < height ==>
        At(pixel[..], width, u, v) ==
        if x <= u < x + 4 && y <= v < y + j then Texel(block[4 * (v - y) + (u - x)]) else At(old(pixel[..]), width, u, v)
    {
      PutRow(pixel, x, y + j, width, height, block[4 * j..4 * j + 4]);
    }
  }

  // ---------------------------------------------------------------- images

  /** Both formats take sixteen bytes for a block of sixteen pixels. */
  function BlockOffset(width: nat, x: nat, y: nat): nat {
    x * 4 + y * width
  }

  predicate Sized(raw: seq<byte>, width: nat, height: nat) {
    width % 4 == 0 && height % 4 == 0 && |raw| >= width * height
  }

  lemma BlockInside(raw: seq<byte>, width: nat, height: nat, x: nat, y: nat)
    requires Sized(raw, width, height) && x + 4 <= width && y + 4 <= height
    ensures BlockOffset(width, x, y) + 16 <= |raw|
  {
    assert (y + 4) * width <= height * width by { if y + 4 < height { RowsBelow(y + 4, height, width); } }
    assert (y + 4) * width == y * width + 4 * width;
  }

  function Pixel5(raw: seq<byte>, offset: nat, k: nat, palette: Palette): Pixel
    requires offset + 16 <= |raw| && k < 16
  {
    Pixel(ColorOf(raw, offset, k, palette), AlphaOf(raw[offset], raw[offset + 1], Octal(Field(raw, offset + 2), k)))
  }

  function Pixel3(raw: seq<byte>, offset: nat, k: nat, palette: Palette): Pixel
    requires offset + 16 <= |raw| && k < 16
  {
    Pixel(ColorOf(raw, offset, k, palette), Alpha3(raw, offset, k))
  }

  datatype Format = Dxt3 | Dxt5

  /** What the decoders show at a point of the image: the pixel of the block the point is in. */
  function Shown(format: Format, raw: seq<byte>, width: nat, height: nat, u: nat, v: nat, palette: Palette): Pixel
    requires Sized(raw, width, height) && u < width && v < height
  {
    var offset, k := BlockOffset(width, u / 4 * 4, v / 4 * 4), 4 * (v % 4) + u % 4;
    BlockInside(raw, width, height, u / 4 * 4, v / 4 * 4);
    if format == Dxt3 then Pixel3(raw, offset, k, palette) else Pixel5(raw, offset, k, palette)
  }

  method Block5(raw: seq<byte>, offset: nat, palette: Palette) returns (block: seq<Pixel>)
    requires offset + 16 <= |raw|
    ensures |block| == 16 && forall k :: 0 <= k < 16 ==> block[k] == Pixel5(raw, offset, k, palette)
  {
    var alphaTable, alphaIdxTable, colorIdxTable := new byte[8], new nat[16], new nat[16];
    ExpandAlphaTableDxt5(alphaTable, raw[offset], raw[offset + 1]);
    ExpandAlphaIndexTableDxt5(alphaIdxTable, raw, offset + 2);
    ExpandColorIndexTable(colorIdxTable, raw, offset + 12);
    var u0, u1 := Packed(raw, offset + 8), Packed(raw, offset + 10);
    block := [];
    hide AlphaOf, Octal, Field, ColorIndex, Packed;
    for k := 0 to 16
      invariant |block| == k && forall l :: 0 <= l < k ==> block[l] == Pixel5(raw, offset, l, palette)
    {
      block := block + [Pixel(palette(u0, u1, colorIdxTable[k]), alphaTable[alphaIdxTable[k]])];
    }
  }

  method Block3(raw: seq<byte>, offset: nat, palette: Palette) returns (block: seq<Pixel>)
    requires offset + 16 <= |raw|
    ensures |block| == 16 && forall k :: 0 <= k < 16 ==> block[k] == Pixel3(raw, offset, k, palette)
  {
    var alphaTable, colorIdxTable := new byte[16], new nat[16];
    ExpandAlphaTableDxt3(alphaTable, raw, offset);
    ExpandColorIndexTable(colorIdxTable, raw, offset + 12);
    var u0, u1 := Packed(raw, offset + 8), Packed(raw, offset + 10);
    block := [];
    hide Alpha3, ColorIndex, Packed;
    for k := 0 to 16
      invariant |block| == k && forall l :: 0 <= l < k ==> block[l] == Pixel3(raw, offset, l, palette)
    {
      block := block + [Pixel(palette(u0, u1, colorIdxTable[k]), alphaTable[k])];
    }
  }

  lemma InBlockMeans(x: nat, y: nat, u: nat, v: nat)
    requires x % 4 == 0 && y % 4 == 0 && InBlock(x, y, u, v)
    ensures u / 4 * 4 == x && v / 4 * 4 == y && v % 4 == v - y && u % 4 == u - x
  {}

  /** The points of the blocks before the one at (x, y). */
  predicate Earlier(x: nat, y: nat, u: nat, v: nat) {
    v < y || (v < y + 4 && u < x)
  }

  /** `GetPixelDataDxt3` and `GetPixelDataDxt5`: every pixel of the image is the one its block gives. */
  method GetPixelData(format: Format, raw: seq<byte>, width: nat, height: nat, palette: Palette) returns (pixel: array<byte>)
    requires Sized(raw, width, height)
    ensures fresh(pixel) && pixel.Length == width * height * 4
    ensures forall u: nat, v: nat :: u < width && v < height ==>
      At(pixel[..], width, u, v) == Texel(Shown(format, raw, width, height, u, v, palette))
  {
    pixel := new byte[width * height * 4](_ => 0);
    hide At, Texel, Shown;
    var y := 0;
    while y < height
      invariant y % 4 == 0 && y <= height
      invariant forall u: nat, v: nat :: u < width && v < height && Earlier(0, y, u, v) ==>
        At(pixel[..], width, u, v) == Texel(Shown(format, raw, width, height, u, v, palette))
    {
      var x := 0;
      while x < width
        invariant x % 4 == 0 && x <= width
        invariant forall u: nat, v: nat :: u < width && v < height && Earlier(x, y, u, v) ==>
          At(pixel[..], width, u, v) == Texel(Shown(format, raw, width, height, u, v, palette))
      {
        OneBlock(pixel, format, raw, x, y, width, height, palette);
        x := x + 4;
      }
      y := y + 4;
    }
  }

  method OneBlock(pixel: array<byte>, format: Format, raw: seq<byte>, x: nat, y: nat, width: nat, height: nat, palette: Palette)
    requires Sized(raw, width, height) && pixel.Length == width * height * 4
    requires x % 4 == 0 && y % 4 == 0 && x < width && y < height
    modifies pixel
    ensures forall u: nat, v: nat :: u < width && v < height ==>
      At(pixel[..], width, u, v) ==
      if InBlock(x, y, u, v) then Texel(Shown(format, raw, width, height, u, v, palette)) else At(old(pixel[..]), width, u, v)
  {
    BlockInside(raw, width, height, x, y);
    var block;
    if format == Dxt3 {
      block := Block3(raw, BlockOffset(width, x, y), palette);
    } else {
      block := Block5(raw, BlockOffset(width, x, y), palette);
    }
    forall u: nat, v: nat | u < width && v < height && InBlock(x, y, u, v)
      ensures block[4 * (v - y) + (u - x)] == Shown(format, raw, width, height, u, v, palette)
    {
      InBlockMeans(x, y, u, v);
      hide Pixel3, Pixel5;
    }
    hide At, Texel, Shown, BlockOffset;
    PutBlock(pixel, x, y, width, height, block);
  }

  // ---------------------------------------------------------------- the decoders in numbers

  /** The alphas of a DXT5 block: the two end points, then the weighted means rounded to the nearest whole
      number, in sevenths when the first end point is the larger, and otherwise in fifths with 0 and 255
      behind them. */
  lemma AlphaIsNearestMean(a0: byte, a1: byte, i: nat)
    requires i < 8
    ensures var a, x, y := AlphaOf(a0, a1, i) as int, a0 as int, a1 as int;
      && (i == 0 ==> a == x) && (i == 1 ==> a == y)
      && (i >= 2 && x > y ==> -3 <= 7 * a - ((8 - i) * x + (i - 1) * y) <= 3)
      && (2 <= i < 6 && x <= y ==> -2 <= 5 * a - ((6 - i) * x + (i - 1) * y) <= 2)
      && (i == 6 && x <= y ==> a == 0) && (i == 7 && x <= y ==> a == 255)
  {
    var x, y := a0 as int, a1 as int;
    var sum7, sum5 := (8 - i) * x + (i - 1) * y + 3, (6 - i) * x + (i - 1) * y + 2;
    assert 7 * (sum7 / 7) <= sum7 < 7 * (sum7 / 7) + 7;
    assert 5 * (sum5 / 5) <= sum5 < 5 * (sum5 / 5) + 5;
  }

  function FromOctal(d: seq<nat>): nat {
    if d == [] then 0 else d[0] + 8 * FromOctal(d[1..])
  }

  predicate Digits(d: seq<nat>) {
    forall i :: 0 <= i < |d| ==> d[i] < 8
  }

  lemma {:induction false} OctalOf(d: seq<nat>, k: nat)
    requires Digits(d) && k < |d|
    ensures Octal(FromOctal(d), k) == d[k]
    decreases k
  {
    EighthOfSum(d[0], FromOctal(d[1..]));
    if k > 0 { OctalOf(d[1..], k - 1); }
  }

  lemma FourDigits(d: seq<nat>)
    requires |d| >= 4
    ensures FromOctal(d) == d[0] + 8 * d[1] + 64 * d[2] + 512 * d[3] + 4096 * FromOctal(d[4..])
  {
    assert d[1..][1..] == d[2..] && d[2..][1..] == d[3..] && d[3..][1..] == d[4..];
  }

  /** The alpha indexes of eight pixels, three bits each, fill three bytes from the lowest bit on. */
  lemma IndexBits(raw: seq<byte>, at: nat, d: seq<nat>, k: nat)
    requires at + 3 <= |raw| && |d| == 8 && Digits(d) && k < 8
    requires raw[at] as nat == d[0] + 8 * d[1] + 64 * (d[2] % 4)
    requires raw[at + 1] as nat == d[2] / 4 + 2 * d[3] + 16 * d[4] + 128 * (d[5] % 2)
    requires raw[at + 2] as nat == d[5] / 2 + 4 * d[6] + 32 * d[7]
    ensures Octal(Three(raw, at), k) == d[k]
  {
    FourDigits(d);
    FourDigits(d[4..]);
    assert FromOctal(d[4..][4..]) == 0;
    assert Three(raw, at) == FromOctal(d);
    OctalOf(d, k);
  }

  lemma Quarters(k: nat, row: nat, c: nat)
    requires k == 4 * row + c && c < 4
    ensures k / 4 == row && k % 4 == c
  {}

  /** Two bits for each pixel of a row, lowest first. */
  lemma RowOfIndexes(raw: seq<byte>, offset: nat, row: nat, k: nat)
    requires offset + 4 <= |raw| && row < 4 && k == 4 * row
    ensures raw[offset + row] as int == ColorIndex(raw, offset, k) + 4 * ColorIndex(raw, offset, k + 1)
        + 16 * ColorIndex(raw, offset, k + 2) + 64 * ColorIndex(raw, offset, k + 3)
  {
    Quarters(k, row, 0);
    Quarters(k + 1, row, 1);
    Quarters(k + 2, row, 2);
    Quarters(k + 3, row, 3);
    FourPairs(raw[offset + row] as nat);
  }

  lemma FourPairs(b: nat)
    requires b < 256
    ensures b == b % 4 + 4 * (b / 4 % 4) + 16 * (b / 16 % 4) + 64 * (b / 64)
  {
    var c, d := b / 4, b / 16;
    assert b == 4 * c + b % 4;
    assert c / 4 == d && c == 4 * d + c % 4;
    assert d / 4 == b / 64 && d == 4 * (d / 4) + d % 4;
  }

  /** Four bits of sixteen levels spread evenly over 256. */
  lemma NibbleIsSpread(raw: seq<byte>, offset: nat, i: nat)
    requires offset + 8 <= |raw| && i < 8
    ensures var low, high := Alpha3(raw, offset, 2 * i) as int, Alpha3(raw, offset, 2 * i + 1) as int;
      15 * low % 255 == 0 && 15 * high % 255 == 0 && raw[offset + i] as int == 15 * low / 255 + 16 * (15 * high / 255)
  {
    assert (2 * i) % 2 == 0 && (2 * i) / 2 == i && (2 * i + 1) % 2 == 1 && (2 * i + 1) / 2 == i;
  }

  /** The four bytes of a pixel: blue, green, red and alpha, row by row. */
  lemma BytesOfPixel(pixels: seq<byte>, width: nat, x: nat, y: nat, p: Pixel)
    requires At(pixels, width, x, y) == Texel(p)
    ensures var i := 4 * (y * width + x);
      && i + 4 <= |pixels|
      && pixels[i] == p.color.b && pixels[i + 1] == p.color.g && pixels[i + 2] == p.color.r && pixels[i + 3] == p.alpha
  {
    var i := Index(width, x, y);
    assert At(pixels, width, x, y) != [];
    assert pixels[i..i + 4][0] == pixels[i] && pixels[i..i + 4][1] == pixels[i + 1];
    assert pixels[i..i + 4][2] == pixels[i + 2] && pixels[i..i + 4][3] == pixels[i + 3];
  }

  /** Blocks of sixteen bytes, row by row. */
  lemma BlockOffsetIs(columns: nat, x: nat, y: nat)
    ensures BlockOffset(4 * columns, 4 * x, 4 * y) == 16 * (y * columns + x)
  {
    assert 4 * y * (4 * columns) == 16 * (y * columns);
  }

  lemma OffsetOf(width: nat, u: nat, v: nat, o: nat)
    requires width % 4 == 0 && o == 16 * (v / 4 * (width / 4) + u / 4)
    ensures BlockOffset(width, u / 4 * 4, v / 4 * 4) == o
  {
    var columns, x, y := width / 4, u / 4, v / 4;
    assert width == 4 * columns && u / 4 * 4 == 4 * x && v / 4 * 4 == 4 * y;
    hide BlockOffset;
    BlockOffsetIs(columns, x, y);
  }

  /** What is shown at a point, in the bytes of the block that the point is in. */
  lemma ShownIs(format: Format, raw: seq<byte>, width: nat, height: nat, u: nat, v: nat, palette: Palette, o: nat, k: nat)
    requires Sized(raw, width, height) && u < width && v < height
    requires o == 16 * (v / 4 * (width / 4) + u / 4) && k == 4 * (v % 4) + u % 4
    ensures o + 16 <= |raw| && k < 16
    ensures var shown := Shown(format, raw, width, height, u, v, palette);
      && shown.color == palette(raw[o + 8] as int + 256 * raw[o + 9] as int, raw[o + 10] as int + 256 * raw[o + 11] as int,
                                ColorIndex(raw, o + 12, k))
      && shown.alpha == if format == Dxt3 then Alpha3(raw, o, k) else AlphaOf(raw[o], raw[o + 1], Octal(Field(raw, o + 2), k))
  {
    BlockInside(raw, width, height, u / 4 * 4, v / 4 * 4);
    OffsetOf(width, u, v, o);
    hide BlockOffset, ColorIndex, Alpha3, AlphaOf, Octal, Field;
  }
}
