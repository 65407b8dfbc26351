/** A tree that comes back although it does not survive: behind a byte the reader takes a name of one
    wide character for a de-duplicated one, and the next bytes happen to point to that very name. */
module WzLookalikes {
  import opened Basics
  import opened Bytes
  import opened WzPrimitives
  import opened WzTree
  import opened WzRoundTrip
  import opened WzSurvival

  /** A name of one wide character whose masked text is 0x26, 0x00. */
  predicate Twin(name: WString) {
    |name| == 1 && name[0] == 0xAA8C
  }

  lemma TwinMask()
    ensures Xor(0x8C, 0xAA) == 0x26 && Xor(0xAA, 0xAA) == 0
  {
    hide *;
    MaskOfZero();
    XorTwice(0, 0xAA);
    NoBits(0, 0);
    XorStep(1, 1, 0, 0, 0, 0);
    XorStep(2, 2, 1, 1, 1, 0);
    XorStep(4, 5, 2, 2, 2, 0);
    XorStep(8, 10, 3, 4, 5, 1);
    XorStep(17, 21, 4, 8, 10, 2);
    XorStep(35, 42, 5, 17, 21, 4);
    XorStep(70, 85, 6, 35, 42, 9);
    XorOfBytes(0x8C, 0xAA, 70, 85, 19);
  }

  lemma TwinStored(name: WString)
    requires Twin(name)
    ensures !OneByte(name) && Repaired(name) == Stored(name) == name && LengthOf(name) == 1
  {
    assert name[1..] == [];
    assert WellFormed(name);
    RepairedIsWellFormed(name);
  }

  lemma TwinPair(u: unit, mask: nat)
    requires u == 0xAA8C && mask == 0xAAAA
    ensures MaskPair(u, mask) == [0x26, 0]
  {
    TwinMask();
    hide Xor;
  }

  lemma MaskedOne(name: WString, i: nat)
    requires i + 1 == |name|
    ensures MaskedFrom(name, i) == MaskPair(name[i], UnicodeMask(i))
  {
    hide MaskPair, UnicodeMask;
  }

  lemma WriteLengthOne(length: int)
    requires length == 1
    ensures WriteLength(length) == [1]
  {}

  lemma TwinBytes(name: WString)
    requires Twin(name)
    ensures |name| <= MAX_LENGTH && WriteString(name) == [1] + [0x26, 0] && Stored(name) == name && Lookalike(name)
  {
    TwinStored(name);
    FirstMasks();
    TwinPair(name[0], UnicodeMask(0));
    MaskedOne(name, 0);
    WriteLengthOne(LengthOf(name));
    hide OneByte, Stored, Repaired, MaskPair, UnicodeMask, WriteLength, LengthOf, MaskedFrom;
  }

  lemma Offset38(c: seq<byte>, at: nat)
    requires at + 4 <= |c| && c[at] == 0x26 && c[at + 1] == c[at + 2] == c[at + 3] == 0
    ensures ReadSigned(c, at, 4) == Ok(38, at + 4)
  {
    var bytes := c[at..at + 4];
    var zero: seq<byte> := [0];
    assert bytes == [0x26] + (zero + (zero + zero));
    assert FromLittleEndian(zero) == 0 by { assert zero[1..] == []; }
    assert FromLittleEndian(zero + zero) == 0 by { assert (zero + zero)[1..] == zero; }
    assert FromLittleEndian(zero + (zero + zero)) == 0 by { assert (zero + (zero + zero))[1..] == zero + zero; }
    assert bytes[1..] == zero + (zero + zero);
    Powers();
  }

  lemma TwinLies(c: seq<byte>, at: nat, text: seq<byte>)
    requires text == [1] + [0x26, 0] && LiesAt(c, at, [0] + text + [0])
    ensures at + 5 <= |c| && LiesAt(c, at + 1, text)
    ensures c[at + 1] == 1 && c[at + 2] == 0x26 && c[at + 3] == 0 && c[at + 4] == 0
  {
    hide *;
    assert [0] + text + [0] == [0] + (text + [0]);
    LiesAtSplit3(c, at, [0], text, [0]);
    LiesAtFirst(c, at + 4, 0, []);
    LiesAtFirst(c, at + 1, 1, [0x26, 0]);
    PairLies(c, at + 2, [0x26, 0]);
  }

  lemma SharedReads(c: seq<byte>, start: nat, at: nat, offset: nat, name: WString, end: nat)
    requires ReadSigned(c, at, 4) == Ok(offset, at + 4) && ReadString(c, start + offset) == Ok(name, end)
    ensures ReadShared(c, start, at) == Ok(name, at + 4)
  {
    hide ReadSigned, ReadString;
  }

  lemma ZeroIsNull(c: seq<byte>, start: nat, at: nat)
    requires at < |c| && c[at] == 0
    ensures ReadValue(c, start, at) == Ok(Null, at + 1)
  {
    hide ReadValue;
    NullAt(c, start, at);
  }

  /** One byte ahead, 38 bytes behind the start of the image, the reader finds a name that points to
      itself. */
  lemma TwinAhead(c: seq<byte>, start: nat, at: nat, name: WString)
    requires Twin(name) && at == start + 37 && at + 7 <= |c| && |name| <= MAX_LENGTH && LiesAt(c, at, WriteBlock(name) + [0])
    requires c[at + 5] == 0 && c[at + 6] == 0
    ensures ReadNode(c, start, at + 1) == Ok(Node(name, Null), at + 7)
  {
    hide *;
    TwinBytes(name);
    BlockShape(name);
    TwinLies(c, at, WriteString(name));
    StringReadsBack(c, at + 1, name);
    Offset38(c, at + 2);
    SharedReads(c, start, at + 2, 38, name, at + 1 + |WriteString(name)|);
    BlockParts(c, start, at + 1);
    ZeroIsNull(c, start, at + 6);
    ReadsNode(c, start, at + 1, at + 6, at + 7, name, Null);
  }

  lemma LetterLength(a: WString)
    requires |a| == 1 && a[0] < 0x80
    ensures |a| <= MAX_LENGTH && |WriteBlock(a)| == 3 && Storable(a)
  {
    assert OneByte(a) && LengthOf(a) == -1;
  }

  /** Two nodes as they are written. */
  lemma PairShape(m: Node, n: Node, ns: seq<Node>)
    requires ns == [m, n] && m.Node? && |m.name| <= MAX_LENGTH && ValidValue(m.value)
    requires n.Node? && |n.name| <= MAX_LENGTH && ValidValue(n.value)
    ensures ValidNodes(ns) && CountPresent(ns) == |ns|
    ensures WriteNodes(ns) == WriteBlock(m.name) + WriteValue(m.value) + (WriteBlock(n.name) + WriteValue(n.value))
    ensures WriteList(ns) == Compact(|ns|, 4) + WriteNodes(ns) && |Compact(|ns|, 4)| == 1
  {
    Powers();
    hide WriteBlock, WriteValue, ValidValue;
    assert ns[1..] == [n] && [n][1..] == [];
    assert ValidNodes(ns) && ValidNodes([n]);
    assert CountPresent(ns) == 2 by { assert CountPresent([n]) == 1; }
    assert WriteNodes([n]) == WriteNode(n) by { assert WriteNodes([n]) == WriteNode(n) + WriteNodes([]); }
  }

  lemma PairReads(c: seq<byte>, start: nat, at: nat, p: nat, q: nat, m: Node, n: Node)
    requires ReadNode(c, start, at) == Ok(m, p) && ReadNode(c, start, p) == Ok(n, q)
    ensures Gives(ReadNodes(c, start, at, |[m, n]|), [m, n])
  {
    hide ReadNode;
    var none: seq<Node> := [];
    assert ReadNodes(c, start, q, |none|) == Ok(none, q);
    ReadsMoreNodes(c, start, p, q, q, n, none);
    assert [n] + [] == [n] && [m] + [n] == [m, n];
    ReadsMoreNodes(c, start, at, p, q, m, [n]);
  }

  lemma PairListReads(c: seq<byte>, start: nat, at: nat, ns: seq<Node>)
    requires Int32(|ns|) && LiesAt(c, at, Compact(|ns|, 4)) && at + 4 < |c|
    requires Gives(ReadNodes(c, start, at + |Compact(|ns|, 4)|, |ns|), ns)
    ensures Gives(ReadList(c, start, at), ns)
  {
    hide ReadNodes, ReadList, ReadCompact, Compact, LiesAt;
    CompactBack(c, at, |ns|, 4);
    ListParts(c, start, at, |ns|, at + |Compact(|ns|, 4)|, ns);
  }

  /** A byte of value 0 comes back when another node follows, with the reader one byte ahead. */
  lemma ZeroByteBack(c: seq<byte>, start: nat, at: nat, name: WString, v: Value)
    requires |name| <= MAX_LENGTH && Storable(name) && v == ByteValue(0) && ValidValue(v)
    requires LiesAt(c, at, WriteBlock(name) + WriteValue(v)) && ByteAt(c, at + |WriteBlock(name)| + 1) == Some(0)
    ensures ReadNode(c, start, at) == Ok(Node(name, v), at + |WriteBlock(name)| + 2)
  {
    hide *;
    var p := at + |WriteBlock(name)|;
    ZeroByte(v);
    LiesAtSplit(c, at, WriteBlock(name), WriteValue(v));
    NameSurvives(c, start, at, name);
    ByteSurvives(c, start, p, v);
    GivesMeans(ReadBlock(c, start, at), name);
    GivesMeans(ReadValue(c, start, p), v);
    ReadsNode(c, start, at, p, p + 2, name, v);
  }

  lemma ZeroByte(v: Value)
    requires v == ByteValue(0)
    ensures IsByte(v) && SurvivesValue(v, Some(0))
  {}

  lemma GivesMeans<T>(r: Read<T>, v: T)
    requires Gives(r, v)
    ensures r == Ok(v, r.next)
  {}

  lemma NullAndByte(v: Value, w: Value)
    requires v == ByteValue(0) && w == Null
    ensures ValidValue(v) && ValidValue(w) && |WriteValue(v)| == 1 && WriteValue(w) == [0]
  {}

  /** The bytes of a list of a zero byte and a twin. */
  lemma TwinListShape(m: Node, n: Node, ns: seq<Node>) returns (first: seq<byte>, second: seq<byte>)
    requires ns == [m, n] && m.Node? && |m.name| == 1 && m.name[0] < 0x80 && m.value == ByteValue(0)
    requires n.Node? && Twin(n.name) && n.value == Null
    ensures ValidNodes(ns) && ValidValue(m.value) && |m.name| <= MAX_LENGTH && |n.name| <= MAX_LENGTH
    ensures first == WriteBlock(m.name) + WriteValue(m.value) && |first| == 4
    ensures second == WriteBlock(n.name) + [0] && |second| == 5
    ensures Int32(|ns|) && |Compact(|ns|, 4)| == 1 && WriteList(ns) == Compact(|ns|, 4) + (first + second)
  {
    assert Int32(|ns|);
    hide *;
    NullAndByte(m.value, n.value);
    LetterLength(m.name);
    TwinBytes(n.name);
    BlockShape(n.name);
    PairShape(m, n, ns);
    first, second := WriteBlock(m.name) + WriteValue(m.value), WriteBlock(n.name) + [0];
  }

  /** A list of a zero byte and a twin comes back if it lies 32 bytes behind the start of the image and
      two zeros follow it. */
  lemma TwinListBack(c: seq<byte>, start: nat, at: nat, m: Node, n: Node, ns: seq<Node>)
    requires ns == [m, n] && m.Node? && |m.name| == 1 && m.name[0] < 0x80 && m.value == ByteValue(0)
    requires n.Node? && Twin(n.name) && n.value == Null && ValidNodes(ns)
    requires at == start + 32 && at + 12 <= |c| && LiesAt(c, at, WriteList(ns)) && c[at + 10] == 0 && c[at + 11] == 0
    ensures Gives(ReadList(c, start, at), ns)
  {
    hide *;
    var first, second := TwinListShape(m, n, ns);
    LiesAtSplit(c, at, Compact(|ns|, 4), first + second);
    LiesAtSplit(c, at + 1, first, second);
    TwinNodesBack(c, start, at + 1, m.name, m.value, n.name, first, second);
    PairListReads(c, start, at, ns);
  }

  lemma TwinNodesBack(c: seq<byte>, start: nat, at: nat, letter: WString, v: Value, name: WString, first: seq<byte>, second: seq<byte>)
    requires |letter| == 1 && letter[0] < 0x80 && |letter| <= MAX_LENGTH && Twin(name) && |name| <= MAX_LENGTH
    requires v == ByteValue(0) && ValidValue(v) && first == WriteBlock(letter) + WriteValue(v) && second == WriteBlock(name) + [0]
    requires at == start + 33 && at + 11 <= |c| && LiesAt(c, at, first) && LiesAt(c, at + 4, second) && |first| == 4
    requires c[at + 9] == 0 && c[at + 10] == 0
    ensures Gives(ReadNodes(c, start, at, |[Node(letter, v), Node(name, Null)]|), [Node(letter, v), Node(name, Null)])
  {
    hide *;
    LetterLength(letter);
    BlockShape(name);
    TwinZero(c, at + 4, WriteString(name), [0]);
    ZeroByteBack(c, start, at, letter, v);
    TwinAhead(c, start, at + 4, name);
    PairReads(c, start, at, at + 5, at + 11, Node(letter, v), Node(name, Null));
  }

  lemma TwinZero(c: seq<byte>, at: nat, text: seq<byte>, value: seq<byte>)
    requires LiesAt(c, at, [0] + text + value)
    ensures ByteAt(c, at) == Some(0)
  {
    assert [0] + text + value == [0] + (text + value);
    LiesAtFirst(c, at, 0, text + value);
  }

  lemma KeywordLength(k: WString)
    requires k == PROPERTY
    ensures |k| <= MAX_LENGTH && Keyword(k) && |WriteString(k)| == 9 && |WriteBlock(k)| == 10
  {
    assert |k| == 8 && OneByte(k) && LengthOf(k) == -8;
  }

  /** A sub-property with the twin list in it, 15 bytes behind the start of the image. */
  lemma TwinSubBack(c: seq<byte>, start: nat, at: nat, k: WString, m: Node, n: Node, ns: seq<Node>, block: seq<byte>)
    requires k == PROPERTY && Keyword(k) && |k| <= MAX_LENGTH && |WriteBlock(k)| == 10
    requires ns == [m, n] && m.Node? && |m.name| == 1 && m.name[0] < 0x80 && m.value == ByteValue(0)
    requires n.Node? && Twin(n.name) && n.value == Null && ValidNodes(ns)
    requires block == WriteBlock(k) + ([0, 0] + WriteList(ns)) && |block| == 22 && |c| < TWO32
    requires at == start + 15 && at + 29 <= |c| && LiesAt(c, at, [9] + (ToLittleEndian(|block|, 4) + block))
    requires c[at + 27] == 0 && c[at + 28] == 0
    ensures ReadValue(c, start, at) == Ok(Sub(ns), at + 27)
  {
    hide *;
    BlockHeaderBack(c, at, block);
    LiesAtSplit3(c, at + 5, WriteBlock(k), [0, 0], WriteList(ns));
    KeywordBack(c, start, at + 5, k);
    TwinListBack(c, start, at + 17, m, n, ns);
    SubReads(c, start, at + 5, at + 15, ns);
    WrappedReads(c, start, at, |block|, Sub(ns));
    GivesMeans(ReadValue(c, start, at), Sub(ns));
  }

  lemma EmptyNameBack(c: seq<byte>, start: nat, at: nat, name: WString)
    requires name == [] && at + 1 < |c| && c[at] == 0 && c[at + 1] == 0
    ensures ReadBlock(c, start, at) == Ok(name, at + 2)
  {
    hide ReadBlock, ReadString;
    BlockParts(c, start, at);
    EmptyString(c, at + 1);
  }

  lemma ThreeZeros(c: seq<byte>, at: nat, name: WString, value: seq<byte>)
    requires name == [] && |name| <= MAX_LENGTH && value != [] && LiesAt(c, at, WriteBlock(name) + value)
    ensures at + 2 < |c| && c[at] == 0 && c[at + 1] == 0 && c[at + 2] == value[0] && LiesAt(c, at + 2, value)
  {
    BlockShape(name);
    hide WriteBlock, WriteString;
    LiesAtSplit(c, at, [0] + [0], value);
    LiesAtFirst(c, at, 0, [0]);
    LiesAtFirst(c, at + 1, 0, []);
    FirstByte(c, at + 2, value);
  }

  /** What holds of the two lists of the tree. */
  predicate TwinTree(letter: WString, name: WString, inner: seq<Node>, outer: seq<Node>) {
    && |letter| == 1 && letter[0] < 0x80 && Twin(name)
    && inner == [Node(letter, ByteValue(0)), Node(name, Null)]
    && outer == [Node([], Sub(inner)), Node([], Null)]
  }

  lemma TwinInner(letter: WString, name: WString, inner: seq<Node>, outer: seq<Node>)
    requires TwinTree(letter, name, inner, outer)
    ensures ValidNodes(inner) && |WriteList(inner)| == 10
  {
    hide WriteList, WriteBlock, ValidNodes, Twin;
    var first, second := TwinListShape(inner[0], inner[1], inner);
  }

  lemma SubShape(ns: seq<Node>, v: Value, k: WString)
    requires ValidNodes(ns) && v == Sub(ns) && k == PROPERTY && |k| <= MAX_LENGTH
    ensures ValidValue(v) && Extended(v) && WriteExtended(v) == WriteBlock(k) + ([0, 0] + WriteList(ns))
  {
    hide WriteBlock, WriteList;
  }

  /** The 45 bytes of the tree. */
  lemma TwinTreeShape(letter: WString, name: WString, inner: seq<Node>, outer: seq<Node>, k: WString)
      returns (block: seq<byte>, first: seq<byte>, second: seq<byte>)
    requires TwinTree(letter, name, inner, outer) && k == PROPERTY
    ensures ValidNodes(inner) && ValidNodes(outer) && |k| <= MAX_LENGTH && Keyword(k) && |WriteBlock(k)| == 10
    ensures block == WriteBlock(k) + ([0, 0] + WriteList(inner)) && |block| == 22
    ensures first == WriteBlock([]) + ([9] + (ToLittleEndian(|block|, 4) + block)) && |first| == 29
    ensures second == WriteBlock([]) + [0] && |second| == 3
    ensures Int32(|outer|) && |Compact(|outer|, 4)| == 1 && WriteList(outer) == Compact(|outer|, 4) + (first + second)
    ensures |WriteImage(outer)| == 45
  {
    TwinInner(letter, name, inner, outer);
    var v, w := outer[0].value, outer[1].value;
    assert Int32(|outer|) && outer == [outer[0], outer[1]] && v == Sub(inner) && w == Null && outer[0].name == outer[1].name == [];
    hide *;
    KeywordLength(k);
    SubShape(inner, v, k);
    NullAndByte(ByteValue(0), w);
    EmptyNameLength([]);
    WrappedShape(v);
    PairShape(outer[0], outer[1], outer);
    ImageShape(outer);
    block := WriteExtended(v);
    first, second := WriteBlock([]) + WriteValue(v), WriteBlock([]) + [0];
  }

  lemma NamelessBack(c: seq<byte>, start: nat, at: nat, second: seq<byte>)
    requires |WriteBlock([])| == 2 && second == WriteBlock([]) + [0] && LiesAt(c, at, second)
    ensures at + 2 < |c| && c[at] == 0 && c[at + 1] == 0
    ensures ReadNode(c, start, at) == Ok(Node([], Null), at + 3)
  {
    assert 0 <= MAX_LENGTH;
    hide *;
    ThreeZeros(c, at, [], [0]);
    EmptyNameBack(c, start, at, []);
    ZeroIsNull(c, start, at + 2);
    ReadsNode(c, start, at, at + 2, at + 3, [], Null);
  }

  lemma NestedBack(c: seq<byte>, start: nat, at: nat, k: WString, m: Node, n: Node, ns: seq<Node>, block: seq<byte>, first: seq<byte>)
    requires k == PROPERTY && Keyword(k) && |k| <= MAX_LENGTH && |WriteBlock(k)| == 10
    requires ns == [m, n] && m.Node? && |m.name| == 1 && m.name[0] < 0x80 && m.value == ByteValue(0)
    requires n.Node? && Twin(n.name) && n.value == Null && ValidNodes(ns)
    requires block == WriteBlock(k) + ([0, 0] + WriteList(ns)) && |block| == 22 && |c| < TWO32
    requires first == WriteBlock([]) + ([9] + (ToLittleEndian(|block|, 4) + block))
    requires at == start + 13 && at + 31 <= |c| && LiesAt(c, at, first) && c[at + 29] == 0 && c[at + 30] == 0
    ensures ReadNode(c, start, at) == Ok(Node([], Sub(ns)), at + 29)
  {
    assert 0 <= MAX_LENGTH;
    hide *;
    ThreeZeros(c, at, [], [9] + (ToLittleEndian(|block|, 4) + block));
    EmptyNameBack(c, start, at, []);
    TwinSubBack(c, start, at + 2, k, m, n, ns, block);
    ReadsNode(c, start, at, at + 2, at + 29, [], Sub(ns));
  }

  lemma TwinTreeParts(letter: WString, name: WString, inner: seq<Node>, outer: seq<Node>)
    requires TwinTree(letter, name, inner, outer)
    ensures |outer| == 2 && outer == [Node([], Sub(inner)), Node([], Null)] && |inner| == 2 && inner == [inner[0], inner[1]]
    ensures inner[0].Node? && |inner[0].name| == 1 && inner[0].name[0] < 0x80 && inner[0].value == ByteValue(0)
    ensures inner[1].Node? && Twin(inner[1].name) && inner[1].value == Null
  {}

  lemma TwinTreeAt(c: seq<byte>, start: nat, letter: WString, name: WString, inner: seq<Node>, outer: seq<Node>)
    requires TwinTree(letter, name, inner, outer) && |c| < TWO32
    requires ValidNodes(outer) && LiesAt(c, start + 12, WriteList(outer))
    ensures Gives(ReadList(c, start, start + 12), outer)
  {
    hide *;
    var k := PROPERTY;
    TwinTreeParts(letter, name, inner, outer);
    var block, first, second := TwinTreeShape(letter, name, inner, outer, k);
    EmptyNameLength([]);
    LiesAtSplit(c, start + 12, Compact(|outer|, 4), first + second);
    LiesAtSplit(c, start + 13, first, second);
    NamelessBack(c, start, start + 42, second);
    NestedBack(c, start, start + 13, k, inner[0], inner[1], inner, block, first);
    PairReads(c, start, start + 13, start + 42, start + 45, Node([], Sub(inner)), Node([], Null));
    PairListReads(c, start, start + 12, outer);
  }

  lemma TwinTreeDoesNotSurvive(letter: WString, name: WString, inner: seq<Node>, outer: seq<Node>, next: Option<byte>)
    requires TwinTree(letter, name, inner, outer)
    ensures !SurvivesList(outer, next)
  {
    ByteStopsNodes(inner, 0, Some(0));
    SurvivesListParts(inner, Some(0));
    SurvivesParts(outer, next);
    SurvivesListParts(outer, next);
    hide SurvivesNodes, SurvivesList, Twin;
  }

  /** Why the other half of `ImageRoundTrip` needs its condition: a tree that does not survive, in which
      a name points to itself when it is read one byte ahead, and that does come back. */
  lemma TwinComesBack(before: seq<byte>, letter: WString, name: WString, inner: seq<Node>, outer: seq<Node>, after: seq<byte>)
    requires TwinTree(letter, name, inner, outer) && |before| + 45 + |after| < TWO32
    ensures ValidNodes(outer) && |WriteImage(outer)| == 45
    ensures Gives(ReadImage(before + WriteImage(outer) + after, |before|), outer)
    ensures !SurvivesList(outer, if after == [] then None else Some(after[0])) && !ClearNodes(outer)
  {
    var next := if after == [] then None else Some(after[0]);
    TwinTreeDoesNotSurvive(letter, name, inner, outer, next);
    var k := PROPERTY;
    var block, first, second := TwinTreeShape(letter, name, inner, outer, k);
    var image := WriteImage(outer);
    var c := before + image + after;
    assert |c| < TWO32;
    ImageShape(outer);
    KeywordLength(k);
    LiesBetween(before, image, after);
    hide *;
    var p := ImageIsItsList(c, |before|, outer);
    assert p == |before| + 12;
    TwinTreeAt(c, |before|, letter, name, inner, outer);
    GivesSame(ReadImage(c, |before|), ReadList(c, |before|, p), outer);
    if ClearNodes(outer) {
      ImageRoundTrip(before, outer, after);
    }
  }

  lemma GivesSame<T>(r: Read<T>, s: Read<T>, v: T)
    requires r == s && Gives(s, v)
    ensures Gives(r, v)
  {}
}
