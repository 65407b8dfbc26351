/** What a written property tree reads back as, when nothing in it is a byte or an sbyte: of those the
    writer leaves out the value (`wz_survival.dfy` says when a tree with them reads back). */
module WzRoundTrip {
  import opened Bytes
  import opened WzPrimitives
  import opened WzTree

  // ---------------------------------------------------------------- what survives

  predicate NoByteIn(v: Value)
    decreases v
  {
    match v
    case Sub(children) => NoBytes(children)
    case _ => !IsByte(v)
  }

  predicate NoBytes(ns: seq<Node>)
    decreases ns
  {
    forall i :: 0 <= i < |ns| && ns[i].Node? ==> NoByteIn(ns[i].value)
  }

  /** What a tree becomes by being written and read back.  `atEnd` says that nothing follows it in
      the stream; then a list of four bytes or fewer is lost. */
  function Kept(ns: seq<Node>, atEnd: bool): seq<Node>
    requires ValidNodes(ns)
    decreases ns, 2
  {
    if atEnd && |WriteList(ns)| <= 4 then [] else KeptNodes(ns, atEnd)
  }

  function KeptNodes(ns: seq<Node>, atEnd: bool): (r: seq<Node>)
    requires ValidNodes(ns)
    ensures |r| == CountPresent(ns)
    decreases ns, 1
  {
    if ns == [] then []
    else if ns[0].Missing? then KeptNodes(ns[1..], atEnd)
    else [Node(Stored(ns[0].name), KeptValue(ns[0].value, atEnd && CountPresent(ns[1..]) == 0))] + KeptNodes(ns[1..], atEnd)
  }

  function KeptValue(v: Value, atEnd: bool): Value
    requires ValidValue(v)
    decreases v, 0
  {
    match v
    case Text(s) => Text(Stored(s))
    case Uol(s) => Uol(Stored(s))
    case Single(bits) => Single(StoredSingle(bits))
    case Sub(children) => Sub(Kept(children, atEnd))
    case _ => v
  }

  // ---------------------------------------------------------------- leaves

  lemma BlockBack(c: seq<byte>, start: nat, at: nat, s: WString)
    requires |s| <= MAX_LENGTH && LiesAt(c, at, WriteBlock(s))
    ensures ReadBlock(c, start, at) == Ok(Stored(s), at + |WriteBlock(s)|)
  {
    var text := WriteString(s);
    LiesAtFirst(c, at, 0, text);
    ReadsBlock(c, start, at);
    hide *;
    StringReadsBack(c, at + 1, s);
  }

  lemma ReadsBlock(c: seq<byte>, start: nat, at: nat)
    requires at < |c| && c[at] == 0
    ensures ReadBlock(c, start, at) == ReadString(c, at + 1)
  {}

  lemma AsciiIsStored(s: WString)
    requires forall i :: 0 <= i < |s| ==> s[i] < 0x80
    ensures Stored(s) == s
  {
    StoredIffStorable(s);
  }

  predicate Keyword(k: WString) {
    k == PROPERTY || k == VECTOR || k == UOL
  }

  lemma KeywordIsStored(k: WString)
    requires Keyword(k)
    ensures |k| <= MAX_LENGTH && Stored(k) == k
  {
    hide Stored;
    assert forall i :: 0 <= i < |k| ==> k[i] < 0x80;
    AsciiIsStored(k);
  }

  lemma KeywordBack(c: seq<byte>, start: nat, at: nat, k: WString)
    requires Keyword(k) && |k| <= MAX_LENGTH && LiesAt(c, at, WriteBlock(k))
    ensures ReadBlock(c, start, at) == Ok(k, at + |WriteBlock(k)|)
  {
    hide *;
    KeywordIsStored(k);
    BlockBack(c, start, at, k);
  }

  lemma {:induction false} NodesAreThreeBytes(ns: seq<Node>)
    requires ValidNodes(ns)
    ensures |WriteNodes(ns)| >= 3 * CountPresent(ns)
    ensures |WriteNodes(ns)| == 0 <==> CountPresent(ns) == 0
  {
    if ns != [] { NodesAreThreeBytes(ns[1..]); }
  }

  // ---------------------------------------------------------------- one step of the reader

  lemma KeywordsDiffer()
    ensures VECTOR != PROPERTY && UOL != PROPERTY && UOL != VECTOR
  {
    assert |UOL| == 3 && |PROPERTY| == 8 && |VECTOR| == 16;
  }

  lemma ReadsVector(c: seq<byte>, start: nat, at: nat, p: nat, q: nat, end: nat, x: int, y: int)
    requires ReadBlock(c, start, at) == Ok(VECTOR, p) && ReadCompact(c, p, 4) == Ok(x, q) && ReadCompact(c, q, 4) == Ok(y, end)
    ensures ReadExtended(c, start, at) == Ok(Vector2(x, y), end)
  {
    hide ReadBlock, ReadCompact, ReadList;
    KeywordsDiffer();
    hide UOL, PROPERTY, VECTOR;
  }

  lemma ReadsUol(c: seq<byte>, start: nat, at: nat, p: nat, end: nat, s: WString)
    requires ReadBlock(c, start, at) == Ok(UOL, p) && ReadBlock(c, start, p + 1) == Ok(s, end)
    ensures ReadExtended(c, start, at) == Ok(Uol(s), end)
  {
    hide ReadBlock, ReadCompact, ReadList;
    KeywordsDiffer();
    hide UOL, PROPERTY, VECTOR;
  }

  lemma ReadsSub(c: seq<byte>, start: nat, at: nat, p: nat, children: seq<Node>)
    requires ReadBlock(c, start, at) == Ok(PROPERTY, p) && ReadList(c, start, p + 2).Ok? && ReadList(c, start, p + 2).value == children
    ensures ReadExtended(c, start, at) == Ok(Sub(children), p)
  {
    hide ReadBlock, ReadCompact, ReadList, PROPERTY;
  }

  lemma ReadsExtendedBlock(c: seq<byte>, start: nat, at: nat, length: nat, v: Value)
    requires at < |c| && c[at] == 9 && ReadFixed(c, at + 1, 4) == Ok(length, at + 5)
    requires ReadExtended(c, start, at + 5).Ok? && ReadExtended(c, start, at + 5).value == v
    ensures ReadValue(c, start, at) == Ok(v, at + 5 + length)
  {
    hide ReadExtended, ReadFixed, ReadBlock, ReadCompact, ReadSingle;
  }

  lemma ReadsNode(c: seq<byte>, start: nat, at: nat, p: nat, end: nat, name: WString, v: Value)
    requires ReadBlock(c, start, at) == Ok(name, p) && ReadValue(c, start, p) == Ok(v, end)
    ensures ReadNode(c, start, at) == Ok(Node(name, v), end)
  {}

  lemma ReadsMoreNodes(c: seq<byte>, start: nat, at: nat, p: nat, end: nat, n: Node, rest: seq<Node>)
    requires ReadNode(c, start, at) == Ok(n, p) && ReadNodes(c, start, p, |rest|) == Ok(rest, end)
    ensures ReadNodes(c, start, at, |rest| + 1) == Ok([n] + rest, end)
  {}

  // ---------------------------------------------------------------- leaves of the induction

  lemma VectorBack(c: seq<byte>, start: nat, at: nat, k: WString, x: int, y: int)
    requires k == VECTOR && Keyword(k) && |k| <= MAX_LENGTH && Int32(x) && Int32(y)
    requires LiesAt(c, at, WriteBlock(k) + (Compact(x, 4) + Compact(y, 4)))
    ensures ReadExtended(c, start, at).Ok? && ReadExtended(c, start, at).value == Vector2(x, y)
  {
    hide *;
    var kind, first, second := WriteBlock(k), Compact(x, 4), Compact(y, 4);
    var p := at + |kind|;
    LiesAtSplit3(c, at, kind, first, second);
    KeywordBack(c, start, at, k);
    CompactBack(c, p, x, 4);
    CompactBack(c, p + |first|, y, 4);
    ReadsVector(c, start, at, p, p + |first|, p + |first| + |second|, x, y);
  }

  lemma UolBack(c: seq<byte>, start: nat, at: nat, k: WString, s: WString)
    requires k == UOL && Keyword(k) && |k| <= MAX_LENGTH && |s| <= MAX_LENGTH
    requires LiesAt(c, at, WriteBlock(k) + ([0] + WriteBlock(s)))
    ensures ReadExtended(c, start, at).Ok? && ReadExtended(c, start, at).value == Uol(Stored(s))
  {
    hide *;
    var kind, target := WriteBlock(k), WriteBlock(s);
    LiesAtSplit3(c, at, kind, [0], target);
    KeywordBack(c, start, at, k);
    BlockBack(c, start, at + |kind| + 1, s);
    ReadsUol(c, start, at, at + |kind|, at + |kind| + 1 + |target|, Stored(s));
  }

  function NumberOf(kind: byte, n: int): Value {
    if kind == 3 then Int32Value(n) else if kind == 19 then Color(n % TWO32)
    else if kind == 20 then Int64Value(n) else UInt64Value(n % TWO64)
  }

  lemma ReadsCompact(c: seq<byte>, start: nat, at: nat, kind: byte, v: int, end: nat)
    requires at < |c| && c[at] == kind && (kind == 3 || kind == 19 || kind == 20 || kind == 21)
    requires ReadCompact(c, at + 1, if kind == 3 || kind == 19 then 4 else 8) == Ok(v, end)
    ensures ReadValue(c, start, at) == Ok(NumberOf(kind, v), end)
  {}

  lemma NumberBack(c: seq<byte>, start: nat, at: nat, kind: byte, n: int, bytes: nat)
    requires ((kind == 3 || kind == 19) && bytes == 4 && Int32(n)) || ((kind == 20 || kind == 21) && bytes == 8 && Int64(n))
    requires LiesAt(c, at, [kind] + Compact(n, bytes))
    ensures ReadValue(c, start, at) == Ok(NumberOf(kind, n), at + 1 + |Compact(n, bytes)|)
  {
    var number := Compact(n, bytes);
    LiesAtFirst(c, at, kind, number);
    CompactBack(c, at + 1, n, bytes);
    ReadsCompact(c, start, at, kind, n, at + 1 + |number|);
  }

  lemma UInt16Back(c: seq<byte>, start: nat, at: nat, u: nat)
    requires u < 0x1_0000 && LiesAt(c, at, [0x12] + ToLittleEndian(u, 2))
    ensures ReadValue(c, start, at) == Ok(UInt16(u), at + 3)
  {
    Powers();
    LiesAtFirst(c, at, 0x12, ToLittleEndian(u, 2));
    FixedReadsBack(c, at + 1, u, 2);
  }

  lemma SingleBack(c: seq<byte>, start: nat, at: nat, bits: nat)
    requires bits < TWO32 && LiesAt(c, at, [4] + WriteSingle(bits))
    ensures ReadValue(c, start, at) == Ok(Single(StoredSingle(bits)), at + 1 + |WriteSingle(bits)|)
  {
    hide WriteSingle, StoredSingle, ReadSingle;
    LiesAtFirst(c, at, 4, WriteSingle(bits));
    SingleReadsBack(c, at + 1, bits);
  }

  lemma DoubleBack(c: seq<byte>, start: nat, at: nat, bits: nat)
    requires bits < TWO64 && LiesAt(c, at, [5] + ToLittleEndian(bits, 8))
    ensures ReadValue(c, start, at) == Ok(Double(bits), at + 9)
  {
    Powers();
    LiesAtFirst(c, at, 5, ToLittleEndian(bits, 8));
    FixedReadsBack(c, at + 1, bits, 8);
  }

  lemma ReadsText(c: seq<byte>, start: nat, at: nat, s: WString, end: nat)
    requires at < |c| && c[at] == 8 && ReadBlock(c, start, at + 1) == Ok(s, end)
    ensures ReadValue(c, start, at) == Ok(Text(s), end)
  {}

  lemma TextBack(c: seq<byte>, start: nat, at: nat, s: WString)
    requires |s| <= MAX_LENGTH && LiesAt(c, at, [8] + WriteBlock(s))
    ensures ReadValue(c, start, at) == Ok(Text(Stored(s)), at + 1 + |WriteBlock(s)|)
  {
    var block := WriteBlock(s);
    LiesAtFirst(c, at, 8, block);
    BlockBack(c, start, at + 1, s);
    ReadsText(c, start, at, Stored(s), at + 1 + |block|);
  }

  lemma NullBack(c: seq<byte>, start: nat, at: nat)
    requires LiesAt(c, at, [0])
    ensures ReadValue(c, start, at) == Ok(Null, at + 1)
  {
    assert c[at] == c[at..at + 1][0];
  }

  lemma ScalarBack(c: seq<byte>, start: nat, at: nat, v: Value, atEnd: bool)
    requires ValidValue(v) && !Extended(v) && !IsByte(v) && LiesAt(c, at, WriteValue(v))
    ensures ReadValue(c, start, at) == Ok(KeptValue(v, atEnd), at + |WriteValue(v)|)
  {
    hide ReadValue, WriteBlock, WriteSingle, Compact, LiesAt, Stored, StoredSingle;
    match v
    case Null => NullBack(c, start, at);
    case UInt16(u) => UInt16Back(c, start, at, u);
    case Text(s) => TextBack(c, start, at, s);
    case Int32Value(i) => NumberBack(c, start, at, 3, i, 4);
    case Color(rgba) => NumberBack(c, start, at, 19, AsInt32(rgba), 4);
    case Single(bits) => SingleBack(c, start, at, bits);
    case Double(bits) => DoubleBack(c, start, at, bits);
    case Int64Value(l) => NumberBack(c, start, at, 20, l, 8);
    case UInt64Value(m) => NumberBack(c, start, at, 21, AsInt64(m), 8);
  }

  lemma BlockHeaderBack(c: seq<byte>, at: nat, block: seq<byte>)
    requires |c| < TWO32 && LiesAt(c, at, [9] + (ToLittleEndian(|block|, 4) + block))
    ensures at < |c| && c[at] == 9 && ReadFixed(c, at + 1, 4) == Ok(|block|, at + 5) && LiesAt(c, at + 5, block)
  {
    var header := ToLittleEndian(|block|, 4);
    Powers();
    LiesAtFirst(c, at, 9, header + block);
    LiesAtSplit(c, at + 1, header, block);
    FixedReadsBack(c, at + 1, |block|, 4);
  }

  // ---------------------------------------------------------------- the mutual induction

  lemma {:induction false} SubBack(c: seq<byte>, start: nat, at: nat, k: WString, children: seq<Node>)
    requires k == PROPERTY && Keyword(k) && |k| <= MAX_LENGTH && ValidNodes(children) && NoBytes(children) && |c| < TWO32
    requires LiesAt(c, at, WriteBlock(k) + ([0, 0] + WriteList(children)))
    ensures ReadExtended(c, start, at).Ok? && ReadExtended(c, start, at).value ==
      Sub(Kept(children, at + |WriteBlock(k)| + 2 + |WriteList(children)| == |c|))
    decreases children, 6
  {
    hide *;
    var kind, list := WriteBlock(k), WriteList(children);
    var p := at + |kind|;
    LiesAtSplit3(c, at, kind, [0, 0], list);
    KeywordBack(c, start, at, k);
    ListBack(c, start, p + 2, children);
    ReadsSub(c, start, at, p, ReadList(c, start, p + 2).value);
  }

  lemma {:induction false} ExtendedBack(c: seq<byte>, start: nat, at: nat, v: Value)
    requires ValidValue(v) && Extended(v) && NoByteIn(v) && LiesAt(c, at, WriteExtended(v)) && |c| < TWO32
    ensures ReadExtended(c, start, at).Ok? && ReadExtended(c, start, at).value == KeptValue(v, at + |WriteExtended(v)| == |c|)
    decreases v, 0
  {
    hide ReadExtended, WriteBlock, Compact, WriteList, LiesAt, Stored, Kept;
    match v
    case Vector2(x, y) => VectorBack(c, start, at, VECTOR, x, y);
    case Uol(s) => UolBack(c, start, at, UOL, s);
    case Sub(children) => SubBack(c, start, at, PROPERTY, children);
  }

  lemma {:induction false} WrappedBack(c: seq<byte>, start: nat, at: nat, v: Value, block: seq<byte>)
    requires ValidValue(v) && Extended(v) && NoByteIn(v) && block == WriteExtended(v) && |c| < TWO32
    requires LiesAt(c, at, [9] + (ToLittleEndian(|block|, 4) + block))
    ensures ReadValue(c, start, at) == Ok(KeptValue(v, at + 5 + |block| == |c|), at + 5 + |block|)
    decreases v, 1
  {
    hide *;
    BlockHeaderBack(c, at, block);
    ExtendedBack(c, start, at + 5, v);
    ReadsExtendedBlock(c, start, at, |block|, ReadExtended(c, start, at + 5).value);
  }

  lemma {:induction false} ValueBack(c: seq<byte>, start: nat, at: nat, v: Value)
    requires ValidValue(v) && NoByteIn(v) && LiesAt(c, at, WriteValue(v)) && |c| < TWO32
    ensures ReadValue(c, start, at) == Ok(KeptValue(v, at + |WriteValue(v)| == |c|), at + |WriteValue(v)|)
    decreases v, 2
  {
    if Extended(v) {
      WrappedShape(v);
      hide *;
      WrappedBack(c, start, at, v, WriteExtended(v));
    } else {
      ScalarBack(c, start, at, v, at + |WriteValue(v)| == |c|);
    }
  }

  lemma {:induction false} NodeBack(c: seq<byte>, start: nat, at: nat, name: WString, v: Value)
    requires |name| <= MAX_LENGTH && ValidValue(v) && NoByteIn(v) && |c| < TWO32
    requires LiesAt(c, at, WriteBlock(name) + WriteValue(v))
    ensures var end := at + |WriteBlock(name)| + |WriteValue(v)|;
      ReadNode(c, start, at) == Ok(Node(Stored(name), KeptValue(v, end == |c|)), end)
    decreases v, 3
  {
    hide *;
    var block, value := WriteBlock(name), WriteValue(v);
    var p := at + |block|;
    LiesAtSplit(c, at, block, value);
    BlockBack(c, start, at, name);
    ValueBack(c, start, p, v);
    ReadsNode(c, start, at, p, p + |value|, Stored(name), KeptValue(v, p + |value| == |c|));
  }

  lemma {:induction false} NodesBack(c: seq<byte>, start: nat, at: nat, ns: seq<Node>)
    requires ValidNodes(ns) && NoBytes(ns) && LiesAt(c, at, WriteNodes(ns)) && |c| < TWO32
    ensures ReadNodes(c, start, at, CountPresent(ns)) == Ok(KeptNodes(ns, at + |WriteNodes(ns)| == |c|), at + |WriteNodes(ns)|)
    decreases ns, 3
  {
    hide *;
    if ns == [] {
      NoNodesBack(c, start, at);
    } else if ns[0].Missing? {
      MissingIsSkipped(ns, at + |WriteNodes(ns)| == |c|);
      NodesBack(c, start, at, ns[1..]);
    } else {
      NodesSplit(ns);
      KeptFirst(ns, at + |WriteNodes(ns)| == |c|);
      LiesInside(c, at, WriteNodes(ns));
      var p := at + |WriteBlock(ns[0].name)| + |WriteValue(ns[0].value)|;
      assert p == |c| <==> at + |WriteNodes(ns)| == |c| && CountPresent(ns[1..]) == 0;
      FirstBack(c, start, at, ns, ns[0].name, ns[0].value, ns[1..]);
    }
  }

  lemma NoNodesBack(c: seq<byte>, start: nat, at: nat)
    ensures ValidNodes([])
    ensures ReadNodes(c, start, at, CountPresent([])) == Ok(KeptNodes([], at + |WriteNodes([])| == |c|), at + |WriteNodes([])|)
  {}

  lemma MissingIsSkipped(ns: seq<Node>, atEnd: bool)
    requires ns != [] && ns[0].Missing? && ValidNodes(ns)
    ensures NoBytes(ns) ==> NoBytes(ns[1..])
    ensures ValidNodes(ns[1..]) && WriteNodes(ns) == WriteNodes(ns[1..])
    ensures CountPresent(ns) == CountPresent(ns[1..]) && KeptNodes(ns, atEnd) == KeptNodes(ns[1..], atEnd)
  {}

  lemma NodesSplit(ns: seq<Node>)
    requires ns != [] && ns[0].Node? && ValidNodes(ns)
    ensures ValidNodes(ns[1..]) && |ns[0].name| <= MAX_LENGTH && ValidValue(ns[0].value)
    ensures NoBytes(ns) ==> NoByteIn(ns[0].value) && NoBytes(ns[1..])
    ensures WriteNodes(ns) == WriteBlock(ns[0].name) + WriteValue(ns[0].value) + WriteNodes(ns[1..])
    ensures CountPresent(ns) == CountPresent(ns[1..]) + 1
    ensures |WriteNodes(ns[1..])| == 0 <==> CountPresent(ns[1..]) == 0
  {
    NodesAreThreeBytes(ns[1..]);
  }

  lemma KeptFirst(ns: seq<Node>, atEnd: bool)
    requires ns != [] && ns[0].Node? && ValidNodes(ns)
    ensures KeptNodes(ns, atEnd) ==
      [Node(Stored(ns[0].name), KeptValue(ns[0].value, atEnd && CountPresent(ns[1..]) == 0))] + KeptNodes(ns[1..], atEnd)
  {}

  lemma {:induction false} FirstBack(c: seq<byte>, start: nat, at: nat, ns: seq<Node>, name: WString, v: Value, tail: seq<Node>)
    requires ns != [] && ns[0] == Node(name, v) && ns[1..] == tail && |c| < TWO32
    requires |name| <= MAX_LENGTH && ValidValue(v) && NoByteIn(v) && ValidNodes(tail) && NoBytes(tail)
    requires LiesAt(c, at, WriteBlock(name) + WriteValue(v) + WriteNodes(tail))
    ensures var p := at + |WriteBlock(name)| + |WriteValue(v)|; var end := p + |WriteNodes(tail)|;
      ReadNodes(c, start, at, CountPresent(tail) + 1) ==
      Ok([Node(Stored(name), KeptValue(v, p == |c|))] + KeptNodes(tail, end == |c|), end)
    decreases ns, 2
  {
    hide *;
    var node, rest := WriteBlock(name) + WriteValue(v), WriteNodes(tail);
    var p := at + |node|;
    LiesAtSplit(c, at, node, rest);
    NodeBack(c, start, at, name, v);
    NodesBack(c, start, p, tail);
    ReadsMoreNodes(c, start, at, p, p + |rest|, Node(Stored(name), KeptValue(v, p == |c|)), KeptNodes(tail, p + |rest| == |c|));
  }

  /** A list reads back as what survives of it, whatever bytes follow. */
  lemma {:induction false} ListBack(c: seq<byte>, start: nat, at: nat, ns: seq<Node>)
    requires ValidNodes(ns) && NoBytes(ns) && LiesAt(c, at, WriteList(ns)) && |c| < TWO32
    ensures ReadList(c, start, at).Ok? && ReadList(c, start, at).value == Kept(ns, at + |WriteList(ns)| == |c|)
    decreases ns, 5
  {
    var n := CountPresent(ns);
    LiesAtSplit(c, at, Compact(n, 4), WriteNodes(ns));
    CompactBack(c, at, n, 4);
    NodesBack(c, start, at + |Compact(n, 4)|, ns);
    NodesAreThreeBytes(ns);
    if at + 4 >= |c| && at + |WriteList(ns)| != |c| {
      assert n == 0;
    }
  }

  // ---------------------------------------------------------------- images

  lemma ImageShape(ns: seq<Node>)
    requires ValidNodes(ns)
    ensures Keyword(PROPERTY) && |PROPERTY| <= MAX_LENGTH
    ensures var kind, list := WriteString(PROPERTY), WriteList(ns);
      WriteImage(ns) == [0x73] + (kind + ([0, 0] + list)) && |WriteImage(ns)| == 1 + |kind| + 2 + |list|
  {
    hide WriteString, WriteList;
  }

  lemma ImagePartsRead(c: seq<byte>, at: nat, k: WString, kind: seq<byte>, list: seq<byte>)
    requires k == PROPERTY && Keyword(k) && |k| <= MAX_LENGTH && kind == WriteString(k)
    requires LiesAt(c, at, [0x73] + (kind + ([0, 0] + list)))
    ensures var p := at + 1 + |kind| + 2; LiesAt(c, p, list) && ReadImage(c, at) == ReadList(c, at, p)
  {
    hide *;
    var p := at + 1 + |kind|;
    KeywordIsStored(k);
    LiesAtFirst(c, at, 0x73, kind + ([0, 0] + list));
    LiesAtSplit3(c, at + 1, kind, [0, 0], list);
    StringReadsBack(c, at + 1, k);
    ZeroReads(c, p);
    ReadsImage(c, at, p);
  }

  /** Reading a written image is reading its list. */
  lemma ImageIsItsList(c: seq<byte>, at: nat, ns: seq<Node>) returns (p: nat)
    requires ValidNodes(ns) && LiesAt(c, at, WriteImage(ns))
    ensures LiesAt(c, p, WriteList(ns)) && p + |WriteList(ns)| == at + |WriteImage(ns)|
    ensures ReadImage(c, at) == ReadList(c, at, p)
  {
    hide *;
    ImageShape(ns);
    ImagePartsRead(c, at, PROPERTY, WriteString(PROPERTY), WriteList(ns));
    p := at + 1 + |WriteString(PROPERTY)| + 2;
  }

  /** An image reads back as what survives of it, wherever it lies. */
  lemma ImageReadsKept(c: seq<byte>, at: nat, ns: seq<Node>)
    requires ValidNodes(ns) && NoBytes(ns) && |c| < TWO32 && LiesAt(c, at, WriteImage(ns))
    ensures var r := ReadImage(c, at); r.Ok? && r.value == Kept(ns, at + |WriteImage(ns)| == |c|)
  {
    hide *;
    var p := ImageIsItsList(c, at, ns);
    ListBack(c, at, p, ns);
  }

  lemma ReadsImage(c: seq<byte>, at: nat, p: nat)
    requires at < |c| && c[at] == 0x73 && ReadString(c, at + 1) == Ok(PROPERTY, p) && ReadSigned(c, p, 2) == Ok(0, p + 2)
    ensures ReadImage(c, at) == ReadList(c, at, p + 2)
  {
    hide ReadString, ReadSigned, ReadList;
  }

  lemma ZeroReads(c: seq<byte>, at: nat)
    requires LiesAt(c, at, [0, 0])
    ensures ReadSigned(c, at, 2) == Ok(0, at + 2)
  {
    var zero: seq<byte> := [0];
    assert zero + zero == [0, 0] && (zero + zero)[1..] == zero && zero[1..] == [];
    assert FromLittleEndian(zero) == 0 && FromLittleEndian(zero + zero) == 0;
    Powers();
  }
}
