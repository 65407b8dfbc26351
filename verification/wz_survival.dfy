/** Exactly when reading undoes writing, for every property tree.  The writer stores a byte or sbyte
    property as its type alone, and the reader takes the byte that happens to follow as its value: from
    there on it is one byte ahead. */
module WzSurvival {
  import opened Basics
  import opened Bytes
  import opened WzPrimitives
  import opened WzTree
  import opened WzRoundTrip

  /** The read succeeds and gives `v`. */
  predicate Gives<T(==)>(r: Read<T>, v: T) {
    r.Ok? && r.value == v
  }

  function ByteAt(c: seq<byte>, at: nat): Option<byte> {
    if at < |c| then Some(c[at]) else None
  }

  // ---------------------------------------------------------------- the condition

  predicate AllNameless(ns: seq<Node>) {
    forall i :: 0 <= i < |ns| ==> ns[i] == Node([], Null)
  }

  /** The value comes back if the byte after it is `next`. */
  predicate SurvivesValue(v: Value, next: Option<byte>)
    decreases v, 0
  {
    match v
    case SByteValue(n) => next.Some? && n == if next.value >= 128 then next.value as int - 256 else next.value as int
    case ByteValue(b) => next.Some? && b == next.value as nat
    case Text(s) => Storable(s)
    case Uol(s) => Storable(s)
    case Single(bits) => !NegativeWhole(bits)
    case Sub(children) => SurvivesList(children, next)
    case _ => true
  }

  /** The nodes come back if the byte after the last is `next`.  The byte after any other value is the
      zero with which the next name starts.  Behind a byte the reader stays one byte ahead unless all
      that follows are nameless nulls, which are zeros only, and one more zero. */
  predicate SurvivesNodes(ns: seq<Node>, next: Option<byte>)
    decreases ns, 1
  {
    ns == [] ||
    (&& ns[0].Node? && Storable(ns[0].name)
     && SurvivesValue(ns[0].value, if |ns| == 1 then next else Some(0))
     && if IsByte(ns[0].value) && |ns| > 1 then AllNameless(ns[1..]) && next == Some(0) else SurvivesNodes(ns[1..], next))
  }

  /** A list of one nameless null at the end of the stream is taken for an empty one. */
  predicate SurvivesList(ns: seq<Node>, next: Option<byte>)
    decreases ns, 2
  {
    SurvivesNodes(ns, next) && (next == None ==> ns != [Node([], Null)])
  }

  /** A reader one byte ahead takes the length byte of such a name for the kind of a de-duplicated
      string, and then reads whatever name its next four bytes point to. */
  predicate Lookalike(name: WString) {
    !OneByte(name) && (|name| == 1 || |name| == 27)
  }

  /** The first of the nodes that is not a nameless null has no such name. */
  predicate ClearAhead(ns: seq<Node>) {
    ns == [] || (if ns[0] == Node([], Null) then ClearAhead(ns[1..]) else ns[0].Node? ==> !Lookalike(ns[0].name))
  }

  /** No such name is the first thing, other than nameless nulls, behind a byte. */
  predicate ClearValue(v: Value)
    decreases v
  {
    v.Sub? ==> ClearNodes(v.children)
  }

  predicate ClearNodes(ns: seq<Node>)
    decreases ns
  {
    ns == [] || ns[0].Missing? ||
    (if IsByte(ns[0].value) then ClearAhead(ns[1..]) else ClearValue(ns[0].value) && ClearNodes(ns[1..]))
  }

  // ---------------------------------------------------------------- one byte ahead

  lemma XorCancels(a: byte, b: byte, mask: byte)
    requires Xor(a, mask) == Xor(b, mask)
    ensures a == b
  {
    XorTwice(a, mask);
    XorTwice(b, mask);
  }

  lemma XorStep(a: nat, b: nat, bits: nat, a': nat, b': nat, half: nat)
    requires a' == a / 2 && b' == b / 2 && BitXor(a', b', bits) == half
    ensures BitXor(a, b, bits + 1) == (a + b) % 2 + 2 * half
  {}

  lemma XorOfBytes(a: byte, b: byte, a': nat, b': nat, half: nat)
    requires a' == a as nat / 2 && b' == b as nat / 2 && BitXor(a', b', 7) == half
    ensures Xor(a, b) as nat == (a as nat + b as nat) % 2 + 2 * half
  {
    XorStep(a as nat, b as nat, 7, a', b', half);
    hide BitXor;
  }

  lemma NoBits(a: nat, b: nat)
    ensures BitXor(a, b, 0) == 0
  {}

  /** 0x73 is the one kind of a string block besides 0. */
  lemma MasksOfKind()
    ensures Xor(0x73, 0xAA) == 0xD9 && Xor(0x73, 0xAB) == 0xD8
  {
    hide *;
    NoBits(0, 0);
    XorStep(0, 1, 0, 0, 0, 0);
    XorStep(1, 2, 1, 0, 1, 1);
    XorStep(3, 5, 2, 1, 2, 3);
    XorStep(7, 10, 3, 3, 5, 6);
    XorStep(14, 21, 4, 7, 10, 13);
    XorStep(28, 42, 5, 14, 21, 27);
    XorStep(57, 85, 6, 28, 42, 54);
    XorOfBytes(0x73, 0xAA, 57, 85, 108);
    XorOfBytes(0x73, 0xAB, 57, 85, 108);
  }

  lemma MaskOfZero()
    ensures Xor(0, 0xAA) == 0xAA
  {
    hide *;
    NoBits(0, 0);
    XorStep(0, 1, 0, 0, 0, 0);
    XorStep(0, 2, 1, 0, 1, 1);
    XorStep(0, 5, 2, 0, 2, 2);
    XorStep(0, 10, 3, 0, 5, 5);
    XorStep(0, 21, 4, 0, 10, 10);
    XorStep(0, 42, 5, 0, 21, 21);
    XorStep(0, 85, 6, 0, 42, 42);
    XorOfBytes(0, 0xAA, 0, 85, 85);
  }

  lemma FirstMasks()
    ensures UnicodeMask(0) == 0xAAAA && UnicodeMask(1) == 0xAAAB
  {}

  lemma PairedAtFront(s: WString)
    requires |s| >= 2 && High(s[0]) && !Low(s[1])
    ensures !WellFormed(s)
  {}

  lemma FrontOfRepaired(raw: WString)
    requires |raw| >= 2
    ensures Repaired(raw)[0] == raw[0] || Repaired(raw)[0] == 0xFFFD
    ensures High(raw[0]) && Repaired(raw)[0] == raw[0] ==> Repaired(raw)[1] == raw[1]
  {
    if High(raw[0]) && Low(raw[1]) {
      assert Repaired(raw)[..2] == raw[..2];
    }
  }

  lemma FrontOfMasked(c: seq<byte>, at: nat, name: WString, i: nat)
    requires i + 2 <= |name| && LiesAt(c, at, MaskedFrom(name, i))
    ensures at + 4 <= |c|
    ensures name[i] == UnmaskPair(c[at], c[at + 1], UnicodeMask(i))
    ensures name[i + 1] == UnmaskPair(c[at + 2], c[at + 3], UnicodeMask(i + 1))
  {
    hide *;
    MaskedStep(name, i);
    MaskedStep(name, i + 1);
    TwoPairs(c, at, name[i], name[i + 1], UnicodeMask(i), UnicodeMask(i + 1), MaskedFrom(name, i), MaskedFrom(name, i + 1), MaskedFrom(name, i + 2));
  }

  lemma TwoPairs(c: seq<byte>, at: nat, u: unit, v: unit, m: nat, n: nat, all: seq<byte>, most: seq<byte>, rest: seq<byte>)
    requires m < 0x1_0000 && n < 0x1_0000 && LiesAt(c, at, all) && all == MaskPair(u, m) + most && most == MaskPair(v, n) + rest
    ensures at + 4 <= |c|
    ensures u == UnmaskPair(c[at], c[at + 1], m) && v == UnmaskPair(c[at + 2], c[at + 3], n)
  {
    hide *;
    LiesAtSplit3(c, at, MaskPair(u, m), MaskPair(v, n), rest);
    PairLies(c, at, MaskPair(u, m));
    PairLies(c, at + 2, MaskPair(v, n));
    PairTwice(u, m);
    PairTwice(v, n);
  }

  lemma MaskedStep(name: WString, i: nat)
    requires i < |name|
    ensures MaskedFrom(name, i) == MaskPair(name[i], UnicodeMask(i)) + MaskedFrom(name, i + 1)
  {
    hide MaskPair, UnicodeMask;
  }

  lemma PairLies(c: seq<byte>, at: nat, pair: seq<byte>)
    requires LiesAt(c, at, pair) && |pair| == 2
    ensures at + 2 <= |c| && c[at] == pair[0] && c[at + 1] == pair[1]
  {
    assert c[at] == c[at..at + 2][0] && c[at + 1] == c[at..at + 2][1];
  }

  lemma FrontOfUnmasked(text: seq<byte>)
    requires |text| >= 4 && |text| % 2 == 0
    ensures |UnmaskedFrom(text, 0)| >= 2
    ensures UnmaskedFrom(text, 0)[0] == UnmaskPair(text[0], text[1], UnicodeMask(0))
    ensures UnmaskedFrom(text, 0)[1] == UnmaskPair(text[2], text[3], UnicodeMask(1))
  {
    assert UnmaskedFrom(text, 0)[1..] == UnmaskedFrom(text[2..], 1);
  }

  lemma PairParts(low: byte, high: byte, mask: nat)
    requires mask < 0x1_0000
    ensures UnmaskPair(low, high, mask) as int % 256 == Xor(low, (mask % 256) as byte) as int
    ensures UnmaskPair(low, high, mask) as int / 256 == Xor(high, (mask / 256) as byte) as int
  {}

  /** How a length of 115 wide characters can be announced. */
  lemma WideLength(c: seq<byte>, at: nat, q: nat)
    requires ReadLength(c, at) == Ok((230, true), q)
    ensures at < |c|
    ensures (c[at] == 0x73 && q == at + 1) || (at + 5 <= |c| && c[at] == 0x7F && c[at + 1] == 0x73 && c[at + 3] == 0)
  {
    if c[at] != 0x73 {
      assert c[at] == 0x7F;
      var bytes := c[at + 1..at + 5];
      Powers();
      LittleEndianBounded(bytes);
      var v := FromLittleEndian(bytes);
      assert v == 115 || v == 115 + TWO31;
      assert v == bytes[0] as int + 256 * FromLittleEndian(bytes[1..]);
      assert FromLittleEndian(bytes[1..]) == bytes[1] as int + 256 * FromLittleEndian(bytes[1..][1..]);
      assert FromLittleEndian(bytes[1..][1..]) == bytes[2] as int + 256 * FromLittleEndian(bytes[1..][1..][1..]);
    }
  }

  lemma WideAndWellFormed(c: seq<byte>, at: nat, name: WString) returns (q: nat)
    requires Gives(ReadString(c, at), name) && |name| == 115 && !OneByte(name)
    ensures ReadLength(c, at) == Ok((230, true), q) && q + 230 <= |c|
    ensures WellFormed(name) && name == Repaired(UnmaskedFrom(c[q..q + 230], 0))
  {
    hide ReadLength, UnmaskedFrom, Repaired;
    q := ReadLength(c, at).next;
    var (length, wide) := ReadLength(c, at).value;
    assert wide;
    RepairedIsWellFormed(UnmaskedFrom(c[q..q + length], 0));
  }

  /** A length of 115 in four bytes: the first unit is a high surrogate and the second no low one. */
  lemma LongLengthClashes(name: WString, a: byte, b: byte, d: byte, e: byte)
    requires |name| >= 2 && b == 0x73 && e == 0
    requires name[0] == UnmaskPair(a, b, UnicodeMask(0)) && name[1] == UnmaskPair(d, e, UnicodeMask(1))
    ensures !WellFormed(name)
  {
    hide *;
    FirstMasks();
    MasksOfKind();
    MaskOfZero();
    PairParts(a, b, 0xAAAA);
    PairParts(d, e, 0xAAAB);
    SurrogateBytes(name[0]);
    SurrogateBytes(name[1]);
    PairedAtFront(name);
  }

  lemma SurrogateBytes(u: unit)
    ensures High(u) <==> 0xD8 <= u as int / 256 <= 0xDB
    ensures Low(u) <==> 0xDC <= u as int / 256 <= 0xDF
  {}

  /** The text itself as a length of 115: then its first four bytes are all 0x73, and again so. */
  lemma ShortLengthClashes(name: WString, raw: WString, a: byte, b: byte, d: byte, e: byte, f: byte)
    requires |name| >= 2 && |raw| >= 2 && name == Repaired(raw) && a == 0x73
    requires name[0] == UnmaskPair(a, b, UnicodeMask(0)) && name[1] == UnmaskPair(d, e, UnicodeMask(1))
    requires raw[0] == UnmaskPair(b, d, UnicodeMask(0)) && raw[1] == UnmaskPair(e, f, UnicodeMask(1))
    ensures !WellFormed(name)
  {
    hide *;
    FirstMasks();
    MasksOfKind();
    PairParts(a, b, 0xAAAA);
    PairParts(b, d, 0xAAAA);
    PairParts(d, e, 0xAAAB);
    PairParts(e, f, 0xAAAB);
    FrontOfRepaired(raw);
    SurrogateBytes(name[0]);
    SurrogateBytes(name[1]);
    assert name[0] != 0xFFFD;
    assert name[0] == raw[0];
    XorCancels(a, b, 0xAA);
    XorCancels(b, d, 0xAA);
    XorCancels(d, e, 0xAB);
    PairedAtFront(name);
  }

  /** No name of 115 wide characters reads as itself from one byte into it. */
  lemma NotItsOwnName(c: seq<byte>, at: nat, name: WString)
    requires |name| == 115 && !OneByte(name) && LiesAt(c, at, MaskedFrom(Repaired(name), 0))
    ensures !Gives(ReadString(c, at), name)
  {
    if Gives(ReadString(c, at), name) {
      var q := WideAndWellFormed(c, at, name);
      RepairedIsWellFormed(name);
      FrontOfMasked(c, at, name, 0);
      WideLength(c, at, q);
      var text := c[q..q + 230];
      FrontOfUnmasked(text);
      hide *;
      if c[at] == 0x73 && q == at + 1 {
        ShortLengthClashes(name, UnmaskedFrom(text, 0), c[at], c[at + 1], c[at + 2], c[at + 3], c[at + 4]);
      } else {
        LongLengthClashes(name, c[at], c[at + 1], c[at + 2], c[at + 3]);
      }
    }
  }

  /** What follows a written node is zero when it is another node. */
  lemma ZeroFollows(c: seq<byte>, at: nat, ns: seq<Node>)
    requires ValidNodes(ns) && ns != [] && ns[0].Node? && LiesAt(c, at, WriteNodes(ns))
    ensures ByteAt(c, at) == Some(0)
  {
    hide WriteString, WriteValue;
    var rest := WriteNodes(ns)[1..];
    assert WriteNodes(ns) == [0] + rest;
    LiesAtFirst(c, at, 0, rest);
  }

  lemma FirstByte(c: seq<byte>, at: nat, s: seq<byte>)
    requires s != [] && LiesAt(c, at, s)
    ensures ByteAt(c, at) == Some(s[0])
  {
    assert c[at] == c[at..at + |s|][0];
  }

  lemma KindOfNull(v: Value)
    requires ValidValue(v)
    ensures WriteValue(v)[0] == 0 <==> v == Null
    ensures v == Null ==> WriteValue(v) == [0]
    ensures WriteValue(v)[0] < 0x73
  {}

  lemma BlockShape(s: WString)
    requires |s| <= MAX_LENGTH
    ensures WriteBlock(s) == [0] + WriteString(s)
    ensures s == [] ==> WriteString(s) == [0]
  {
    if s == [] {
      assert OneByte(s) && TextOf(s) == [];
    }
  }

  lemma FirstOfLength(length: int)
    requires -MAX_LENGTH <= length <= MAX_LENGTH
    ensures WriteLength(length)[0] == 0 ==> length == 0 && WriteLength(length) == [0]
    ensures WriteLength(length)[0] == 1 ==> length == 1
    ensures WriteLength(length)[0] == 0x1B ==> length == 27
    ensures WriteLength(length)[0] == 0x73 ==> length == 115 && WriteLength(length) == [0x73]
  {}

  /** The first byte of a written string is 0 only for the empty one, 1 or 0x1B only for 1 or 27 wide
      characters, and 0x73 only for 115. */
  lemma FirstOfString(s: WString)
    requires |s| <= MAX_LENGTH
    ensures WriteString(s) != []
    ensures WriteString(s)[0] == 0 ==> s == [] && WriteString(s) == [0]
    ensures WriteString(s)[0] == 1 || WriteString(s)[0] == 0x1B ==> Lookalike(s)
    ensures WriteString(s)[0] == 0x73 ==>
      |s| == 115 && !OneByte(s) && WriteString(s) == [0x73] + MaskedFrom(Repaired(s), 0)
  {
    hide MaskedAscii, MaskedFrom, Repaired, WriteLength;
    FirstOfLength(LengthOf(s));
    assert WriteString(s)[0] == WriteLength(LengthOf(s))[0];
    if s == [] {
      assert TextOf(s) == [];
    }
  }

  /** A length byte that is not 0 and not an escape is not that of the empty string. */
  lemma NotEmptyString(c: seq<byte>, at: nat)
    requires at < |c| && 0 < c[at] < 0x73
    ensures !Gives(ReadString(c, at), [])
  {
    hide UnmaskedFrom, Repaired;
  }

  lemma EmptyString(c: seq<byte>, at: nat)
    requires at < |c| && c[at] == 0
    ensures ReadString(c, at) == Ok([], at + 1)
  {
    hide UnmaskedFrom, Repaired;
  }

  lemma NullAt(c: seq<byte>, start: nat, at: nat)
    ensures Gives(ReadValue(c, start, at), Null) <==> ByteAt(c, at) == Some(0)
    ensures ByteAt(c, at) == Some(0) ==> ReadValue(c, start, at) == Ok(Null, at + 1)
  {
    hide ReadBlock, ReadCompact, ReadFixed, ReadWrapped, ReadSingle;
  }

  lemma BlockParts(c: seq<byte>, start: nat, at: nat)
    requires at < |c|
    ensures c[at] == 0 || c[at] == 0x73 ==> ReadBlock(c, start, at) == ReadString(c, at + 1)
    ensures c[at] == 1 || c[at] == 0x1B ==> ReadBlock(c, start, at) == ReadShared(c, start, at + 1)
    ensures c[at] != 0 && c[at] != 0x73 && c[at] != 1 && c[at] != 0x1B ==> ReadBlock(c, start, at) == Fail
  {
    hide ReadString, ReadShared;
  }

  lemma NodeParts(c: seq<byte>, start: nat, at: nat, n: Node)
    requires at < |c| && n.Node?
    ensures Gives(ReadNode(c, start, at), n) <==>
      Gives(ReadBlock(c, start, at), n.name) && Gives(ReadValue(c, start, ReadBlock(c, start, at).next), n.value)
    ensures Gives(ReadNode(c, start, at), n) ==> ReadNode(c, start, at).next == ReadValue(c, start, ReadBlock(c, start, at).next).next
  {
    hide ReadBlock, ReadValue;
  }

  lemma NodesParts(c: seq<byte>, start: nat, at: nat, ns: seq<Node>)
    requires ns != []
    ensures Gives(ReadNodes(c, start, at, |ns|), ns) <==>
      Gives(ReadNode(c, start, at), ns[0]) && Gives(ReadNodes(c, start, ReadNode(c, start, at).next, |ns[1..]|), ns[1..])
  {
    hide ReadNode;
    if ReadNode(c, start, at).Ok? && ReadNodes(c, start, ReadNode(c, start, at).next, |ns[1..]|).Ok? {
      var first, rest := ReadNode(c, start, at).value, ReadNodes(c, start, ReadNode(c, start, at).next, |ns[1..]|).value;
      assert ([first] + rest)[0] == first && ([first] + rest)[1..] == rest;
      assert ns == [ns[0]] + ns[1..];
    }
  }

  /** One byte ahead a nameless null reads as itself if the byte after it is zero, and nothing else
      does unless its name looks like a de-duplicated one. */
  lemma NodeAhead(c: seq<byte>, start: nat, at: nat, name: WString, v: Value)
    requires |name| <= MAX_LENGTH && ValidValue(v) && LiesAt(c, at, WriteBlock(name) + WriteValue(v))
    ensures var end := at + |WriteBlock(name)| + |WriteValue(v)|;
      if name == [] && v == Null && ByteAt(c, end) == Some(0) then ReadNode(c, start, at + 1) == Ok(Node(name, v), end + 1)
      else Gives(ReadNode(c, start, at + 1), Node(name, v)) ==> Lookalike(name)
  {
    hide *;
    var text, value := WriteString(name), WriteValue(v);
    BlockShape(name);
    FirstOfString(name);
    KindOfNull(v);
    LiesAtSplit(c, at, [0] + text, value);
    LiesAtSplit(c, at, [0], text);
    FirstByte(c, at + 1, text);
    FirstByte(c, at + 1 + |text|, value);
    PartsAhead(c, start, at + 1, name, v, text, value);
  }

  lemma PartsAhead(c: seq<byte>, start: nat, at: nat, name: WString, v: Value, text: seq<byte>, value: seq<byte>)
    requires text != [] && value != [] && LiesAt(c, at, text)
    requires at < |c| && c[at] == text[0] && at + |text| < |c| && c[at + |text|] == value[0] < 0x73
    requires text[0] == 0 ==> name == [] && text == [0]
    requires text[0] == 1 || text[0] == 0x1B ==> Lookalike(name)
    requires text[0] == 0x73 ==> |name| == 115 && !OneByte(name) && text == [0x73] + MaskedFrom(Repaired(name), 0)
    requires value[0] == 0 <==> v == Null
    requires v == Null ==> value == [0]
    requires name == [] ==> text == [0]
    ensures var end := at + |text| + |value|;
      if name == [] && v == Null && ByteAt(c, end) == Some(0) then ReadNode(c, start, at) == Ok(Node(name, v), end + 1)
      else Gives(ReadNode(c, start, at), Node(name, v)) ==> Lookalike(name)
  {
    BlockParts(c, start, at);
    NodeParts(c, start, at, Node(name, v));
    hide ReadNode, ReadBlock, ReadValue, ReadString, ReadShared, MaskedFrom, Repaired, OneByte, Lookalike;
    if text[0] == 0x73 {
      LiesAtFirst(c, at, 0x73, MaskedFrom(Repaired(name), 0));
      NotItsOwnName(c, at + 1, name);
    } else if text[0] == 0 {
      if v == Null {
        EmptyString(c, at + 1);
        NullAt(c, start, at + 2);
      } else {
        NotEmptyString(c, at + 1);
      }
    }
  }

  /** So a list is read as itself from its second byte on if it is zeros and one more follows, and only
      then unless a name looks like a de-duplicated one. */
  lemma {:induction false} NodesAhead(c: seq<byte>, start: nat, at: nat, ns: seq<Node>)
    requires ValidNodes(ns) && AllPresent(ns) && ns != [] && LiesAt(c, at, WriteNodes(ns))
    ensures AllNameless(ns) && ByteAt(c, at + |WriteNodes(ns)|) == Some(0) ==> Gives(ReadNodes(c, start, at + 1, |ns|), ns)
    ensures ClearAhead(ns) && Gives(ReadNodes(c, start, at + 1, |ns|), ns) ==>
      AllNameless(ns) && ByteAt(c, at + |WriteNodes(ns)|) == Some(0)
    decreases |ns|
  {
    hide *;
    PresentParts(ns);
    var name, v, tail := ns[0].name, ns[0].value, ns[1..];
    NodesSplit(ns);
    NamelessParts(ns);
    ClearParts(ns);
    NodesParts(c, start, at + 1, ns);
    var node, rest := WriteBlock(name) + WriteValue(v), WriteNodes(tail);
    var end := at + |node|;
    LiesAtSplit(c, at, node, rest);
    NodeAhead(c, start, at, name, v);
    GivesOk(ReadNode(c, start, at + 1), ns[0], end + 1);
    if tail == [] {
      NothingFollows(c, start, end + 1);
    } else {
      PresentParts(tail);
      ZeroFollows(c, end, tail);
      NodesAhead(c, start, end, tail);
    }
  }

  lemma GivesOk<T>(r: Read<T>, v: T, next: nat)
    ensures r == Ok(v, next) ==> Gives(r, v)
  {}

  lemma ClearParts(ns: seq<Node>)
    requires ns != [] && ns[0].Node?
    ensures ClearAhead(ns) <==> if ns[0] == Node([], Null) then ClearAhead(ns[1..]) else !Lookalike(ns[0].name)
    ensures ClearNodes(ns) <==>
      if IsByte(ns[0].value) then ClearAhead(ns[1..]) else ClearValue(ns[0].value) && ClearNodes(ns[1..])
    ensures !Lookalike([])
  {}

  lemma PresentParts(ns: seq<Node>)
    requires AllPresent(ns) && ns != []
    ensures ns[0].Node? && AllPresent(ns[1..])
  {}

  lemma NamelessParts(ns: seq<Node>)
    requires ns != []
    ensures AllNameless(ns) <==> ns[0] == Node([], Null) && AllNameless(ns[1..])
  {
    if ns[0] == Node([], Null) && AllNameless(ns[1..]) {
      forall i | 0 <= i < |ns| ensures ns[i] == Node([], Null) { if i > 0 { assert ns[i] == ns[1..][i - 1]; } }
    }
  }

  lemma NothingFollows(c: seq<byte>, start: nat, at: nat)
    ensures AllNameless([]) && WriteNodes([]) == [] && Gives(ReadNodes(c, start, at, 0), [])
  {}

  // ---------------------------------------------------------------- the mutual induction

  /** The value of a byte property is whatever byte follows its type. */
  lemma ByteSurvives(c: seq<byte>, start: nat, at: nat, v: Value)
    requires ValidValue(v) && IsByte(v) && LiesAt(c, at, WriteValue(v))
    ensures Gives(ReadValue(c, start, at), v) <==> SurvivesValue(v, ByteAt(c, at + 1))
    ensures Gives(ReadValue(c, start, at), v) ==> ReadValue(c, start, at).next == at + 2
    ensures |WriteValue(v)| == 1
  {
    hide ReadBlock, ReadCompact, ReadFixed, ReadWrapped, ReadSingle;
    FirstByte(c, at, WriteValue(v));
  }

  lemma ScalarSurvives(c: seq<byte>, start: nat, at: nat, v: Value, next: Option<byte>)
    requires ValidValue(v) && !Extended(v) && !IsByte(v) && LiesAt(c, at, WriteValue(v))
    ensures Gives(ReadValue(c, start, at), v) <==> SurvivesValue(v, next)
    ensures ReadValue(c, start, at).Ok? && ReadValue(c, start, at).next == at + |WriteValue(v)|
  {
    ScalarBack(c, start, at, v, false);
    hide ReadValue, WriteValue, LiesAt, Stored, StoredSingle, NegativeWhole, Storable;
    match v
    case Text(s) => StoredIffStorable(s);
    case Single(bits) => SingleStoredIff(bits);
    case _ =>
  }

  lemma SubReads(c: seq<byte>, start: nat, at: nat, p: nat, children: seq<Node>)
    requires ReadBlock(c, start, at) == Ok(PROPERTY, p)
    ensures Gives(ReadExtended(c, start, at), Sub(children)) <==> Gives(ReadList(c, start, p + 2), children)
  {
    hide ReadBlock, ReadList;
  }

  lemma {:induction false} SubSurvives(c: seq<byte>, start: nat, at: nat, k: WString, children: seq<Node>)
    requires k == PROPERTY && Keyword(k) && |k| <= MAX_LENGTH && ValidNodes(children) && |c| < TWO32
    requires LiesAt(c, at, WriteBlock(k) + ([0, 0] + WriteList(children)))
    ensures var end := at + |WriteBlock(k)| + 2 + |WriteList(children)|;
      && (SurvivesList(children, ByteAt(c, end)) ==> Gives(ReadExtended(c, start, at), Sub(children)))
      && (ClearNodes(children) && Gives(ReadExtended(c, start, at), Sub(children)) ==> SurvivesList(children, ByteAt(c, end)))
    decreases children, 6
  {
    hide *;
    var kind, list := WriteBlock(k), WriteList(children);
    LiesAtSplit3(c, at, kind, [0, 0], list);
    KeywordBack(c, start, at, k);
    SubReads(c, start, at, at + |kind|, children);
    ListSurvives(c, start, at + |kind| + 2, children);
  }

  lemma {:induction false} ExtendedSurvives(c: seq<byte>, start: nat, at: nat, v: Value)
    requires ValidValue(v) && Extended(v) && LiesAt(c, at, WriteExtended(v)) && |c| < TWO32
    ensures SurvivesValue(v, ByteAt(c, at + |WriteExtended(v)|)) ==> Gives(ReadExtended(c, start, at), v)
    ensures ClearValue(v) && Gives(ReadExtended(c, start, at), v) ==> SurvivesValue(v, ByteAt(c, at + |WriteExtended(v)|))
    decreases v, 0
  {
    hide ReadExtended, WriteBlock, Compact, WriteList, LiesAt, Stored, Storable, Kept, SurvivesList, ClearNodes, ByteAt;
    match v
    case Vector2(x, y) => VectorBack(c, start, at, VECTOR, x, y);
    case Uol(s) =>
      UolBack(c, start, at, UOL, s);
      StoredIffStorable(s);
    case Sub(children) => SubSurvives(c, start, at, PROPERTY, children);
  }

  lemma WrappedReads(c: seq<byte>, start: nat, at: nat, length: nat, v: Value)
    requires at < |c| && c[at] == 9 && ReadFixed(c, at + 1, 4) == Ok(length, at + 5)
    ensures Gives(ReadValue(c, start, at), v) <==> Gives(ReadExtended(c, start, at + 5), v)
    ensures Gives(ReadValue(c, start, at), v) ==> ReadValue(c, start, at).next == at + 5 + length
  {
    hide ReadExtended, ReadFixed;
  }

  lemma {:induction false} WrappedSurvives(c: seq<byte>, start: nat, at: nat, v: Value, block: seq<byte>)
    requires ValidValue(v) && Extended(v) && block == WriteExtended(v) && |c| < TWO32
    requires LiesAt(c, at, [9] + (ToLittleEndian(|block|, 4) + block))
    ensures SurvivesValue(v, ByteAt(c, at + 5 + |block|)) ==> Gives(ReadValue(c, start, at), v)
    ensures ClearValue(v) && Gives(ReadValue(c, start, at), v) ==> SurvivesValue(v, ByteAt(c, at + 5 + |block|))
    ensures Gives(ReadValue(c, start, at), v) ==> ReadValue(c, start, at).next == at + 5 + |block|
    decreases v, 1
  {
    hide *;
    BlockHeaderBack(c, at, block);
    ExtendedSurvives(c, start, at + 5, v);
    WrappedReads(c, start, at, |block|, v);
  }

  lemma {:induction false} ValueSurvives(c: seq<byte>, start: nat, at: nat, v: Value)
    requires ValidValue(v) && !IsByte(v) && LiesAt(c, at, WriteValue(v)) && |c| < TWO32
    ensures var end := at + |WriteValue(v)|;
      && (SurvivesValue(v, ByteAt(c, end)) ==> Gives(ReadValue(c, start, at), v))
      && (ClearValue(v) && Gives(ReadValue(c, start, at), v) ==> SurvivesValue(v, ByteAt(c, end)))
      && (Gives(ReadValue(c, start, at), v) ==> ReadValue(c, start, at).next == end)
    decreases v, 2
  {
    hide *;
    if Extended(v) {
      WrappedShape(v);
      WrappedSurvives(c, start, at, v, WriteExtended(v));
    } else {
      ScalarSurvives(c, start, at, v, ByteAt(c, at + |WriteValue(v)|));
    }
  }

  lemma NameSurvives(c: seq<byte>, start: nat, at: nat, name: WString)
    requires |name| <= MAX_LENGTH && LiesAt(c, at, WriteBlock(name))
    ensures Gives(ReadBlock(c, start, at), name) <==> Storable(name)
    ensures ReadBlock(c, start, at).Ok? && ReadBlock(c, start, at).next == at + |WriteBlock(name)| && at < |c|
  {
    hide ReadBlock, WriteBlock, LiesAt, Stored, Storable;
    BlockBack(c, start, at, name);
    StoredIffStorable(name);
    LiesInside(c, at, WriteBlock(name));
  }

  lemma SurvivesParts(ns: seq<Node>, next: Option<byte>)
    requires ns != []
    ensures SurvivesNodes(ns, next) <==>
      && ns[0].Node? && Storable(ns[0].name)
      && SurvivesValue(ns[0].value, if ns[1..] == [] then next else Some(0))
      && if IsByte(ns[0].value) && ns[1..] != [] then AllNameless(ns[1..]) && next == Some(0) else SurvivesNodes(ns[1..], next)
  {}

  lemma {:induction false} NodesSurvive(c: seq<byte>, start: nat, at: nat, ns: seq<Node>)
    requires ValidNodes(ns) && AllPresent(ns) && LiesAt(c, at, WriteNodes(ns)) && |c| < TWO32
    ensures SurvivesNodes(ns, ByteAt(c, at + |WriteNodes(ns)|)) ==> Gives(ReadNodes(c, start, at, |ns|), ns)
    ensures ClearNodes(ns) && Gives(ReadNodes(c, start, at, |ns|), ns) ==> SurvivesNodes(ns, ByteAt(c, at + |WriteNodes(ns)|))
    decreases ns, 3
  {
    hide *;
    if ns == [] {
      NothingFollows(c, start, at);
      NothingSurvives(ByteAt(c, at));
    } else {
      PresentParts(ns);
      NodesSplit(ns);
      FirstSurvives(c, start, at, ns, ns[0].name, ns[0].value, ns[1..]);
    }
  }

  lemma {:induction false} FirstSurvives(c: seq<byte>, start: nat, at: nat, ns: seq<Node>, name: WString, v: Value, tail: seq<Node>)
    requires ns != [] && ns[0] == Node(name, v) && ns[1..] == tail && |c| < TWO32
    requires |name| <= MAX_LENGTH && ValidValue(v) && ValidNodes(tail) && AllPresent(tail)
    requires LiesAt(c, at, WriteBlock(name) + WriteValue(v) + WriteNodes(tail))
    ensures var end := at + |WriteBlock(name)| + |WriteValue(v)| + |WriteNodes(tail)|;
      && (SurvivesNodes(ns, ByteAt(c, end)) ==> Gives(ReadNodes(c, start, at, |ns|), ns))
      && (ClearNodes(ns) && Gives(ReadNodes(c, start, at, |ns|), ns) ==> SurvivesNodes(ns, ByteAt(c, end)))
    decreases ns, 2
  {
    hide *;
    var p := at + |WriteBlock(name)|;
    var end := p + |WriteValue(v)|;
    LiesAtSplit(c, at, WriteBlock(name) + WriteValue(v), WriteNodes(tail));
    LiesAtSplit(c, at, WriteBlock(name), WriteValue(v));
    NameSurvives(c, start, at, name);
    NodeParts(c, start, at, ns[0]);
    NodesParts(c, start, at, ns);
    SurvivesParts(ns, ByteAt(c, end + |WriteNodes(tail)|));
    ClearParts(ns);
    if tail == [] {
      NothingFollows(c, start, end);
      NothingFollows(c, start, end + 1);
    } else {
      PresentParts(tail);
      ZeroFollows(c, end, tail);
    }
    if IsByte(v) {
      ByteSurvives(c, start, p, v);
      if tail == [] {
        NothingSurvives(ByteAt(c, end));
      } else {
        NodesAhead(c, start, end, tail);
      }
    } else {
      ValueSurvives(c, start, p, v);
      NodesSurvive(c, start, end, tail);
    }
  }

  lemma NothingSurvives(next: Option<byte>)
    ensures SurvivesNodes([], next)
  {}

  /** Null children never come back. */
  lemma {:induction false} SurvivorsArePresent(ns: seq<Node>, next: Option<byte>)
    ensures SurvivesNodes(ns, next) ==> AllPresent(ns)
    ensures CountPresent(ns) == |ns| <==> AllPresent(ns)
  {
    if ns != [] {
      SurvivorsArePresent(ns[1..], next);
      assert AllPresent(ns) <==> ns[0].Node? && AllPresent(ns[1..]) by {
        if ns[0].Node? && AllPresent(ns[1..]) {
          forall i | 0 <= i < |ns| ensures ns[i].Node? { if i > 0 { assert ns[i] == ns[1..][i - 1]; } }
        }
      }
      assert AllNameless(ns[1..]) ==> AllPresent(ns[1..]);
    }
  }

  lemma EmptyNameLength(name: WString)
    requires |name| <= MAX_LENGTH
    ensures |WriteBlock(name)| >= 2 && (|WriteBlock(name)| == 2 <==> name == [])
  {
    if name == [] { assert OneByte(name) && LengthOf(name) == 0; }
  }

  /** Three bytes are one node: a nameless null or a nameless byte. */
  lemma ThreeByteNodes(ns: seq<Node>)
    requires ValidNodes(ns) && AllPresent(ns) && ns != []
    ensures |WriteNodes(ns)| >= 3
    ensures |WriteNodes(ns)| == 3 <==> ns[1..] == [] && ns[0].name == [] && (ns[0].value == Null || IsByte(ns[0].value))
  {
    hide *;
    PresentParts(ns);
    NodesSplit(ns);
    EmptyNameLength(ns[0].name);
    SurvivorsArePresent(ns[1..], None);
  }

  lemma SurvivesListParts(ns: seq<Node>, next: Option<byte>)
    ensures SurvivesList(ns, next) <==> SurvivesNodes(ns, next) && (next == None ==> ns != [Node([], Null)])
  {
    hide SurvivesNodes;
  }

  lemma ShortListLost(ns: seq<Node>)
    requires ValidNodes(ns) && AllPresent(ns) && |WriteList(ns)| <= 4 && ns != []
    ensures !SurvivesList(ns, None)
  {
    ThreeByteNodes(ns);
    PresentParts(ns);
    ListShape(ns);
    CompactNotEmpty(CountPresent(ns));
    SurvivesListParts(ns, None);
    SurvivesParts(ns, None);
    hide WriteNodes, WriteList, Compact, ValidNodes, CountPresent, SurvivesNodes, SurvivesList;
    assert ns == [ns[0]] + ns[1..];
  }

  lemma CompactNotEmpty(n: int)
    requires Int32(n)
    ensures |Compact(n, 4)| >= 1
  {
    Powers();
  }

  lemma NamelessNullLength()
    ensures ValidNodes([Node([], Null)]) && |WriteList([Node([], Null)])| == 4
  {
    EmptyNameLength([]);
    NodesSplit([Node([], Null)]);
    assert CountPresent([Node([], Null)]) == 1;
    assert |Compact(1, 4)| == 1;
  }

  lemma ListParts(c: seq<byte>, start: nat, at: nat, n: nat, p: nat, ns: seq<Node>)
    requires ReadCompact(c, at, 4) == Ok(n, p)
    ensures at + 4 < |c| ==> ReadList(c, start, at) == ReadNodes(c, start, p, n)
    ensures at + 4 >= |c| ==> (Gives(ReadList(c, start, at), ns) <==> ns == [])
  {
    hide ReadCompact, ReadNodes;
  }

  lemma {:induction false} ListSurvives(c: seq<byte>, start: nat, at: nat, ns: seq<Node>)
    requires ValidNodes(ns) && LiesAt(c, at, WriteList(ns)) && |c| < TWO32
    ensures SurvivesList(ns, ByteAt(c, at + |WriteList(ns)|)) ==> Gives(ReadList(c, start, at), ns)
    ensures ClearNodes(ns) && Gives(ReadList(c, start, at), ns) ==> SurvivesList(ns, ByteAt(c, at + |WriteList(ns)|))
    decreases ns, 5
  {
    hide Compact, WriteNodes, WriteList, ReadList, ReadNodes, ReadCompact, SurvivesNodes, SurvivesList, ClearNodes, ValidNodes, LiesAt, CountPresent, AllPresent;
    ListShape(ns);
    var n, end := CountPresent(ns), at + |WriteList(ns)|;
    var p := at + |Compact(n, 4)|;
    LiesInside(c, at, WriteList(ns));
    LiesAtSplit(c, at, Compact(n, 4), WriteNodes(ns));
    CompactBack(c, at, n, 4);
    ListParts(c, start, at, n, p, ns);
    SurvivorsArePresent(ns, ByteAt(c, end));
    SurvivesListParts(ns, ByteAt(c, end));
    if ns == [] {
      NothingSurvives(ByteAt(c, end));
      NothingFollows(c, start, p);
    } else if AllPresent(ns) {
      NodesSurvive(c, start, p, ns);
      ThreeByteNodes(ns);
      NamelessNullLength();
      if at + 4 >= |c| {
        ShortListLost(ns);
      }
    }
  }

  // ---------------------------------------------------------------- the theorems

  lemma ImageAtSurvives(c: seq<byte>, at: nat, ns: seq<Node>)
    requires ValidNodes(ns) && |c| < TWO32 && LiesAt(c, at, WriteImage(ns))
    ensures SurvivesList(ns, ByteAt(c, at + |WriteImage(ns)|)) ==> Gives(ReadImage(c, at), ns)
    ensures ClearNodes(ns) && Gives(ReadImage(c, at), ns) ==> SurvivesList(ns, ByteAt(c, at + |WriteImage(ns)|))
  {
    hide *;
    var p := ImageIsItsList(c, at, ns);
    ListSurvives(c, at, p, ns);
  }

  lemma LiesBetween(before: seq<byte>, s: seq<byte>, after: seq<byte>)
    ensures var c := before + s + after;
      LiesAt(c, |before|, s) && ByteAt(c, |before| + |s|) == if after == [] then None else Some(after[0])
  {}

  /** Reading an image undoes writing it, after any bytes and before any bytes, if the list survives the
      byte that comes after it, if one does; and only if, unless some name behind a byte looks like a
      de-duplicated one. */
  lemma ImageRoundTrip(before: seq<byte>, ns: seq<Node>, after: seq<byte>)
    requires ValidNodes(ns) && |before + WriteImage(ns) + after| < TWO32
    ensures var back := Gives(ReadImage(before + WriteImage(ns) + after, |before|), ns);
      var survives := SurvivesList(ns, if after == [] then None else Some(after[0]));
      (survives ==> back) && (ClearNodes(ns) ==> (back <==> survives))
  {
    hide *;
    LiesBetween(before, WriteImage(ns), after);
    ImageAtSurvives(before + WriteImage(ns) + after, |before|, ns);
  }

  /** Nothing in the tree is changed by its own content: no null children, no bytes, and only strings
      and numbers the format can hold. */
  predicate PlainValue(v: Value)
    decreases v
  {
    match v
    case Text(s) => Storable(s)
    case Uol(s) => Storable(s)
    case Single(bits) => !NegativeWhole(bits)
    case Sub(children) => PlainNodes(children)
    case _ => !IsByte(v)
  }

  predicate PlainNodes(ns: seq<Node>)
    decreases ns
  {
    forall i :: 0 <= i < |ns| ==> ns[i].Node? && Storable(ns[i].name) && PlainValue(ns[i].value)
  }

  predicate NamesNonEmpty(ns: seq<Node>)
    decreases ns
  {
    forall i :: 0 <= i < |ns| && ns[i].Node? ==>
      ns[i].name != [] && (ns[i].value.Sub? ==> NamesNonEmpty(ns[i].value.children))
  }

  lemma {:induction false} PlainListSurvives(ns: seq<Node>, next: Option<byte>)
    requires PlainNodes(ns) && NamesNonEmpty(ns)
    ensures SurvivesNodes(ns, next) && SurvivesList(ns, next)
    decreases ns
  {
    if ns != [] {
      var v, follows := ns[0].value, if ns[1..] == [] then next else Some(0);
      assert forall i :: 0 <= i < |ns[1..]| ==> ns[1..][i] == ns[i + 1];
      PlainListSurvives(ns[1..], next);
      assert PlainValue(v) && ns[0].name != [];
      if v.Sub? {
        assert NamesNonEmpty(v.children);
        PlainListSurvives(v.children, follows);
      }
      assert SurvivesValue(v, follows) && !IsByte(v);
      SurvivesParts(ns, next);
      SurvivesListParts(ns, next);
    } else {
      SurvivesListParts(ns, next);
    }
  }

  /** In particular every plain tree whose names are not empty comes back, wherever it lies. */
  lemma NamedImageRoundTrip(before: seq<byte>, ns: seq<Node>, after: seq<byte>)
    requires ValidNodes(ns) && |before + WriteImage(ns) + after| < TWO32
    requires PlainNodes(ns) && NamesNonEmpty(ns)
    ensures Gives(ReadImage(before + WriteImage(ns) + after, |before|), ns)
  {
    PlainListSurvives(ns, if after == [] then None else Some(after[0]));
    hide *;
    ImageRoundTrip(before, ns, after);
  }

  lemma {:induction false} ByteStopsNodes(ns: seq<Node>, i: nat, next: Option<byte>)
    requires i + 1 < |ns| && ns[i].Node? && IsByte(ns[i].value) && ns[i + 1] != Node([], Null)
    ensures !SurvivesNodes(ns, next)
  {
    SurvivesParts(ns, next);
    assert ns[1..][i] == ns[i + 1];
    if i > 0 {
      assert ns[1..][i - 1] == ns[i];
      ByteStopsNodes(ns[1..], i - 1, next);
    }
  }

  /** An image in whose list anything but a nameless null follows a byte does not come back, unless some
      name looks like a de-duplicated one. */
  lemma ByteLosesTheRest(before: seq<byte>, ns: seq<Node>, after: seq<byte>, i: nat)
    requires ValidNodes(ns) && |before + WriteImage(ns) + after| < TWO32 && ClearNodes(ns)
    requires i + 1 < |ns| && ns[i].Node? && IsByte(ns[i].value) && ns[i + 1] != Node([], Null)
    ensures !Gives(ReadImage(before + WriteImage(ns) + after, |before|), ns)
  {
    var next := if after == [] then None else Some(after[0]);
    ByteStopsNodes(ns, i, next);
    SurvivesListParts(ns, next);
    hide *;
    ImageRoundTrip(before, ns, after);
  }

  lemma LostAtEnd(ns: seq<Node>)
    requires ValidNodes(ns) && |WriteImage(ns)| < TWO32 && ClearNodes(ns) && !SurvivesList(ns, None)
    ensures !Gives(ReadImage(WriteImage(ns), 0), ns)
  {
    hide *;
    assert [] + WriteImage(ns) + [] == WriteImage(ns);
    ImageRoundTrip([], ns, []);
  }

  lemma FewBytes(s: WString)
    requires |s| <= MAX_LENGTH
    ensures |WriteString(s)| <= 5 + 2 * |s|
  {}

  /** One nameless null property at the very end of the stream is lost. */
  lemma NamelessNullIsLost()
    ensures ValidNodes([Node([], Null)]) && !Gives(ReadImage(WriteImage([Node([], Null)]), 0), [Node([], Null)])
  {
    hide WriteImage, WriteString, WriteList, SurvivesList, ReadImage, ValidNodes;
    NamelessNullLength();
    ImageShape([Node([], Null)]);
    FewBytes(PROPERTY);
    assert |PROPERTY| == 8;
    SurvivesListParts([Node([], Null)], None);
    assert ClearNodes([Node([], Null)]);
    LostAtEnd([Node([], Null)]);
  }

  /** Minus one, 0xBF800000, is written as the byte 0xFF and read back as 255, 0x437F0000. */
  lemma MinusOneIsLost()
    ensures NegativeWhole(0xBF80_0000) && WriteSingle(0xBF80_0000) == [0xFF]
    ensures StoredSingle(0xBF80_0000) == 0x437F_0000
  {}
}
