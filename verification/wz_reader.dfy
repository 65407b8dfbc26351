/** The reader of `Tools/PKG1/WZReader.cs` and the parser of `Tools/PKG1/PropertyResolvers.cs`: a stream
    with a cursor that moves as things are read.  Every method answers what the functions of
    `WzPrimitives` and `WzTree` say; a missing answer is an exception. */
module WzReaders {
  import opened Basics
  import opened Bytes
  import opened WzPrimitives
  import opened WzTree

  /** What was read before, in front of what a further read yields. */
  function Joined(before: seq<Node>, r: Read<seq<Node>>): Read<seq<Node>> {
    match r
    case Ok(rest, next) => Ok(before + rest, next)
    case Fail => Fail
  }

  lemma OneMoreNode(c: seq<byte>, start: nat, at: nat, before: seq<Node>, count: nat, n: Node, next: nat)
    requires count > 0 && ReadNode(c, start, at) == Ok(n, next)
    ensures Joined(before, ReadNodes(c, start, at, count)) == Joined(before + [n], ReadNodes(c, start, next, count - 1))
  {
    hide ReadNode;
    match ReadNodes(c, start, next, count - 1)
    case Ok(rest, _) => assert before + [n] + rest == before + ([n] + rest);
    case Fail =>
  }

  lemma BadNode(c: seq<byte>, start: nat, at: nat, before: seq<Node>, count: nat)
    requires count > 0 && ReadNode(c, start, at) == Fail
    ensures Joined(before, ReadNodes(c, start, at, count)) == Fail
  {
    hide ReadNode;
  }

  lemma NoMoreNodes(c: seq<byte>, start: nat, at: nat, before: seq<Node>)
    ensures Joined(before, ReadNodes(c, start, at, 0)) == Ok(before, at)
  {
    assert before + [] == before;
  }

  lemma ShortList(c: seq<byte>, start: nat, at: nat)
    requires at + 4 >= |c|
    ensures ReadList(c, start, at) == Ok([], at)
  {}

  lemma NoList(c: seq<byte>, start: nat, at: nat)
    requires at + 4 < |c| && (ReadCompact(c, at, 4) == Fail || ReadCompact(c, at, 4).value < 0)
    ensures ReadList(c, start, at) == Fail
  {
    hide ReadCompact;
  }

  lemma WholeList(c: seq<byte>, start: nat, at: nat, count: nat, next: nat)
    requires at + 4 < |c| && ReadCompact(c, at, 4) == Ok(count, next)
    ensures ReadList(c, start, at) == Joined([], ReadNodes(c, start, next, count))
  {
    hide ReadCompact;
    match ReadNodes(c, start, next, count)
    case Ok(rest, _) => assert [] + rest == rest;
    case Fail =>
  }

  /** `Encoding.Unicode` takes the bytes two by two. */
  function Units(bytes: seq<byte>): (s: WString)
    requires |bytes| % 2 == 0
    ensures |s| == |bytes| / 2
  {
    if bytes == [] then [] else [(bytes[0] as int + 256 * bytes[1] as int) as unit] + Units(bytes[2..])
  }

  /** The mask of byte `k` of a two-byte text: the low or the high half of its unit's mask. */
  function MaskByte(k: nat): byte {
    if k % 2 == 0 then (UnicodeMask(k / 2) % 256) as byte else (UnicodeMask(k / 2) / 256) as byte
  }

  lemma NextIndex(j: nat, h: nat)
    requires j == 2 * h
    ensures j % 2 == 0 && j / 2 == h && (j + 1) % 2 == 1 && (j + 1) / 2 == h
  {}

  lemma NextMask(h: nat)
    ensures UnicodeMask(h + 1) == if UnicodeMask(h) == 0xFFFF then 0 else UnicodeMask(h) + 1
  {}

  lemma MaskBytes(j: nat)
    requires j % 2 == 0
    ensures MaskByte(j) == (UnicodeMask(j / 2) % 256) as byte && MaskByte(j + 1) == (UnicodeMask(j / 2) / 256) as byte
    ensures UnicodeMask(j / 2 + 1) == if UnicodeMask(j / 2) == 0xFFFF then 0 else UnicodeMask(j / 2) + 1
  {
    hide UnicodeMask;
    NextIndex(j, j / 2);
    NextMask(j / 2);
  }

  /** Unmasking byte by byte and then taking them two by two gives the unmasked text. */
  lemma {:induction false} UnmaskedPairs(text: seq<byte>, plain: seq<byte>, j: nat)
    requires |text| == |plain| && |text| % 2 == 0 && j % 2 == 0
    requires forall k :: 0 <= k < |text| ==> plain[k] == Xor(text[k], MaskByte(j + k))
    ensures Units(plain) == UnmaskedFrom(text, j / 2)
    decreases |text|
  {
    hide Xor, MaskByte, UnicodeMask;
    if text != [] {
      MaskBytes(j);
      assert plain[0] == Xor(text[0], MaskByte(j + 0)) && plain[1] == Xor(text[1], MaskByte(j + 1));
      forall k | 0 <= k < |text[2..]| ensures plain[2..][k] == Xor(text[2..][k], MaskByte(j + 2 + k)) {
        assert plain[2 + k] == Xor(text[2 + k], MaskByte(j + (2 + k)));
      }
      UnmaskedPairs(text[2..], plain[2..], j + 2);
    }
  }

  class WzReader {
    const content: seq<byte>
    var position: nat
    var containerStart: nat      // where the image being read starts

    constructor (bytes: seq<byte>, start: nat)
      ensures content == bytes && position == containerStart == start
    {
      content, position, containerStart := bytes, start, start;
    }

    /** The answer and the cursor are those of the specification. */
    ghost predicate Answers<T>(spec: Read<T>, answer: Option<T>)
      reads this
    {
      match spec
      case Ok(v, next) => answer == Some(v) && position == next
      case Fail => answer == None
    }

    method NextByte() returns (answer: Option<byte>)
      modifies this`position
      ensures Answers(ReadByte(content, old(position)), answer)
    {
      if position >= |content| { return None; }
      answer := Some(content[position]);
      position := position + 1;
    }

    method NextFixed(bytes: nat) returns (answer: Option<nat>)
      modifies this`position
      ensures Answers(ReadFixed(content, old(position), bytes), answer)
    {
      if position + bytes > |content| { return None; }
      answer := Some(FromLittleEndian(content[position..position + bytes]));
      position := position + bytes;
    }

    method NextSigned(bytes: nat) returns (answer: Option<int>)
      modifies this`position
      ensures Answers(ReadSigned(content, old(position), bytes), answer)
    {
      var v := NextFixed(bytes);
      answer := if v.Some? then Some(Signed(v.value, bytes)) else None;
    }

    method NextSByte() returns (answer: Option<int>)
      modifies this`position
      ensures Answers(ReadSByte(content, old(position)), answer)
    {
      var b := NextByte();
      answer := if b.None? then None else Some(if b.value >= 128 then b.value as int - 256 else b.value as int);
    }

    /** `ReadWzInt` for four bytes, `ReadWzLong` for eight. */
    method NextCompact(bytes: nat) returns (answer: Option<int>)
      modifies this`position
      ensures Answers(ReadCompact(content, old(position), bytes), answer)
    {
      hide ReadSigned;
      var possible := NextSByte();
      if possible == Some(-128) {
        answer := NextSigned(bytes);
      } else {
        answer := possible;
      }
    }

    /** `ReadWzSingle`: a whole number in one byte, or the escape and all four bytes. */
    method NextSingle() returns (answer: Option<nat>)
      modifies this`position
      ensures Answers(ReadSingle(content, old(position)), answer)
    {
      hide BitsOf;
      var t := NextByte();
      if t.None? { return None; }
      if t.value == 0x80 {
        answer := NextFixed(4);
      } else {
        answer := Some(BitsOf(t.value as nat));
      }
    }

    /** The running mask of two-byte text, applied in place. */
    method Unmask(textData: array<byte>)
      requires textData.Length % 2 == 0
      modifies textData
      ensures Units(textData[..]) == UnmaskedFrom(old(textData[..]), 0)
    {
      hide Xor, Units, UnmaskedFrom, MaskByte, UnicodeMask;
      var unicodeMask := UnicodeMask(0);
      var i := 0;
      while i < textData.Length
        invariant i <= textData.Length && i % 2 == 0 && unicodeMask == UnicodeMask(i / 2)
        invariant forall k :: 0 <= k < i ==> textData[k] == Xor(old(textData[k]), MaskByte(0 + k))
        invariant forall k :: i <= k < textData.Length ==> textData[k] == old(textData[k])
      {
        MaskBytes(i);
        textData[i] := Xor(textData[i], (unicodeMask % 256) as byte);
        textData[i + 1] := Xor(textData[i + 1], (unicodeMask / 256) as byte);
        unicodeMask := if unicodeMask == 0xFFFF then 0 else unicodeMask + 1;
        i := i + 2;
      }
      UnmaskedPairs(old(textData[..]), textData[..], 0);
    }

    method TextLength() returns (answer: Option<(int, bool)>)
      modifies this`position
      ensures Answers(ReadLength(content, old(position)), answer)
    {
      hide FromLittleEndian, ReadSByte;
      var short := NextSByte();
      if short.None? { return None; }
      if short.value > 0 {
        if short.value == 127 {
          var length := NextSigned(4);
          if length.None? { return None; }
          LittleEndianBounded(content[position - 4..position]);
          Powers();
          answer := Some((Doubled(length.value), true));
        } else {
          answer := Some((2 * short.value, true));
        }
      } else if short.value == -128 {
        var length := NextSigned(4);
        answer := if length.Some? then Some((length.value, false)) else None;
      } else {
        answer := Some((-short.value, false));
      }
    }

    method NextText(length: int, wide: bool) returns (answer: Option<WString>)
      requires position <= |content| && (wide ==> length % 2 == 0)
      modifies this`position
      ensures Answers(ReadText(content, old(position), length, wide), answer)
    {
      hide Repaired, UnmaskedFrom, UnmaskedAscii;
      if length < 0 { return None; }
      if wide && position + length > |content| { return None; }
      var end := if position + length <= |content| then position + length else |content|;
      var text := content[position..end];
      position := end;
      if wide {
        var textData := new byte[|text|](i requires 0 <= i < |text| => text[i]);
        assert textData[..] == text;
        Unmask(textData);
        answer := Some(Repaired(Units(textData[..])));
      } else {
        answer := Some(UnmaskedAscii(text));
      }
    }

    method NextString() returns (answer: Option<WString>)
      modifies this`position
      ensures Answers(ReadString(content, old(position)), answer)
    {
      hide ReadLength, ReadText;
      var length := TextLength();
      if length.None? { return None; }
      answer := NextText(length.value.0, length.value.1);
    }

    /** Reads where the four bytes point to and puts the cursor back behind them. */
    method NextShared() returns (answer: Option<WString>)
      modifies this`position
      ensures Answers(ReadShared(content, containerStart, old(position)), answer)
    {
      hide ReadString, ReadSigned;
      var offset := NextSigned(4);
      if offset.None? || containerStart + offset.value < 0 { return None; }
      var currentOffset := position;
      position := containerStart + offset.value;
      answer := NextString();
      position := currentOffset;
    }

    method NextBlock() returns (answer: Option<WString>)
      modifies this`position
      ensures Answers(ReadBlock(content, containerStart, old(position)), answer)
    {
      hide ReadString, ReadShared;
      var kind := NextByte();
      if kind == Some(0) || kind == Some(0x73) {
        answer := NextString();
      } else if kind == Some(1) || kind == Some(0x1B) {
        answer := NextShared();
      } else {
        answer := None;
      }
    }

    method ParseExtendedProperty() returns (answer: Option<Value>)
      modifies this`position
      ensures Answers(ReadExtended(content, containerStart, old(position)), answer)
      decreases Left(content, position), 3
    {
      hide ReadShared, ReadBlock, ReadCompact, ReadList;
      var kind := NextBlock();
      if kind.None? { return None; }
      if kind.value == PROPERTY {
        var start := position;
        position := position + 2;
        var children := PropertyList();
        position := start;
        answer := if children.Some? then Some(Sub(children.value)) else None;
      } else if kind.value == VECTOR {
        var x := NextCompact(4);
        if x.None? { return None; }
        var y := NextCompact(4);
        answer := if y.Some? then Some(Vector2(x.value, y.value)) else None;
      } else if kind.value == UOL {
        position := position + 1;
        var s := NextBlock();
        answer := if s.Some? then Some(Uol(s.value)) else None;
      } else {
        answer := None;
      }
    }

    /** The block is parsed with the cursor put back afterwards, and then skipped by its length. */
    method ExtendedProperty() returns (answer: Option<Value>)
      modifies this`position
      ensures Answers(ReadWrapped(content, containerStart, old(position)), answer)
      decreases Left(content, position), 4
    {
      hide ReadExtended, ReadFixed;
      var blockLen := NextFixed(4);
      if blockLen.None? { return None; }
      var body := position;
      answer := ParseExtendedProperty();
      position := body + blockLen.value;
    }

    method PropertyValue() returns (answer: Option<Value>)
      modifies this`position
      ensures Answers(ReadValue(content, containerStart, old(position)), answer)
      decreases Left(content, position), 5
    {
      hide ReadShared, ReadBlock, ReadCompact, ReadFixed, ReadSByte, ReadSingle, ReadWrapped;
      var kind := NextByte();
      if kind.None? { return None; }
      match kind.value
      case 0 => answer := Some(Null);
      case 0x10 =>
        var n := NextSByte();
        answer := if n.Some? then Some(SByteValue(n.value)) else None;
      case 0x11 =>
        var b := NextByte();
        answer := if b.Some? then Some(ByteValue(b.value as nat)) else None;
      case 0x0B | 2 | 0x12 =>
        var u := NextFixed(2);
        answer := if u.Some? then Some(UInt16(u.value)) else None;
      case 3 =>
        var i := NextCompact(4);
        answer := if i.Some? then Some(Int32Value(i.value)) else None;
      case 19 =>
        var i := NextCompact(4);
        answer := if i.Some? then Some(Color(i.value % TWO32)) else None;
      case 4 =>
        var bits := NextSingle();
        answer := if bits.Some? then Some(Single(bits.value)) else None;
      case 5 =>
        var bits := NextFixed(8);
        answer := if bits.Some? then Some(Double(bits.value)) else None;
      case 8 =>
        var s := NextBlock();
        answer := if s.Some? then Some(Text(s.value)) else None;
      case 9 => answer := ExtendedProperty();
      case 20 =>
        var l := NextCompact(8);
        answer := if l.Some? then Some(Int64Value(l.value)) else None;
      case 21 =>
        var l := NextCompact(8);
        answer := if l.Some? then Some(UInt64Value(l.value % TWO64)) else None;
      case _ => answer := None;
    }

    /** One element of the list: a null once the stream is used up. */
    method Property() returns (answer: Option<Node>)
      modifies this`position
      ensures Answers(ReadNode(content, containerStart, old(position)), answer)
      decreases Left(content, position), 0
    {
      hide ReadShared, ReadBlock, ReadValue;
      if position >= |content| { return Some(Missing); }
      var name := NextBlock();
      if name.None? { return None; }
      var v := PropertyValue();
      answer := if v.Some? then Some(Node(name.value, v.value)) else None;
    }

    method PropertyList() returns (answer: Option<seq<Node>>)
      modifies this`position
      ensures Answers(ReadList(content, containerStart, old(position)), answer)
      decreases Left(content, position), 2
    {
      hide ReadCompact, ReadList, ReadNodes;
      var start := position;
      if start + 4 >= |content| {
        ShortList(content, containerStart, start);
        return Some([]);
      }
      var count := NextCompact(4);
      if count.None? || count.value < 0 {
        NoList(content, containerStart, start);
        return None;
      }
      WholeList(content, containerStart, start, count.value, position);
      hide *;
      var children := [];
      for i := 0 to count.value
        invariant start < position
        invariant ReadList(content, containerStart, start) == Joined(children, ReadNodes(content, containerStart, position, count.value - i))
      {
        ghost var at := position;
        var child := Property();
        if child.None? {
          BadNode(content, containerStart, at, children, count.value - i);
          return None;
        }
        OneMoreNode(content, containerStart, at, children, count.value - i, child.value, position);
        children := children + [child.value];
      }
      NoMoreNodes(content, containerStart, position, children);
      answer := Some(children);
    }

    method ImageChildren() returns (answer: Option<seq<Node>>)
      modifies this
      ensures Answers(ReadImage(content, old(position)), answer)
    {
      hide ReadString, ReadSigned, ReadList;
      containerStart := position;
      var mark := NextByte();
      if mark != Some(0x73) { return None; }
      var kind := NextString();
      if kind != Some(PROPERTY) { return None; }
      var zero := NextSigned(2);
      if zero != Some(0) { return None; }
      answer := PropertyList();
    }
  }
}
