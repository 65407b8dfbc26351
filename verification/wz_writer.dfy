/** The writer of `Tools/PKG1/WZSerializer.cs`: a stream with a position, written front to back and
    patched behind.  Every method appends exactly the layout of `WzTree`. */
module WzWriters {
  import opened Basics
  import opened Bytes
  import opened WzPrimitives
  import opened WzTree
  import opened WzOrder

  lemma Glue(before: seq<byte>, a: seq<byte>, b: seq<byte>)
    ensures before + a + b == before + (a + b)
  {}

  lemma Glue3(before: seq<byte>, a: seq<byte>, b: seq<byte>, d: seq<byte>)
    ensures before + a + b + d == before + (a + (b + d))
  {}

  /** Parts of a layout are no longer than the whole. */
  lemma SubFits(children: seq<Node>)
    requires ValidNodes(children)
    ensures |WriteNodes(children)| <= |WriteExtended(Sub(children))|
  {}

  lemma BlockFits(v: Value)
    requires ValidValue(v) && Extended(v)
    ensures |WriteExtended(v)| <= |WriteValue(v)|
  {}

  lemma NodesStep(ns: seq<Node>, i: nat)
    requires ValidNodes(ns) && i < |ns|
    ensures WriteNodes(ns[i..]) == (if ns[i].Missing? then [] else WriteNode(ns[i])) + WriteNodes(ns[i + 1..])
    ensures ns[i].Node? ==> |WriteValue(ns[i].value)| <= |WriteNodes(ns[i..])|
  {
    assert ns[i..][0] == ns[i] && ns[i..][1..] == ns[i + 1..];
  }

  lemma Suffixes(ns: seq<Node>)
    requires ValidNodes(ns)
    ensures forall i :: 0 <= i <= |ns| ==> ValidNodes(ns[i..])
    ensures WriteNodes(ns[|ns|..]) == []
  {
    hide ValidValue;
  }

  lemma {:induction false} CountAll(ns: seq<Node>)
    requires AllPresent(ns)
    ensures CountPresent(ns) == |ns|
  {
    if ns != [] { CountAll(ns[1..]); }
  }

  lemma ListOfOrdered(ns: seq<Node>, order: Order)
    requires ValidNodes(ns)
    ensures ValidNodes(Ordered(ns, order)) && Saved(ns, order) == EachSaved(Ordered(ns, order), order)
    ensures forall n :: n in Ordered(ns, order) ==> n in ns
    ensures var count := |Ordered(ns, order)|;
      Int32(count) && WriteList(Saved(ns, order)) == Compact(count, 4) + WriteNodes(Saved(ns, order))
  {
    SavedIsOrdered(ns, order);
    CountAll(Saved(ns, order));
    ListShape(Saved(ns, order));
    forall n | n in Ordered(ns, order) ensures n in ns { OrderedHolds(ns, order, n); }
  }

  /** Overwriting the four bytes in front of a block leaves the block and all before it alone. */
  lemma Patch(before: seq<byte>, block: seq<byte>, length: seq<byte>)
    requires |length| == 4
    ensures var c := before + [9] + [0, 0, 0, 0] + block; var at := |before| + 1;
      c[..at] + length + c[at + 4..] == before + ([9] + (length + block))
  {
    var c := before + [9] + [0, 0, 0, 0] + block;
    assert c[..|before| + 1] == before + [9] && c[|before| + 5..] == block;
  }

  function Counted(mask: nat, limit: nat): nat {
    if mask + 1 == limit then 0 else mask + 1
  }

  lemma CountStep(i: nat)
    ensures Counted((0xAA + i) % 0x100, 0x100) == (0xAA + i + 1) % 0x100
    ensures Counted((0xAAAA + i) % 0x1_0000, 0x1_0000) == (0xAAAA + i + 1) % 0x1_0000
  {}

  class WzWriter {
    const order: Order
    var content: seq<byte>
    var position: nat

    ghost predicate AtEnd()
      reads this
    {
      position == |content|
    }

    constructor (names: Order)
      ensures AtEnd() && content == [] && order == names
    {
      order, content, position := names, [], 0;
    }

    /** Overwrites at the position and grows the stream as needed. */
    method Write(bytes: seq<byte>)
      requires position <= |content|
      modifies this
      ensures position == old(position) + |bytes| <= |content|
      ensures content == old(content)[..old(position)] + bytes +
        if position <= |old(content)| then old(content)[position..] else []
    {
      var end := position + |bytes|;
      content := content[..position] + bytes + if end <= |content| then content[end..] else [];
      position := end;
    }

    method Append(bytes: seq<byte>)
      requires AtEnd()
      modifies this
      ensures AtEnd() && content == old(content) + bytes
    {
      Write(bytes);
    }

    method WzIntToByte(v: int)
      requires AtEnd() && Int32(v)
      modifies this
      ensures AtEnd() && content == old(content) + Compact(v, 4)
    {
      Powers();
      if v > 127 || v <= -128 {
        Append([0x80] + WriteSigned(v, 4));
      } else {
        Append([(v % 256) as byte]);
      }
    }

    method WzLongToByte(v: int)
      requires AtEnd() && Int64(v)
      modifies this
      ensures AtEnd() && content == old(content) + Compact(v, 8)
    {
      Powers();
      if v > 127 || v <= -128 {
        Append([0x80] + WriteSigned(v, 8));
      } else {
        Append([(v % 256) as byte]);
      }
    }

    /** The cast to a byte takes negative whole numbers modulo 256. */
    method WzSingleToByte(bits: nat)
      requires AtEnd() && bits < TWO32
      modifies this
      ensures AtEnd() && content == old(content) + WriteSingle(bits)
    {
      hide WholeOf;
      if WholeOf(bits) == None {
        Append([0x80] + ToLittleEndian(bits, 4));
      } else {
        Append([(WholeOf(bits).value % 256) as byte]);
      }
    }

    method MaskAscii(s: WString) returns (text: seq<byte>)
      requires OneByte(s)
      ensures text == MaskedAscii(s)
    {
      var plain, mask: nat := Ascii(s), 0xAA;
      text := [];
      for i := 0 to |s|
        invariant text == MaskedAscii(s)[..i] && mask == (0xAA + i) % 0x100
      {
        text := text + [Xor(plain[i] as byte, mask as byte)];
        CountStep(i);
        mask := Counted(mask, 0x100);
      }
    }

    method MaskUnicode(s: WString) returns (text: seq<byte>)
      ensures text == MaskedFrom(Repaired(s), 0)
    {
      hide Repaired, MaskPair;
      var plain, mask: nat := Repaired(s), 0xAAAA;
      text := [];
      for i := 0 to |s|
        invariant text + MaskedFrom(plain, i) == MaskedFrom(plain, 0) && mask == UnicodeMask(i)
      {
        Glue(text, MaskPair(plain[i], mask), MaskedFrom(plain, i + 1));
        text := text + MaskPair(plain[i], mask);
        CountStep(i);
        mask := Counted(mask, 0x1_0000);
      }
      assert text + [] == text;
    }

    method GetWzStringBytes(s: WString)
      requires AtEnd() && |s| <= MAX_LENGTH
      modifies this
      ensures AtEnd() && content == old(content) + WriteString(s)
    {
      var isAscii := OneByte(s);
      var length := |s| * if isAscii then -1 else 1;
      Append(WriteLength(length));
      var text;
      if isAscii {
        text := MaskAscii(s);
      } else {
        text := MaskUnicode(s);
      }
      Append(text);
    }

    method GetStringToBlock(s: WString)
      requires AtEnd() && |s| <= MAX_LENGTH
      modifies this
      ensures AtEnd() && content == old(content) + WriteBlock(s)
    {
      ghost var before := content;
      Append([0]);
      GetWzStringBytes(s);
      Glue(before, [0], WriteString(s));
    }

    method Vector(x: int, y: int)
      requires AtEnd() && Int32(x) && Int32(y)
      modifies this
      ensures AtEnd() && content == old(content) + (Compact(x, 4) + Compact(y, 4))
    {
      WzIntToByte(x);
      WzIntToByte(y);
    }

    method SubProperty(children: seq<Node>)
      requires AtEnd() && ValidNodes(children) && |WriteNodes(Saved(children, order))| < TWO32
      modifies this
      ensures AtEnd() && content == old(content) + ([0, 0] + WriteList(Saved(children, order)))
      decreases children, 6
    {
      ghost var before, list := content, WriteList(Saved(children, order));
      Append([0, 0]);
      PropertyList(children);
      Glue(before, [0, 0], list);
    }

    method Resolve(v: Value)
      requires AtEnd() && ValidValue(v) && Extended(v) && |WriteExtended(SavedValue(v, order))| < TWO32
      modifies this
      ensures AtEnd() && content == old(content) + WriteExtended(SavedValue(v, order))
      decreases v, 0
    {
      ghost var before := content;
      match v
      case Vector2(x, y) =>
        GetStringToBlock(VECTOR);
        Vector(x, y);
        Glue(before, WriteBlock(VECTOR), Compact(x, 4) + Compact(y, 4));
      case Uol(s) =>
        GetStringToBlock(UOL);
        Append([0]);
        GetStringToBlock(s);
        Glue3(before, WriteBlock(UOL), [0], WriteBlock(s));
      case Sub(children) =>
        SubFits(Saved(children, order));
        GetStringToBlock(PROPERTY);
        SubProperty(children);
        Glue(before, WriteBlock(PROPERTY), [0, 0] + WriteList(Saved(children, order)));
    }

    /** Goes back to the four bytes before `start`, puts the length of what was written since in
        place, and returns to the end. */
    method PatchLength(start: nat)
      requires AtEnd() && 4 <= start <= position
      modifies this
      ensures AtEnd() && content == old(content)[..start - 4] + ToLittleEndian(|old(content)| - start, 4) + old(content)[start..]
    {
      var length, end := position - start, position;
      position := start - 4;
      Write(ToLittleEndian(length, 4));
      position := end;
    }

    /** Writes a zero length and the block, and then patches the length. */
    method BackPatched(v: Value)
      requires AtEnd() && ValidValue(v) && Extended(v) && |WriteExtended(SavedValue(v, order))| < TWO32
      modifies this
      ensures AtEnd() && content == old(content) + WriteValue(SavedValue(v, order))
      decreases v, 1
    {
      hide WriteExtended, WriteValue, SavedValue, ToLittleEndian, ValidValue, Extended;
      ghost var saved := SavedValue(v, order);
      WrappedShape(saved);
      ghost var before, block := content, WriteExtended(saved);
      Append([9]);
      Append([0, 0, 0, 0]);
      var start := position;
      Resolve(v);
      Patch(before, block, ToLittleEndian(|block|, 4));
      PatchLength(start);
    }

    method PropertyValue(v: Value)
      requires AtEnd() && ValidValue(v) && |WriteValue(SavedValue(v, order))| < TWO32
      modifies this
      ensures AtEnd() && content == old(content) + WriteValue(SavedValue(v, order))
      decreases v, 2
    {
      ghost var before := content;
      match v
      case SByteValue(_) =>
        Append([0x10]);
      case ByteValue(_) =>
        Append([0x11]);
      case UInt16(u) =>
        Append([0x12]);
        Append(ToLittleEndian(u, 2));
        Glue(before, [0x12], ToLittleEndian(u, 2));
      case Int32Value(i) =>
        Append([3]);
        WzIntToByte(i);
        Glue(before, [3], Compact(i, 4));
      case Color(rgba) =>
        Append([19]);
        WzIntToByte(AsInt32(rgba));
        Glue(before, [19], Compact(AsInt32(rgba), 4));
      case Single(bits) =>
        Append([4]);
        WzSingleToByte(bits);
        Glue(before, [4], WriteSingle(bits));
      case Double(bits) =>
        Append([5]);
        Append(ToLittleEndian(bits, 8));
        Glue(before, [5], ToLittleEndian(bits, 8));
      case Text(s) =>
        Append([8]);
        GetStringToBlock(s);
        Glue(before, [8], WriteBlock(s));
      case Int64Value(l) =>
        Append([20]);
        WzLongToByte(l);
        Glue(before, [20], Compact(l, 8));
      case UInt64Value(m) =>
        Append([21]);
        WzLongToByte(AsInt64(m));
        Glue(before, [21], Compact(AsInt64(m), 8));
      case Null =>
        Append([0]);
      case _ =>
        BlockFits(SavedValue(v, order));
        BackPatched(v);
    }

    method Property(n: Node)
      requires AtEnd() && n.Node? && |n.name| <= MAX_LENGTH && ValidValue(n.value) && |WriteValue(SavedValue(n.value, order))| < TWO32
      modifies this
      ensures AtEnd() && content == old(content) + WriteNode(SavedNode(n, order))
      decreases n, 2
    {
      ghost var before := content;
      GetStringToBlock(n.name);
      PropertyValue(n.value);
      hide WriteBlock, WriteValue;
      Glue(before, WriteBlock(n.name), WriteValue(SavedValue(n.value, order)));
    }

    /** The null children are left out and the others put in order of name. */
    method PropertyList(ns: seq<Node>)
      requires AtEnd() && ValidNodes(ns) && |WriteNodes(Saved(ns, order))| < TWO32
      modifies this
      ensures AtEnd() && content == old(content) + WriteList(Saved(ns, order))
      decreases ns, 5
    {
      hide *;
      ghost var before, saved := content, Saved(ns, order);
      var children := Ordered(ns, order);
      ListOfOrdered(ns, order);
      WzIntToByte(|children|);
      Properties(children, saved, ns);
      Glue(before, Compact(|children|, 4), WriteNodes(saved));
    }

    /** The loop over the children. */
    method Properties(children: seq<Node>, ghost saved: seq<Node>, ghost ns: seq<Node>)
      requires AtEnd() && ValidNodes(children) && AllPresent(children) && forall n :: n in children ==> n in ns
      requires ValidNodes(saved) && saved == EachSaved(children, order) && |WriteNodes(saved)| < TWO32
      modifies this
      ensures AtEnd() && content == old(content) + WriteNodes(saved)
      decreases ns, 4
    {
      Suffixes(saved);
      hide *;
      ghost var whole := content + WriteNodes(saved);
      assert saved[0..] == saved;
      for i := 0 to |children|
        invariant AtEnd() && content + WriteNodes(saved[i..]) == whole && |WriteNodes(saved[i..])| < TWO32
      {
        PropertyAt(children, i, saved, ns);
      }
      assert content + [] == content;
    }

    method PropertyAt(children: seq<Node>, i: nat, ghost saved: seq<Node>, ghost ns: seq<Node>)
      requires AtEnd() && ValidNodes(children) && AllPresent(children) && i < |children| && children[i] in ns
      requires ValidNodes(saved) && saved == EachSaved(children, order) && |WriteNodes(saved[i..])| < TWO32
      modifies this
      ensures AtEnd() && content + WriteNodes(saved[i + 1..]) == old(content) + WriteNodes(saved[i..])
      ensures |WriteNodes(saved[i + 1..])| <= |WriteNodes(saved[i..])|
      decreases ns, 3
    {
      NodesStep(saved, i);
      EachSavedAt(children, order, i);
      hide WriteNodes, WriteNode, WriteValue, EachSaved, SavedValue;
      ghost var before, rest := content, WriteNodes(saved[i + 1..]);
      Property(children[i]);
      Glue(before, WriteNode(saved[i]), rest);
    }

    method Image(ns: seq<Node>)
      requires AtEnd() && ValidNodes(ns) && |WriteNodes(Saved(ns, order))| < TWO32
      modifies this
      ensures AtEnd() && content == old(content) + WriteImage(Saved(ns, order))
    {
      hide Saved, WriteList, WriteString;
      ghost var before, kind, list := content, WriteString(PROPERTY), WriteList(Saved(ns, order));
      Append([0x73]);
      GetWzStringBytes(PROPERTY);
      Append([0, 0]);
      PropertyList(ns);
      Glue(before + [0x73] + kind, [0, 0], list);
      Glue3(before, [0x73], kind, [0, 0] + list);
    }
  }
}
