/** `WzSerializer.Serialize` for a flat directory of images: placeholders first, then every finished
    image is appended and its entry patched, in whatever order the images are finished. */
module WzSerializers {
  import opened Bytes
  import opened WzPrimitives
  import opened WzTree
  import opened WzOffset
  import opened WzDirectory
  import opened WzWriters
  import opened WzOrder
  import opened WzRoundTrip
  import opened WzSurvival

  /** A child of the directory and the bytes `Resolve` makes of it. */
  datatype Child = Child(name: WString, data: seq<byte>)

  function NamesOf(children: seq<Child>): (names: seq<WString>)
    ensures |names| == |children| && forall i :: 0 <= i < |names| ==> names[i] == children[i].name
  {
    seq(|children|, i requires 0 <= i < |children| => children[i].name)
  }

  function Blank(n: nat): (patches: seq<Patch>)
    ensures |patches| == n && forall i :: 0 <= i < n ==> patches[i] == Patch(PLACEHOLDER, 0)
  {
    seq(n, _ => Patch(PLACEHOLDER, 0))
  }

  lemma BlankTail()
    ensures PLACEHOLDER < TWO31
    ensures WriteTail(Patch(PLACEHOLDER, 0)) == Compact(PLACEHOLDER, 4) + Compact(PLACEHOLDER, 4) + [0, 0, 0, 0]
  {
    Powers();
    FourZeroes();
    hide ToLittleEndian;
    assert Compact(PLACEHOLDER, 4) == [0x80] + ToLittleEndian(PLACEHOLDER, 4);
  }

  lemma FourZeroes()
    ensures ToLittleEndian(0, 4) == [0, 0, 0, 0]
  {
    assert ToLittleEndian(0, 2) == [0, 0];
  }

  /** The first positions are those of the tails, behind `base` bytes. */
  predicate Placed(positions: seq<nat>, base: nat, names: seq<WString>)
    requires Names(names)
  {
    |positions| <= |names| && forall i :: 0 <= i < |positions| ==> positions[i] == base + TailAt(names, i)
  }

  lemma PlacedAt(positions: seq<nat>, base: nat, names: seq<WString>, i: nat)
    requires Names(names) && i < |positions| && Placed(positions, base, names)
    ensures i < |names| && positions[i] == base + TailAt(names, i)
  {
    hide TailAt;
  }

  lemma OneMorePlaced(positions: seq<nat>, base: nat, names: seq<WString>)
    requires Names(names) && |positions| < |names| && Placed(positions, base, names)
    ensures Placed(positions + [base + TailAt(names, |positions|)], base, names)
  {
    hide TailAt;
  }

  /** The stream after the first `n` entries, none of them patched yet. */
  function Unpatched(head: seq<byte>, names: seq<WString>, n: nat): seq<byte>
    requires Names(names) && n <= |names|
  {
    head + WriteEntries(names, Blank(|names|), n)
  }

  lemma NothingPlaced(head: seq<byte>, names: seq<WString>)
    requires Names(names)
    ensures Placed([], |head|, names) && Unpatched(head, names, 0) == head
  {}

  lemma PlacedEntry(head: seq<byte>, names: seq<WString>, i: nat)
    requires Names(names) && i < |names|
    ensures |names[i]| <= MAX_LENGTH
    ensures var c := Unpatched(head, names, i);
      && |head| + TailAt(names, i) == |c| + |WriteHead(names[i])|
      && Unpatched(head, names, i + 1) == c + (WriteHead(names[i]) + WriteTail(Patch(PLACEHOLDER, 0)))
  {
    var blank := Blank(|names|);
    EntriesSnoc(names, blank, i + 1);
    EntriesLength(names, blank, i);
    hide WriteEntries, WriteHead, WriteTail;
    Glue(head, WriteEntries(names, blank, i), WriteHead(names[i]) + WriteTail(blank[i]));
  }

  class WzSerializer {
    const writer: WzWriter
    const versionKey: nat
    const versionHash: byte
    var contentsStart: nat            // where the main directory starts
    var pending: seq<nat>             // where the tail of each entry starts
    ghost var names: seq<WString>
    ghost var patches: seq<Patch>
    ghost var before: seq<byte>       // everything in front of the entries
    ghost var images: seq<byte>       // everything behind them

    constructor (key: nat, hash: byte, order: Order)
      ensures versionKey == key && versionHash == hash && fresh(writer) && writer.AtEnd() && writer.content == []
    {
      writer := new WzWriter(order);
      versionKey, versionHash, contentsStart := key, hash, 0;
      pending, names, patches, before, images := [], [], [], [], [];
    }

    /** The stream is the entries as patched so far between what precedes and what follows them. */
    ghost predicate Valid()
      reads this, writer
    {
      && Names(names) && |patches| == |names| == |pending|
      && writer.AtEnd() && writer.content == before + WriteEntries(names, patches, |names|) + images
      && contentsStart <= |before| && Placed(pending, |before|, names)
    }

    method Entry(name: WString) returns (position: nat)
      requires writer.AtEnd() && |name| <= MAX_LENGTH
      modifies writer
      ensures writer.AtEnd() && position == |old(writer.content)| + |WriteHead(name)|
      ensures writer.content == old(writer.content) + (WriteHead(name) + WriteTail(Patch(PLACEHOLDER, 0)))
    {
      ghost var c, tail := writer.content, WriteTail(Patch(PLACEHOLDER, 0));
      HeadShape(name);
      BlankTail();
      hide WriteString, Compact, ToLittleEndian, WriteTail;
      writer.Append([4]);
      writer.GetWzStringBytes(name);
      Glue(c, [4], WriteString(name));
      position := writer.position;
      writer.WzIntToByte(PLACEHOLDER);
      writer.WzIntToByte(PLACEHOLDER);
      writer.Append([0, 0, 0, 0]);
      Glue3(c + WriteHead(name), Compact(PLACEHOLDER, 4), Compact(PLACEHOLDER, 4), [0, 0, 0, 0]);
      Glue(Compact(PLACEHOLDER, 4), Compact(PLACEHOLDER, 4), [0, 0, 0, 0]);
      Glue(c, WriteHead(name), tail);
    }

    method EntryOf(children: seq<WString>, i: nat, ghost head: seq<byte>) returns (position: nat)
      requires writer.AtEnd() && Names(children) && i < |children|
      requires writer.content == Unpatched(head, children, i)
      modifies writer
      ensures writer.AtEnd() && writer.content == Unpatched(head, children, i + 1)
      ensures position == |head| + TailAt(children, i)
    {
      hide *;
      PlacedEntry(head, children, i);
      position := Entry(children[i]);
    }

    /** The loop over the children. */
    method Entries(children: seq<WString>) returns (positions: seq<nat>)
      requires writer.AtEnd() && Names(children)
      modifies writer
      ensures writer.AtEnd() && |positions| == |children| && Placed(positions, |old(writer.content)|, children)
      ensures writer.content == Unpatched(old(writer.content), children, |children|)
    {
      ghost var head := writer.content;
      NothingPlaced(head, children);
      hide *;
      positions := [];
      for i := 0 to |children|
        invariant writer.AtEnd() && writer.content == Unpatched(head, children, i)
        invariant |positions| == i && Placed(positions, |head|, children)
      {
        var position := EntryOf(children, i, head);
        OneMorePlaced(positions, |head|, children);
        positions := positions + [position];
      }
    }

    method DirectoryChildren(children: seq<WString>)
      requires writer.AtEnd() && Names(children) && |children| < TWO31 && contentsStart <= writer.position
      modifies this`pending, this`names, this`patches, this`before, this`images, writer
      ensures Valid() && names == children && patches == Blank(|children|) && images == []
      ensures before == old(writer.content) + Compact(|children|, 4)
    {
      hide WriteEntries, Placed, Compact, Blank;
      writer.WzIntToByte(|children|);
      names, patches, before, images := children, Blank(|children|), writer.content, [];
      pending := Entries(children);
      assert writer.content + [] == writer.content;
    }

    /** Goes back into the stream and overwrites. */
    method Overwrite(at: nat, bytes: seq<byte>)
      requires at + |bytes| <= |writer.content|
      modifies writer
      ensures writer.content == Overwritten(old(writer.content), at, bytes) && writer.position == at + |bytes|
    {
      writer.position := at;
      writer.Write(bytes);
    }

    /** Appends an image, patches the entry whose tail is at `at`, and returns to the end. */
    method AppendAndPatch(at: nat, data: seq<byte>)
      requires writer.AtEnd() && contentsStart <= at && at + 14 <= |writer.content| && |writer.content| + |data| < TWO32
      modifies writer
      ensures writer.AtEnd()
      ensures writer.content == Patched(old(writer.content), at, data, Code(contentsStart, at, |old(writer.content)|, versionKey))
    {
      hide GetWzOffset, ToLittleEndian, Overwritten;
      var position := writer.position;
      writer.Append(data);
      var size := writer.position - position;
      Overwrite(at + 1, ToLittleEndian(size, 4));
      var positionFromStart := at + 10 - contentsStart;
      Overwrite(at + 10, ToLittleEndian(GetWzOffset(positionFromStart, contentsStart, position, versionKey), 4));
      writer.position := position + size;
    }

    /** One finished image, the `i`-th child's. */
    method Flush(i: nat, data: seq<byte>)
      requires Valid() && i < |names| && |writer.content| + |data| < TWO32
      modifies this`patches, this`images, writer
      ensures Valid() && images == old(images) + data && |writer.content| == |old(writer.content)| + |data|
      ensures patches == old(patches)[i := Patch(|data|, Code(contentsStart, pending[i], |old(writer.content)|, versionKey))]
    {
      hide WriteEntries, Code, Patched, Placed, Names, TailAt;
      PlacedAt(pending, |before|, names, i);
      ghost var code := Code(contentsStart, pending[i], |writer.content|, versionKey);
      FlushedContent(writer.content, pending[i], before, names, patches, images, data, i, code);
      AppendAndPatch(pending[i], data);
      patches, images := patches[i := Patch(|data|, code)], images + data;
    }

    lemma TailInside(i: nat)
      requires Valid() && i < |names|
      ensures contentsStart <= pending[i]
    {
      PlacedAt(pending, |before|, names, i);
    }

    /** The first `k` images to be finished have been flushed. */
    ghost predicate Flushed(children: seq<Child>, order: seq<nat>, k: nat, places: seq<nat>, base: nat)
      requires k <= |order|
      reads this, writer
    {
      && Valid() && |names| == |children| && |writer.content| == base + |images|
      && Laid(children, patches, pending, contentsStart, base, places, images, versionKey, order[..k])
      && Apart(children, places, order[..k])
    }

    method FlushNext(children: seq<Child>, order: seq<nat>, k: nat, ghost places: seq<nat>, ghost base: nat) returns (ghost places': seq<nat>)
      requires k < |order| && order[k] < |children| && order[k] !in order[..k] && Flushed(children, order, k, places, base)
      requires |writer.content| + |children[order[k]].data| < TWO32
      modifies this`patches, this`images, writer
      ensures Flushed(children, order, k + 1, places', base)
      ensures |writer.content| == |old(writer.content)| + |children[order[k]].data|
    {
      hide Valid, Laid, Apart, Code, Placed;
      var i := order[k];
      TailInside(i);
      LaidStep(children, patches, pending, contentsStart, base, places, images, versionKey, order[..k], i);
      assert order[..k + 1] == order[..k] + [i];
      places' := places[i := |images|];
      Flush(i, children[i].data);
    }

    /** Images are taken in the order in which they happen to be finished. */
    method FlushAll(children: seq<Child>, order: seq<nat>) returns (ghost places: seq<nat>)
      requires Valid() && names == NamesOf(children) && images == [] && CompletionOrder(order, |children|)
      requires |writer.content| + Total(children, order, 0) < TWO32
      modifies this`patches, this`images, writer
      ensures Flushed(children, order, |order|, places, |old(writer.content)|) && |writer.content| < TWO32
    {
      places := seq(|children|, _ => 0);
      ghost var base := |writer.content|;
      assert Flushed(children, order, 0, places, base);
      for k := 0 to |order|
        invariant Flushed(children, order, k, places, base)
        invariant |writer.content| + Total(children, order, k) < TWO32
      {
        hide Flushed;
        assert order[k] !in order[..k];
        places := FlushNext(children, order, k, places, base);
      }
    }

    /** The version hash and the directory with its placeholders. */
    method StartDirectory(children: seq<WString>)
      requires writer.AtEnd() && Names(children) && |children| < TWO31
      modifies this`contentsStart, this`pending, this`names, this`patches, this`before, this`images, writer
      ensures Valid() && Names(names) && names == children && |patches| == |names| && images == []
      ensures contentsStart == |old(writer.content)| && before == old(writer.content) + [versionHash, 0] + Compact(|children|, 4)
      ensures |writer.content| == |before| + EntryAt(names, |names|) == |old(writer.content)| + DirectorySize(children)
    {
      hide WriteEntries, EntryAt, Compact, Placed, Blank;
      contentsStart := writer.position;
      writer.Append([versionHash, 0]);
      DirectoryChildren(children);
      DirectoryLength(names, patches);
    }

    /** Writes the version hash, the directory and every image, and patches the directory behind.
        The reader then finds every child, in whatever order they were finished. */
    method Serialize(children: seq<Child>, order: seq<nat>)
      requires writer.AtEnd() && Names(NamesOf(children)) && |children| < TWO31 && CompletionOrder(order, |children|)
      requires children != [] ==> Printable(Stored(NamesOf(children)[0]))
      requires |writer.content| + DirectorySize(NamesOf(children)) + Total(children, order, 0) < TWO32
      modifies this`contentsStart, this`pending, this`names, this`patches, this`before, this`images, writer
      ensures old(writer.content) + [versionHash, 0] <= writer.content && contentsStart == |old(writer.content)|
      ensures Lists(writer.content, contentsStart, versionKey, children)
    {
      hide Valid, Flushed, Lists, Printable, Total, CompletionOrder, DirectorySize, Names, Compact, EntryAt;
      ghost var head := writer.content;
      StartDirectory(NamesOf(children));
      ghost var places := FlushAll(children, order);
      FlushedMeansValid(children, order, places, |before| + EntryAt(names, |names|));
      FlushedDirectory(children, order, head, [versionHash, 0], places);
    }

    lemma FlushedMeansValid(children: seq<Child>, order: seq<nat>, places: seq<nat>, base: nat)
      requires Flushed(children, order, |order|, places, base)
      ensures Valid() && |patches| == |names|
    {}

    lemma FlushedParts(children: seq<Child>, order: seq<nat>, places: seq<nat>)
      requires Valid() && Flushed(children, order, |order|, places, |before| + EntryAt(names, |names|))
      ensures var entries := WriteEntries(names, patches, |names|);
        && writer.content == before + entries + images && Placed(pending, |before|, names)
        && Laid(children, patches, pending, contentsStart, |before + entries|, places, images, versionKey, order)
        && Apart(children, places, order)
    {
      hide WriteEntries, EntryAt, Placed, Laid, Apart;
      assert order[..|order|] == order;
      DirectoryLength(names, patches);
    }

    lemma FlushedDirectory(children: seq<Child>, order: seq<nat>, head: seq<byte>, hash: seq<byte>, places: seq<nat>)
      requires Valid() && names == NamesOf(children) && |names| < TWO31 && CompletionOrder(order, |children|)
      requires Names(names) && |patches| == |names| && (names != [] ==> Printable(Stored(names[0])))
      requires |head| == contentsStart && |hash| == 2 && before == head + hash + Compact(|names|, 4)
      requires Flushed(children, order, |order|, places, |before| + EntryAt(names, |names|)) && |writer.content| < TWO32
      ensures Lists(writer.content, contentsStart, versionKey, children) && head + hash <= writer.content
    {
      hide *;
      FlushedParts(children, order, places);
      PatchedDirectoryLists(writer.content, head, hash, before, WriteEntries(names, patches, |names|), images, versionKey, children, order,
                            names, patches, pending, places);
    }
  }

  /** The bytes of a directory and its version hash. */
  function DirectorySize(names: seq<WString>): nat
    requires Names(names) && |names| < TWO31
  {
    2 + |Compact(|names|, 4)| + EntryAt(names, |names|)
  }

  lemma DirectoryLength(names: seq<WString>, patches: seq<Patch>)
    requires Names(names) && |patches| == |names|
    ensures |WriteEntries(names, patches, |names|)| == EntryAt(names, |names|)
  {
    EntriesLength(names, patches, |names|);
  }

  /** The reader lists every child under its name with its size and with the place of its bytes, and
      no two children share any. */
  ghost predicate Lists(c: seq<byte>, start: nat, key: nat, children: seq<Child>) {
    var r := ReadDirectory(c, start + 2, start, key);
    && r.Ok? && |r.value| == |children|
    && (forall i :: 0 <= i < |children| ==> IsChild(c, r.value[i], children[i]))
    && (forall i, j :: 0 <= i < |children| && 0 <= j < |children| && i != j ==>
          Clear(children[i], r.value[i].offset, children[j], r.value[j].offset))
  }

  predicate IsChild(c: seq<byte>, entry: Listed, child: Child) {
    entry.name == Stored(child.name) && entry.size == |child.data| && LiesAt(c, entry.offset, child.data)
  }

  /** Every child is finished exactly once. */
  predicate CompletionOrder(order: seq<nat>, n: nat) {
    && (forall k :: 0 <= k < |order| ==> order[k] < n)
    && (forall k, l :: 0 <= k < l < |order| ==> order[k] != order[l])
    && (forall i: nat :: i < n ==> i in order)
  }

  /** The bytes still to be written after `k` images. */
  function Total(children: seq<Child>, order: seq<nat>, k: nat): nat
    requires forall l :: 0 <= l < |order| ==> order[l] < |children|
    requires k <= |order|
    decreases |order| - k
  {
    if k == |order| then 0 else |children[order[k]].data| + Total(children, order, k + 1)
  }

  /** The child's entry has been patched with its size and the code of where it lies. */
  predicate Located(child: Child, p: Patch, at: nat, start: nat, base: nat, place: nat, images: seq<byte>, key: nat) {
    && start <= at
    && p == Patch(|child.data|, Code(start, at, base + place, key))
    && LiesAt(images, place, child.data)
  }

  predicate Clear(a: Child, at: nat, b: Child, bt: nat) {
    at + |a.data| <= bt || bt + |b.data| <= at
  }

  ghost predicate Laid(children: seq<Child>, patches: seq<Patch>, pending: seq<nat>, start: nat, base: nat,
                       places: seq<nat>, images: seq<byte>, key: nat, some: seq<nat>) {
    && |patches| == |pending| == |places| == |children|
    && forall i :: i in some ==> i < |children| && Located(children[i], patches[i], pending[i], start, base, places[i], images, key)
  }

  /** No two of these images overlap. */
  ghost predicate Apart(children: seq<Child>, places: seq<nat>, some: seq<nat>) {
    |places| == |children| &&
    forall i, j :: i in some && j in some && i != j && i < |children| && j < |children| ==>
      Clear(children[i], places[i], children[j], places[j])
  }

  lemma LiesAtLonger(c: seq<byte>, more: seq<byte>, at: nat, s: seq<byte>)
    requires LiesAt(c, at, s)
    ensures LiesAt(c + more, at, s)
  {
    assert (c + more)[at..at + |s|] == c[at..at + |s|];
  }

  lemma LaidStep(children: seq<Child>, patches: seq<Patch>, pending: seq<nat>, start: nat, base: nat,
                 places: seq<nat>, images: seq<byte>, key: nat, some: seq<nat>, i: nat)
    requires Laid(children, patches, pending, start, base, places, images, key, some) && Apart(children, places, some)
    requires i < |children| && i !in some && start <= pending[i]
    ensures var data, at := children[i].data, |images|;
      && Laid(children, patches[i := Patch(|data|, Code(start, pending[i], base + at, key))], pending, start, base,
              places[i := at], images + data, key, some + [i])
      && Apart(children, places[i := at], some + [i])
      && |places| == |children|
  {
    var data, at := children[i].data, |images|;
    hide Code;
    assert (images + data)[at..at + |data|] == data;
    forall j | j in some ensures LiesAt(images + data, places[j], children[j].data) {
      LiesAtLonger(images, data, places[j], children[j].data);
    }
  }

  /** The code stored in an entry whose tail is at `at`, for an image at `target`. */
  function Code(contentsStart: nat, at: nat, target: nat, versionKey: nat): (code: nat)
    requires contentsStart <= at
    ensures code < TWO32
  {
    GetWzOffset(at + 10 - contentsStart, contentsStart, target, versionKey)
  }

  /** The stream after an image is appended and the entry whose tail is at `at` patched. */
  function Patched(c: seq<byte>, at: nat, data: seq<byte>, code: nat): (r: seq<byte>)
    requires at + 14 <= |c|
    ensures |r| == |c| + |data|
  {
    Overwritten(Overwritten(c + data, at + 1, ToLittleEndian(|data|, 4)), at + 10, ToLittleEndian(code, 4))
  }

  lemma FlushedContent(c: seq<byte>, at: nat, before: seq<byte>, names: seq<WString>, patches: seq<Patch>, images: seq<byte>,
                       data: seq<byte>, i: nat, code: nat)
    requires Names(names) && |patches| == |names| && i < |names|
    requires c == before + WriteEntries(names, patches, |names|) + images && at == |before| + TailAt(names, i)
    ensures at + 14 <= |c|
    ensures Patched(c, at, data, code) == before + WriteEntries(names, patches[i := Patch(|data|, code)], |names|) + (images + data)
  {
    hide *;
    var p := Patch(|data|, code);
    EntryPatched(c, at, before, names, patches, images, i, p);
    Glue(before + WriteEntries(names, patches, |names|), images, data);
    EntryPatched(c + data, at, before, names, patches, images + data, i, p);
    PatchedShape(c, at, data, code);
  }

  lemma PatchedShape(c: seq<byte>, at: nat, data: seq<byte>, code: nat)
    requires at + 14 <= |c|
    ensures Patched(c, at, data, code) ==
      Overwritten(Overwritten(c + data, at + 1, ToLittleEndian(|data|, 4)), at + 10, ToLittleEndian(code, 4))
  {}

  // ---------------------------------------------------------------- what the reader finds

  lemma LiesBehind(front: seq<byte>, images: seq<byte>, at: nat, s: seq<byte>)
    requires LiesAt(images, at, s)
    ensures LiesAt(front + images, |front| + at, s) && |front| + at <= |front + images|
  {
    assert (front + images)[|front| + at..|front| + at + |s|] == images[at..at + |s|];
  }

  /** What the reader makes of a patched entry. */
  lemma ChildFound(c: seq<byte>, front: seq<byte>, images: seq<byte>, key: nat, names: seq<WString>, patches: seq<Patch>,
                   start: nat, entries: nat, i: nat, child: Child, place: nat)
    requires Names(names) && |patches| == |names| && i < |names| && names[i] == child.name && start <= entries
    requires c == front + images && |c| < TWO32
    requires Located(child, patches[i], entries + TailAt(names, i), start, |front|, place, images, key)
    ensures var entry := ListedAt(names, patches, entries, start, key, i);
      IsChild(c, entry, child) && entry.offset == |front| + place
    ensures Word(patches[i])
  {
    hide GetWzOffset, ReadWzOffset, LiesAt, Stored, TailAt, Names;
    var target, at := |front| + place, entries + TailAt(names, i);
    LiesBehind(front, images, place, child.data);
    LiesInside(c, target, child.data);
    OffsetReadsBack(at + 10 - start, start, target, key);
  }

  /** Every entry leads to its child. */
  ghost predicate Found(c: seq<byte>, at: nat, start: nat, key: nat, names: seq<WString>, patches: seq<Patch>,
                        children: seq<Child>, base: nat, places: seq<nat>)
    requires Names(names) && |patches| == |names| == |children| == |places| && start <= at
  {
    forall i :: 0 <= i < |children| ==>
      var entry := ListedAt(names, patches, at, start, key, i);
      IsChild(c, entry, children[i]) && entry.offset == base + places[i]
  }

  lemma AllFound(c: seq<byte>, before: seq<byte>, entries: seq<byte>, images: seq<byte>, start: nat, key: nat, children: seq<Child>,
                 order: seq<nat>, names: seq<WString>, patches: seq<Patch>, pending: seq<nat>, places: seq<nat>)
    requires Names(names) && names == NamesOf(children) && CompletionOrder(order, |children|) && start <= |before|
    requires c == before + entries + images && |c| < TWO32 && Placed(pending, |before|, names)
    requires Laid(children, patches, pending, start, |before + entries|, places, images, key, order)
    ensures Found(c, |before|, start, key, names, patches, children, |before + entries|, places)
    ensures forall i :: 0 <= i < |patches| ==> Word(patches[i])
  {
    hide TailAt, Names, ListedAt, IsChild, Word, Located;
    forall i | 0 <= i < |children|
      ensures Word(patches[i])
      ensures var entry := ListedAt(names, patches, |before|, start, key, i);
        IsChild(c, entry, children[i]) && entry.offset == |before + entries| + places[i]
    {
      assert i in order;
      ChildFound(c, before + entries, images, key, names, patches, start, |before|, i, children[i], places[i]);
    }
  }

  lemma DirectoryLies(c: seq<byte>, head: seq<byte>, hash: seq<byte>, count: seq<byte>, before: seq<byte>, entries: seq<byte>,
                      images: seq<byte>)
    requires before == head + hash + count && c == before + entries + images && |hash| == 2
    ensures LiesAt(c, |head| + 2, count + entries) && head <= c && |before| == |head| + 2 + |count|
  {
    assert c == head + hash + (count + entries) + images;
  }

  lemma FoundMeansLists(c: seq<byte>, start: nat, key: nat, children: seq<Child>, order: seq<nat>, names: seq<WString>,
                        patches: seq<Patch>, at: nat, base: nat, places: seq<nat>)
    requires Names(names) && |patches| == |names| == |children| == |places| && start <= at && CompletionOrder(order, |children|)
    requires Found(c, at, start, key, names, patches, children, base, places) && Apart(children, places, order)
    requires ReadDirectory(c, start + 2, start, key).Ok? && |ReadDirectory(c, start + 2, start, key).value| == |children|
    requires forall i :: 0 <= i < |names| ==>
      ReadDirectory(c, start + 2, start, key).value[i] == ListedAt(names, patches, at, start, key, i)
    ensures Lists(c, start, key, children)
  {
    hide ReadDirectory, ListedAt, IsChild, Names;
    var r := ReadDirectory(c, start + 2, start, key);
    forall i, j | 0 <= i < |children| && 0 <= j < |children| && i != j
      ensures Clear(children[i], r.value[i].offset, children[j], r.value[j].offset)
    {
      assert i in order && j in order;
      assert Clear(children[i], places[i], children[j], places[j]);
    }
  }

  /** The reader lists the entries as they have been patched. */
  lemma PatchedDirectoryReads(c: seq<byte>, head: seq<byte>, hash: seq<byte>, before: seq<byte>, entries: seq<byte>, images: seq<byte>,
                              key: nat, names: seq<WString>, patches: seq<Patch>)
    requires Names(names) && |names| < TWO31 && |hash| == 2 && |patches| == |names|
    requires names != [] ==> Printable(Stored(names[0]))
    requires forall i :: 0 <= i < |patches| ==> Word(patches[i])
    requires before == head + hash + Compact(|names|, 4) && entries == WriteEntries(names, patches, |names|)
    requires c == before + entries + images
    ensures head <= c && |head| <= |before|
    ensures var r := ReadDirectory(c, |head| + 2, |head|, key);
      && r.Ok? && |r.value| == |names|
      && forall i :: 0 <= i < |names| ==> r.value[i] == ListedAt(names, patches, |before|, |head|, key, i)
  {
    assert Int32(|names|);
    hide *;
    DirectoryLies(c, head, hash, Compact(|names|, 4), before, entries, images);
    DirectoryBack(c, |head| + 2, |head|, key, names, patches);
  }

  lemma PatchedDirectoryLists(c: seq<byte>, head: seq<byte>, hash: seq<byte>, before: seq<byte>, entries: seq<byte>, images: seq<byte>,
                              key: nat, children: seq<Child>, order: seq<nat>, names: seq<WString>,
                              patches: seq<Patch>, pending: seq<nat>, places: seq<nat>)
    requires Names(names) && names == NamesOf(children) && |names| < TWO31 && |hash| == 2 && CompletionOrder(order, |children|)
    requires names != [] ==> Printable(Stored(names[0]))
    requires before == head + hash + Compact(|names|, 4) && |patches| == |names| && entries == WriteEntries(names, patches, |names|)
    requires c == before + entries + images && |c| < TWO32 && Placed(pending, |before|, names)
    requires Laid(children, patches, pending, |head|, |before + entries|, places, images, key, order)
    requires Apart(children, places, order)
    ensures Lists(c, |head|, key, children) && head <= c
  {
    hide *;
    LaidLengths(children, patches, pending, |head|, |before + entries|, places, images, key, order);
    AllFound(c, before, entries, images, |head|, key, children, order, names, patches, pending, places);
    PatchedDirectoryReads(c, head, hash, before, entries, images, key, names, patches);
    FoundMeansLists(c, |head|, key, children, order, names, patches, |before|, |before + entries|, places);
  }

  lemma LaidLengths(children: seq<Child>, patches: seq<Patch>, pending: seq<nat>, start: nat, base: nat,
                    places: seq<nat>, images: seq<byte>, key: nat, some: seq<nat>)
    requires Laid(children, patches, pending, start, base, places, images, key, some)
    ensures |patches| == |pending| == |places| == |children|
  {}

  /** So every property tree given to `Serialize` can be read at the offset listed for it: as it was if
      it survives the byte behind it, and only if unless a name looks like a de-duplicated one; and, if it
      has no bytes, as what survives of it. */
  lemma ListedTreeReadsBack(c: seq<byte>, start: nat, key: nat, children: seq<Child>, i: nat, tree: seq<Node>)
    requires Lists(c, start, key, children) && |c| < TWO32 && i < |children|
    requires ValidNodes(tree) && children[i].data == WriteImage(tree)
    ensures var r := ReadDirectory(c, start + 2, start, key);
      && r.Ok? && i < |r.value|
      && var end := r.value[i].offset + r.value[i].size;
      && (SurvivesList(tree, ByteAt(c, end)) ==> Gives(ReadImage(c, r.value[i].offset), tree))
      && (ClearNodes(tree) && Gives(ReadImage(c, r.value[i].offset), tree) ==> SurvivesList(tree, ByteAt(c, end)))
      && (NoBytes(tree) ==> Gives(ReadImage(c, r.value[i].offset), Kept(tree, end == |c|)))
  {
    hide ReadDirectory, WriteImage, Kept, ReadImage, LiesAt, SurvivesList, ClearNodes, NoBytes;
    var r := ReadDirectory(c, start + 2, start, key);
    assert IsChild(c, r.value[i], children[i]);
    ImageAtSurvives(c, r.value[i].offset, tree);
    if NoBytes(tree) {
      ImageReadsKept(c, r.value[i].offset, tree);
    }
  }
}
