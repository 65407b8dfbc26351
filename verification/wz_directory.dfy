/** A flat PKG1 directory of images: the layout `DirectoryChildren` of `Tools/PKG1/WZSerializer.cs`
    writes, the patches its `Serialize` makes, and how `DirectoryChildren` of
    `Tools/PKG1/PropertyResolvers.cs` reads it. */
module WzDirectory {
  import opened Bytes
  import opened WzPrimitives
  import opened WzTree
  import opened WzOffset

  const PLACEHOLDER := 123456789

  /** The two patched numbers of an entry: the size and the code of the offset. */
  datatype Patch = Patch(size: nat, code: nat)

  predicate Word(p: Patch) { p.size < TWO32 && p.code < TWO32 }

  /** What follows the name: an escaped size, an escaped checksum and the code. */
  function WriteTail(p: Patch): (bytes: seq<byte>)
    ensures |bytes| == 14
  {
    [0x80] + ToLittleEndian(p.size, 4) + ([0x80] + ToLittleEndian(PLACEHOLDER, 4)) + ToLittleEndian(p.code, 4)
  }

  function WriteHead(name: WString): (bytes: seq<byte>)
    requires |name| <= MAX_LENGTH
    ensures |bytes| >= 1
  {
    [4] + WriteString(name)
  }

  predicate Names(names: seq<WString>) {
    forall i :: 0 <= i < |names| ==> |names[i]| <= MAX_LENGTH
  }

  /** The first `n` entries. */
  function WriteEntries(names: seq<WString>, patches: seq<Patch>, n: nat): seq<byte>
    requires Names(names) && |patches| == |names| && n <= |names|
  {
    if n == 0 then [] else WriteEntries(names, patches, n - 1) + (WriteHead(names[n - 1]) + WriteTail(patches[n - 1]))
  }

  /** Where entry `n` starts among the entries, and where its tail does. */
  function EntryAt(names: seq<WString>, n: nat): nat
    requires Names(names) && n <= |names|
  {
    if n == 0 then 0 else EntryAt(names, n - 1) + |WriteHead(names[n - 1])| + 14
  }

  function TailAt(names: seq<WString>, i: nat): nat
    requires Names(names) && i < |names|
  {
    EntryAt(names, i) + |WriteHead(names[i])|
  }

  lemma {:induction false} EntriesLength(names: seq<WString>, patches: seq<Patch>, n: nat)
    requires Names(names) && |patches| == |names| && n <= |names|
    ensures |WriteEntries(names, patches, n)| == EntryAt(names, n)
  {
    hide WriteHead, WriteTail;
    if n > 0 { EntriesLength(names, patches, n - 1); }
  }

  // ---------------------------------------------------------------- patching

  lemma {:induction false} EarlierEntries(names: seq<WString>, patches: seq<Patch>, i: nat, p: Patch, n: nat)
    requires Names(names) && |patches| == |names| && n <= i < |names|
    ensures WriteEntries(names, patches[i := p], n) == WriteEntries(names, patches, n)
  {
    hide WriteHead, WriteTail;
    if n > 0 { EarlierEntries(names, patches, i, p, n - 1); }
  }

  lemma EntriesSnoc(names: seq<WString>, patches: seq<Patch>, n: nat)
    requires Names(names) && |patches| == |names| && 0 < n <= |names|
    ensures |names[n - 1]| <= MAX_LENGTH
    ensures WriteEntries(names, patches, n) == WriteEntries(names, patches, n - 1) + (WriteHead(names[n - 1]) + WriteTail(patches[n - 1]))
  {}

  /** The entries around the tail of entry `i` do not depend on its patch. */
  lemma {:induction false} EntriesSplit(names: seq<WString>, patches: seq<Patch>, i: nat, p: Patch, n: nat)
      returns (pre: seq<byte>, post: seq<byte>)
    requires Names(names) && |patches| == |names| && i < n <= |names|
    ensures |pre| == TailAt(names, i)
    ensures WriteEntries(names, patches, n) == pre + WriteTail(patches[i]) + post
    ensures WriteEntries(names, patches[i := p], n) == pre + WriteTail(p) + post
  {
    hide *;
    if n == i + 1 {
      pre, post := LastSplit(names, patches, i, p);
    } else {
      EntriesSnoc(names, patches, n);
      EntriesSnoc(names, patches[i := p], n);
      var last := WriteHead(names[n - 1]) + WriteTail(patches[n - 1]);
      var earlier;
      pre, earlier := EntriesSplit(names, patches, i, p, n - 1);
      post := earlier + last;
      Regroup(pre + WriteTail(patches[i]), earlier, last);
      Regroup(pre + WriteTail(p), earlier, last);
    }
  }

  lemma LastSplit(names: seq<WString>, patches: seq<Patch>, i: nat, p: Patch) returns (pre: seq<byte>, post: seq<byte>)
    requires Names(names) && |patches| == |names| && i < |names|
    ensures |pre| == TailAt(names, i)
    ensures WriteEntries(names, patches, i + 1) == pre + WriteTail(patches[i]) + post
    ensures WriteEntries(names, patches[i := p], i + 1) == pre + WriteTail(p) + post
  {
    EntriesSnoc(names, patches, i + 1);
    EntriesSnoc(names, patches[i := p], i + 1);
    EarlierEntries(names, patches, i, p, i);
    EntriesLength(names, patches, i);
    hide WriteEntries, WriteHead, WriteTail, Names;
    var before, head := WriteEntries(names, patches, i), WriteHead(names[i]);
    pre, post := before + head, [];
    Regroup(before, head, WriteTail(patches[i]));
    Regroup(before, head, WriteTail(p));
  }

  lemma Regroup(a: seq<byte>, b: seq<byte>, d: seq<byte>)
    ensures a + (b + d) == a + b + d
    ensures a + b + d + [] == a + b + d
  {}

  function Overwritten(c: seq<byte>, at: nat, bytes: seq<byte>): (r: seq<byte>)
    requires at + |bytes| <= |c|
    ensures |r| == |c|
  {
    c[..at] + bytes + c[at + |bytes|..]
  }

  /** The size goes one byte into the tail and the code ten bytes into it: both are inside the tail,
      and neither touches the other, the escapes or the checksum. */
  lemma TailPatched(head: seq<byte>, old4: seq<byte>, fixed: seq<byte>, code4: seq<byte>, rest: seq<byte>, size: seq<byte>, code: seq<byte>)
    requires |old4| == |code4| == |size| == |code| == 4 && |fixed| == 5
    ensures var c := head + ([0x80] + old4 + fixed + code4) + rest;
      Overwritten(Overwritten(c, |head| + 1, size), |head| + 10, code) == head + ([0x80] + size + fixed + code) + rest
  {
    var c := head + ([0x80] + old4 + fixed + code4) + rest;
    var c1 := head + ([0x80] + size + fixed + code4) + rest;
    assert c[..|head| + 1] == head + [0x80] && c[|head| + 5..] == fixed + code4 + rest;
    assert Overwritten(c, |head| + 1, size) == c1;
    assert c1[..|head| + 10] == head + ([0x80] + size + fixed) && c1[|head| + 14..] == rest;
  }

  /** Overwriting the two numbers of entry `i` changes that entry's patch and nothing else. */
  lemma EntryPatched(c: seq<byte>, at: nat, before: seq<byte>, names: seq<WString>, patches: seq<Patch>, rest: seq<byte>, i: nat, p: Patch)
    requires Names(names) && |patches| == |names| && i < |names|
    requires c == before + WriteEntries(names, patches, |names|) + rest && at == |before| + TailAt(names, i)
    ensures at + 14 <= |c|
    ensures Overwritten(Overwritten(c, at + 1, ToLittleEndian(p.size, 4)), at + 10, ToLittleEndian(p.code, 4))
      == before + WriteEntries(names, patches[i := p], |names|) + rest
  {
    hide *;
    var pre, post := EntriesSplit(names, patches, i, p, |names|);
    PatchedAround(before, pre, patches[i], p, post, rest);
  }

  lemma PatchedAround(before: seq<byte>, pre: seq<byte>, was: Patch, p: Patch, post: seq<byte>, rest: seq<byte>)
    ensures var c := before + (pre + WriteTail(was) + post) + rest; var at := |before| + |pre|;
      && at + 14 <= |c|
      && Overwritten(Overwritten(c, at + 1, ToLittleEndian(p.size, 4)), at + 10, ToLittleEndian(p.code, 4))
         == before + (pre + WriteTail(p) + post) + rest
  {
    var fixed := [0x80] + ToLittleEndian(PLACEHOLDER, 4);
    hide *;
    TailShape(was);
    TailShape(p);
    Around(before, pre, WriteTail(was), post, rest);
    Around(before, pre, WriteTail(p), post, rest);
    TailPatched(before + pre, ToLittleEndian(was.size, 4), fixed, ToLittleEndian(was.code, 4),
                post + rest, ToLittleEndian(p.size, 4), ToLittleEndian(p.code, 4));
  }

  lemma TailShape(p: Patch)
    ensures WriteTail(p) ==
      [0x80] + ToLittleEndian(p.size, 4) + ([0x80] + ToLittleEndian(PLACEHOLDER, 4)) + ToLittleEndian(p.code, 4)
  {}

  lemma Around(before: seq<byte>, pre: seq<byte>, tail: seq<byte>, post: seq<byte>, rest: seq<byte>)
    ensures before + (pre + tail + post) + rest == before + pre + tail + (post + rest)
  {}

  // ---------------------------------------------------------------- reading

  datatype Listed = Listed(name: WString, size: nat, checksum: int, offset: nat)

  /** No byte of the name is a control character: the reader does not start guessing at encryptions. */
  predicate Printable(name: WString) {
    forall i :: 0 <= i < |name| ==> 32 <= name[i] && name[i] != 127
  }

  /** `ReadWzInt` twice and `ReadWzOffset`. */
  function ReadTail(c: seq<byte>, at: nat, start: nat, key: nat, name: WString): (r: Read<Listed>)
    requires start <= at
    ensures r.Ok? ==> at < r.next
  {
    match ReadCompact(c, at, 4)
    case Fail => Fail
    case Ok(size, mid) =>
      match ReadCompact(c, mid, 4)
      case Fail => Fail
      case Ok(checksum, end) =>
        match ReadFixed(c, end, 4)
        case Fail => Fail
        case Ok(code, next) => Ok(Listed(name, size % TWO32, checksum, ReadWzOffset(end - start, start, code, key)), next)
  }

  /** One entry of kind 3 or 4; the other kinds are not part of this model, nor are the encrypted
      readings of a first name that is not printable. */
  function ReadEntry(c: seq<byte>, at: nat, start: nat, key: nat, first: bool): (r: Read<Listed>)
    requires start <= at
    ensures r.Ok? ==> at < r.next
  {
    match ReadByte(c, at)
    case Fail => Fail
    case Ok(kind, next) =>
      if kind != 3 && kind != 4 then Fail else
      match ReadString(c, next)
      case Fail => Fail
      case Ok(name, mid) => if first && !Printable(name) then Fail else ReadTail(c, mid, start, key, name)
  }

  /** The first `n` children. */
  function ReadEntries(c: seq<byte>, at: nat, start: nat, key: nat, n: nat): (r: Read<seq<Listed>>)
    requires start <= at
    ensures r.Ok? ==> at <= r.next && |r.value| == n
  {
    if n == 0 then Ok([], at)
    else
      match ReadEntries(c, at, start, key, n - 1)
      case Fail => Fail
      case Ok(entries, next) =>
        match ReadEntry(c, next, start, key, n == 1)
        case Ok(entry, end) => Ok(entries + [entry], end)
        case Fail => Fail
  }

  function ReadDirectory(c: seq<byte>, at: nat, start: nat, key: nat): Read<seq<Listed>>
    requires start <= at
  {
    match ReadCompact(c, at, 4)
    case Fail => Fail
    case Ok(count, next) => if count < 0 then Fail else ReadEntries(c, next, start, key, count)
  }

  // ---------------------------------------------------------------- reading back

  lemma EscapedBack(c: seq<byte>, at: nat, v: nat)
    requires v < TWO32 && LiesAt(c, at, [0x80] + ToLittleEndian(v, 4))
    ensures ReadCompact(c, at, 4) == Ok(Signed(v, 4), at + 5) && Signed(v, 4) % TWO32 == v
  {
    Powers();
    hide ToLittleEndian, FromLittleEndian;
    LiesAtFirst(c, at, 0x80, ToLittleEndian(v, 4));
    FixedReadsBack(c, at + 1, v, 4);
  }

  lemma TailBack(c: seq<byte>, at: nat, start: nat, key: nat, name: WString, p: Patch)
    requires start <= at && Word(p) && LiesAt(c, at, WriteTail(p))
    ensures ReadTail(c, at, start, key, name) ==
      Ok(Listed(name, p.size, PLACEHOLDER, ReadWzOffset(at + 10 - start, start, p.code, key)), at + 14)
  {
    var size, fixed, code := [0x80] + ToLittleEndian(p.size, 4), [0x80] + ToLittleEndian(PLACEHOLDER, 4), ToLittleEndian(p.code, 4);
    Powers();
    hide ToLittleEndian, ReadWzOffset, LiesAt, ReadCompact;
    LiesAtSplit(c, at, size + fixed, code);
    LiesAtSplit(c, at, size, fixed);
    EscapedBack(c, at, p.size);
    EscapedBack(c, at + 5, PLACEHOLDER);
    FixedReadsBack(c, at + 10, p.code, 4);
  }

  lemma EntryBack(c: seq<byte>, at: nat, start: nat, key: nat, first: bool, name: WString, p: Patch)
    requires start <= at && Word(p) && |name| <= MAX_LENGTH && (first ==> Printable(Stored(name)))
    requires LiesAt(c, at, WriteHead(name) + WriteTail(p))
    ensures var tail := at + |WriteHead(name)|;
      ReadEntry(c, at, start, key, first) ==
      Ok(Listed(Stored(name), p.size, PLACEHOLDER, ReadWzOffset(tail + 10 - start, start, p.code, key)), tail + 14)
  {
    hide *;
    var text, tail := WriteString(name), at + |WriteHead(name)|;
    HeadShape(name);
    ReadsEntry(c, at, start, key, first, tail, Stored(name));
    LiesAtSplit(c, at, WriteHead(name), WriteTail(p));
    LiesAtFirst(c, at, 4, text);
    StringReadsBack(c, at + 1, name);
    TailBack(c, tail, start, key, Stored(name), p);
  }

  lemma HeadShape(name: WString)
    requires |name| <= MAX_LENGTH
    ensures WriteHead(name) == [4] + WriteString(name)
  {}

  lemma ReadsEntry(c: seq<byte>, at: nat, start: nat, key: nat, first: bool, tail: nat, name: WString)
    requires start <= at <= tail
    ensures at < |c| && c[at] == 4 && ReadString(c, at + 1) == Ok(name, tail) && (first ==> Printable(name))
      ==> ReadEntry(c, at, start, key, first) == ReadTail(c, tail, start, key, name)
  {
    hide ReadString, ReadTail, Printable;
  }

  /** What is listed for entry `i` of a directory whose entries start at `at`. */
  function ListedAt(names: seq<WString>, patches: seq<Patch>, at: nat, start: nat, key: nat, i: nat): Listed
    requires Names(names) && |patches| == |names| && i < |names| && start <= at
  {
    Listed(Stored(names[i]), patches[i].size, PLACEHOLDER, ReadWzOffset(at + TailAt(names, i) + 10 - start, start, patches[i].code, key))
  }

  /** Entries read back one for one, each offset decoded at the position its code is stored at. */
  lemma {:induction false} EntriesBack(c: seq<byte>, at: nat, start: nat, key: nat, names: seq<WString>, patches: seq<Patch>, n: nat)
    requires Names(names) && |patches| == |names| && n <= |names| && start <= at
    requires forall i :: 0 <= i < |patches| ==> Word(patches[i])
    requires names != [] ==> Printable(Stored(names[0]))
    requires LiesAt(c, at, WriteEntries(names, patches, n))
    ensures var r := ReadEntries(c, at, start, key, n);
      && r.Ok? && r.next == at + EntryAt(names, n)
      && forall i :: 0 <= i < n ==> r.value[i] == ListedAt(names, patches, at, start, key, i)
  {
    hide *;
    if n == 0 {
      NoEntriesBack(c, at, start, key, names);
    } else {
      EntriesSnoc(names, patches, n);
      EntriesLength(names, patches, n - 1);
      ListedShape(names, patches, at, start, key, n - 1);
      var before, entry := WriteEntries(names, patches, n - 1), WriteHead(names[n - 1]) + WriteTail(patches[n - 1]);
      LiesAtSplit(c, at, before, entry);
      EntriesBack(c, at, start, key, names, patches, n - 1);
      EntryBack(c, at + |before|, start, key, n == 1, names[n - 1], patches[n - 1]);
      ReadsOneMore(c, at, start, key, n);
    }
  }

  lemma NoEntriesBack(c: seq<byte>, at: nat, start: nat, key: nat, names: seq<WString>)
    requires Names(names) && start <= at
    ensures ReadEntries(c, at, start, key, 0) == Ok([], at) && EntryAt(names, 0) == 0
  {}

  lemma ReadsOneMore(c: seq<byte>, at: nat, start: nat, key: nat, n: nat)
    requires n > 0 && start <= at && ReadEntries(c, at, start, key, n - 1).Ok?
    requires ReadEntry(c, ReadEntries(c, at, start, key, n - 1).next, start, key, n == 1).Ok?
    ensures var r := ReadEntries(c, at, start, key, n - 1); var e := ReadEntry(c, r.next, start, key, n == 1);
      ReadEntries(c, at, start, key, n) == Ok(r.value + [e.value], e.next)
  {
    hide ReadEntry;
  }

  lemma ListedShape(names: seq<WString>, patches: seq<Patch>, at: nat, start: nat, key: nat, i: nat)
    requires Names(names) && |patches| == |names| && i < |names| && start <= at
    ensures |names[i]| <= MAX_LENGTH
    ensures var tail := at + EntryAt(names, i) + |WriteHead(names[i])|;
      ListedAt(names, patches, at, start, key, i) ==
      Listed(Stored(names[i]), patches[i].size, PLACEHOLDER, ReadWzOffset(tail + 10 - start, start, patches[i].code, key))
    ensures EntryAt(names, i + 1) == EntryAt(names, i) + |WriteHead(names[i])| + 14
  {
    hide WriteHead, ReadWzOffset, Stored;
  }

  lemma DirectoryBack(c: seq<byte>, at: nat, start: nat, key: nat, names: seq<WString>, patches: seq<Patch>)
    requires Names(names) && |patches| == |names| < TWO31 && start <= at
    requires forall i :: 0 <= i < |patches| ==> Word(patches[i])
    requires names != [] ==> Printable(Stored(names[0]))
    requires LiesAt(c, at, Compact(|names|, 4) + WriteEntries(names, patches, |names|))
    ensures var r := ReadDirectory(c, at, start, key); var entries := at + |Compact(|names|, 4)|;
      && r.Ok? && |r.value| == |names|
      && forall i :: 0 <= i < |names| ==> r.value[i] == ListedAt(names, patches, entries, start, key, i)
  {
    assert Int32(|names|);
    hide *;
    DirectoryIsEntries(c, at, start, key, |names|, WriteEntries(names, patches, |names|));
    EntriesBack(c, at + |Compact(|names|, 4)|, start, key, names, patches, |names|);
  }

  lemma DirectoryIsEntries(c: seq<byte>, at: nat, start: nat, key: nat, n: nat, entries: seq<byte>)
    requires Int32(n) && start <= at && LiesAt(c, at, Compact(n, 4) + entries)
    ensures LiesAt(c, at + |Compact(n, 4)|, entries)
    ensures ReadDirectory(c, at, start, key) == ReadEntries(c, at + |Compact(n, 4)|, start, key, n)
  {
    hide *;
    LiesAtSplit(c, at, Compact(n, 4), entries);
    CompactBack(c, at, n, 4);
    ReadsDirectory(c, at, start, key, n, at + |Compact(n, 4)|);
  }

  lemma ReadsDirectory(c: seq<byte>, at: nat, start: nat, key: nat, n: nat, next: nat)
    requires start <= at <= next
    ensures ReadCompact(c, at, 4) == Ok(n, next) ==> ReadDirectory(c, at, start, key) == ReadEntries(c, next, start, key, n)
  {
    hide ReadCompact, ReadEntries;
  }
}
