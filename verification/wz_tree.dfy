/** Property trees of the PKG1 format: the layout `WzSerializer.Image` and `PropertyList` produce and
    the reading of it by `PropertyResolvers.ImageChildren` and `PropertyList`. */
module WzTree {
  import opened Bytes
  import opened WzPrimitives

  /** `Missing` is a null child: the writer leaves it out, the reader reports it past the end. */
  datatype Node = Missing | Node(name: WString, value: Value)

  /** Floating-point numbers are their bits. */
  datatype Value =
    | Null
    | SByteValue(n: int)
    | ByteValue(b: nat)
    | UInt16(u: nat)
    | Int32Value(i: int)
    | Color(rgba: nat)
    | Single(bits: nat)
    | Double(bits: nat)
    | Int64Value(l: int)
    | UInt64Value(m: nat)
    | Text(s: WString)
    | Vector2(x: int, y: int)
    | Uol(target: WString)
    | Sub(children: seq<Node>)

  const PROPERTY: WString := [0x50, 0x72, 0x6F, 0x70, 0x65, 0x72, 0x74, 0x79]   // "Property"
  const VECTOR: WString := [0x53, 0x68, 0x61, 0x70, 0x65, 0x32, 0x44, 0x23,
                            0x56, 0x65, 0x63, 0x74, 0x6F, 0x72, 0x32, 0x44]     // "Shape2D#Vector2D"
  const UOL: WString := [0x55, 0x4F, 0x4C]                                     // "UOL"

  /** Every number is in the range of its C# type and every string is one a runtime can build. */
  predicate ValidValue(v: Value)
    decreases v
  {
    match v
    case Null => true
    case SByteValue(n) => -128 <= n <= 127
    case ByteValue(b) => b < 256
    case UInt16(u) => u < 0x1_0000
    case Int32Value(i) => Int32(i)
    case Color(rgba) => rgba < TWO32
    case Single(bits) => bits < TWO32
    case Double(bits) => bits < TWO64
    case Int64Value(l) => Int64(l)
    case UInt64Value(m) => m < TWO64
    case Text(s) => |s| <= MAX_LENGTH
    case Vector2(x, y) => Int32(x) && Int32(y)
    case Uol(s) => |s| <= MAX_LENGTH
    case Sub(children) => ValidNodes(children)
  }

  predicate ValidNodes(ns: seq<Node>)
    decreases ns
  {
    |ns| < TWO31 &&
    forall i :: 0 <= i < |ns| && ns[i].Node? ==> |ns[i].name| <= MAX_LENGTH && ValidValue(ns[i].value)
  }

  predicate AllPresent(ns: seq<Node>) {
    forall i :: 0 <= i < |ns| ==> ns[i].Node?
  }

  function CountPresent(ns: seq<Node>): (n: nat)
    ensures n <= |ns|
  {
    if ns == [] then 0 else (if ns[0].Missing? then 0 else 1) + CountPresent(ns[1..])
  }

  // ---------------------------------------------------------------- writing

  function Compact(v: int, bytes: nat): seq<byte>
    requires (bytes == 4 && Int32(v)) || (bytes == 8 && Int64(v))
  {
    Powers();
    WriteCompact(v, bytes)
  }

  lemma CompactBack(c: seq<byte>, at: nat, v: int, bytes: nat)
    requires ((bytes == 4 && Int32(v)) || (bytes == 8 && Int64(v))) && LiesAt(c, at, Compact(v, bytes))
    ensures ReadCompact(c, at, bytes) == Ok(v, at + |Compact(v, bytes)|) && |Compact(v, bytes)| >= 1
  {
    Powers();
    CompactReadsBack(c, at, v, bytes);
  }

  function AsInt32(m: nat): int
    requires m < TWO32
  {
    if m >= TWO31 then m - TWO32 else m
  }

  function AsInt64(m: nat): int
    requires m < TWO64
  {
    if m >= TWO63 then m - TWO64 else m
  }

  /** `GetStringToBlock`: never de-duplicated. */
  function WriteBlock(s: WString): (bytes: seq<byte>)
    requires |s| <= MAX_LENGTH
    ensures |bytes| >= 2
  {
    [0] + WriteString(s)
  }

  predicate Extended(v: Value) {
    v.Vector2? || v.Uol? || v.Sub?
  }

  function WriteExtended(v: Value): seq<byte>
    requires ValidValue(v) && Extended(v)
    decreases v, 0
  {
    match v
    case Vector2(x, y) => WriteBlock(VECTOR) + (Compact(x, 4) + Compact(y, 4))
    case Uol(s) => WriteBlock(UOL) + ([0] + WriteBlock(s))
    case Sub(children) => WriteBlock(PROPERTY) + ([0, 0] + WriteList(children))
  }

  predicate IsByte(v: Value) {
    v.SByteValue? || v.ByteValue?
  }

  /** The type byte and what follows it; extended values are a block preceded by its length.  Of a byte
      or sbyte the writer writes the type only, not the value. */
  function WriteValue(v: Value): (bytes: seq<byte>)
    requires ValidValue(v)
    ensures |bytes| >= 1 && (|bytes| == 1 <==> v == Null || IsByte(v))
    decreases v, 1
  {
    match v
    case Null => [0]
    case SByteValue(_) => [0x10]
    case ByteValue(_) => [0x11]
    case UInt16(u) => [0x12] + ToLittleEndian(u, 2)
    case Int32Value(i) => [3] + Compact(i, 4)
    case Color(rgba) => [19] + Compact(AsInt32(rgba), 4)
    case Single(bits) => [4] + WriteSingle(bits)
    case Double(bits) => [5] + ToLittleEndian(bits, 8)
    case Int64Value(l) => [20] + Compact(l, 8)
    case UInt64Value(m) => [21] + Compact(AsInt64(m), 8)
    case Text(s) => [8] + WriteBlock(s)
    case _ => var block := WriteExtended(v); [9] + (ToLittleEndian(|block|, 4) + block)
  }

  /** An extended value is its type byte, its length and its block. */
  lemma WrappedShape(v: Value)
    requires ValidValue(v) && Extended(v)
    ensures var block := WriteExtended(v);
      WriteValue(v) == [9] + (ToLittleEndian(|block|, 4) + block) && |WriteValue(v)| == 5 + |block|
  {}

  function WriteNode(n: Node): (bytes: seq<byte>)
    requires n.Node? && |n.name| <= MAX_LENGTH && ValidValue(n.value)
    ensures |bytes| >= 3
    decreases n, 2
  {
    WriteBlock(n.name) + WriteValue(n.value)
  }

  function WriteNodes(ns: seq<Node>): seq<byte>
    requires ValidNodes(ns)
    decreases ns, 3
  {
    if ns == [] then []
    else (if ns[0].Missing? then [] else WriteNode(ns[0])) + WriteNodes(ns[1..])
  }

  function WriteList(ns: seq<Node>): seq<byte>
    requires ValidNodes(ns)
    decreases ns, 4
  {
    Compact(CountPresent(ns), 4) + WriteNodes(ns)
  }

  lemma ListShape(ns: seq<Node>)
    requires ValidNodes(ns)
    ensures Int32(CountPresent(ns)) && WriteList(ns) == Compact(CountPresent(ns), 4) + WriteNodes(ns)
  {}

  function WriteImage(ns: seq<Node>): seq<byte>
    requires ValidNodes(ns)
  {
    [0x73] + (WriteString(PROPERTY) + ([0, 0] + WriteList(ns)))
  }

  // ---------------------------------------------------------------- reading

  function Left(c: seq<byte>, at: nat): nat {
    if at < |c| then |c| - at else 0
  }

  function ReadByte(c: seq<byte>, at: nat): (r: Read<byte>)
    ensures r.Ok? ==> r.next == at + 1 <= |c|
  {
    if at < |c| then Ok(c[at], at + 1) else Fail
  }

  /** A de-duplicated string: four bytes say how far from the start of the image it lies. */
  function ReadShared(c: seq<byte>, start: nat, at: nat): (r: Read<WString>)
    ensures r.Ok? ==> at < r.next <= |c|
  {
    match ReadSigned(c, at, 4)
    case Fail => Fail
    case Ok(offset, next) =>
      if start + offset < 0 then Fail else
      match ReadString(c, start + offset)
      case Ok(s, _) => Ok(s, next)
      case Fail => Fail
  }

  /** A string in place or, for the kinds 1 and 0x1B, one that lies elsewhere in the image that starts
      at `start`. */
  function ReadBlock(c: seq<byte>, start: nat, at: nat): (r: Read<WString>)
    ensures r.Ok? ==> at < r.next <= |c|
  {
    match ReadByte(c, at)
    case Fail => Fail
    case Ok(kind, next) =>
      if kind == 0 || kind == 0x73 then ReadString(c, next)
      else if kind == 1 || kind == 0x1B then ReadShared(c, start, next)
      else Fail
  }

  function ReadExtended(c: seq<byte>, start: nat, at: nat): (r: Read<Value>)
    ensures r.Ok? ==> Extended(r.value)
    decreases Left(c, at), 3, 0
  {
    match ReadBlock(c, start, at)
    case Fail => Fail
    case Ok(kind, next) =>
      if kind == PROPERTY then
        match ReadList(c, start, next + 2)
        case Ok(children, _) => Ok(Sub(children), next)
        case Fail => Fail
      else if kind == VECTOR then
        match ReadCompact(c, next, 4)
        case Fail => Fail
        case Ok(x, mid) =>
          match ReadCompact(c, mid, 4)
          case Fail => Fail
          case Ok(y, end) => Ok(Vector2(x, y), end)
      else if kind == UOL then
        match ReadBlock(c, start, next + 1)
        case Fail => Fail
        case Ok(s, end) => Ok(Uol(s), end)
      else Fail
  }

  function ReadValue(c: seq<byte>, start: nat, at: nat): (r: Read<Value>)
    ensures r.Ok? ==> at < r.next
    decreases Left(c, at), 4, 0
  {
    match ReadByte(c, at)
    case Fail => Fail
    case Ok(kind, next) =>
      if kind == 0 then Ok(Null, next)
      else if kind == 0x10 then
        match ReadSByte(c, next) case Ok(n, end) => Ok(SByteValue(n), end) case Fail => Fail
      else if kind == 0x11 then
        match ReadByte(c, next) case Ok(b, end) => Ok(ByteValue(b as nat), end) case Fail => Fail
      else if kind == 2 || kind == 0x0B || kind == 0x12 then
        match ReadFixed(c, next, 2) case Ok(u, end) => Ok(UInt16(u), end) case Fail => Fail
      else if kind == 3 then
        match ReadCompact(c, next, 4) case Ok(i, end) => Ok(Int32Value(i), end) case Fail => Fail
      else if kind == 19 then
        match ReadCompact(c, next, 4) case Ok(i, end) => Ok(Color(i % TWO32), end) case Fail => Fail
      else if kind == 4 then
        match ReadSingle(c, next) case Ok(bits, end) => Ok(Single(bits), end) case Fail => Fail
      else if kind == 5 then
        match ReadFixed(c, next, 8) case Ok(bits, end) => Ok(Double(bits), end) case Fail => Fail
      else if kind == 20 then
        match ReadCompact(c, next, 8) case Ok(l, end) => Ok(Int64Value(l), end) case Fail => Fail
      else if kind == 21 then
        match ReadCompact(c, next, 8)
        case Ok(l, end) => Ok(UInt64Value(l % TWO64), end)
        case Fail => Fail
      else if kind == 8 then
        match ReadBlock(c, start, next) case Ok(s, end) => Ok(Text(s), end) case Fail => Fail
      else if kind == 9 then
        ReadWrapped(c, start, next)
      else Fail
  }

  /** A block is read where it starts and skipped by its announced length. */
  function ReadWrapped(c: seq<byte>, start: nat, at: nat): (r: Read<Value>)
    ensures r.Ok? ==> at < r.next && Extended(r.value)
    decreases Left(c, at), 4, 0
  {
    match ReadFixed(c, at, 4)
    case Fail => Fail
    case Ok(length, body) =>
      match ReadExtended(c, start, body)
      case Ok(v, _) => Ok(v, body + length)
      case Fail => Fail
  }

  function ReadNode(c: seq<byte>, start: nat, at: nat): (r: Read<Node>)
    ensures r.Ok? ==> at <= r.next
    decreases Left(c, at), 0, 0
  {
    if at >= |c| then Ok(Missing, at)
    else
      match ReadBlock(c, start, at)
      case Fail => Fail
      case Ok(name, next) =>
        match ReadValue(c, start, next)
        case Ok(v, end) => Ok(Node(name, v), end)
        case Fail => Fail
  }

  function ReadNodes(c: seq<byte>, start: nat, at: nat, count: nat): (r: Read<seq<Node>>)
    ensures r.Ok? ==> at <= r.next && |r.value| == count
    decreases Left(c, at), 1, count
  {
    if count == 0 then Ok([], at)
    else
      match ReadNode(c, start, at)
      case Fail => Fail
      case Ok(n, next) =>
        match ReadNodes(c, start, next, count - 1)
        case Ok(rest, end) => Ok([n] + rest, end)
        case Fail => Fail
  }

  /** With four bytes or fewer before the end of the stream the list is taken to be empty. */
  function ReadList(c: seq<byte>, start: nat, at: nat): Read<seq<Node>>
    decreases Left(c, at), 2, 0
  {
    if at + 4 >= |c| then Ok([], at)
    else
      match ReadCompact(c, at, 4)
      case Fail => Fail
      case Ok(count, next) => if count < 0 then Fail else ReadNodes(c, start, next, count)
  }

  /** De-duplicated strings are counted from where the image starts. */
  function ReadImage(c: seq<byte>, at: nat): Read<seq<Node>> {
    match ReadByte(c, at)
    case Fail => Fail
    case Ok(mark, next) =>
      if mark != 0x73 then Fail else
      match ReadString(c, next)
      case Fail => Fail
      case Ok(kind, mid) =>
        if kind != PROPERTY then Fail else
        match ReadSigned(c, mid, 2)
        case Fail => Fail
        case Ok(zero, end) => if zero != 0 then Fail else ReadList(c, at, end)
  }
}
