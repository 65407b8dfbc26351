/** Packet framing: `MakeSendBufferInternal` prefixes a payload with its total size and an id, and
    `PacketSession::OnRecv` cuts a byte stream back into packets. */
module Framing {
  import opened Basics
  import opened Bytes

  const HEADER := 4          // sizeof(PacketHeader): uint16 size, uint16 id
  const MAX_PAYLOAD := 4092  // a chunk of 4096 bytes less the header

  // ---------------------------------------------------------------- the writer

  /** `uint16_t packet_size`, computed with the source's two narrowing conversions. */
  function PacketSize(payload: seq<byte>): nat {
    (|payload| % 0x1_0000 + HEADER) % 0x1_0000
  }

  function Frame(id: nat, payload: seq<byte>): seq<byte> {
    ToLittleEndian(PacketSize(payload), 2) + ToLittleEndian(id, 2) + payload
  }

  datatype Message = Message(id: nat, payload: seq<byte>)

  predicate Sendable(m: Message) {
    m.id < 0x1_0000 && |m.payload| <= MAX_PAYLOAD
  }

  function Frames(ms: seq<Message>): seq<seq<byte>> {
    seq(|ms|, i requires 0 <= i < |ms| => Frame(ms[i].id, ms[i].payload))
  }

  // ---------------------------------------------------------------- the reader

  function Size(s: seq<byte>): nat
    requires |s| >= 2
  {
    FromLittleEndian(s[..2])
  }

  /** A whole packet lies at the front of `s`. */
  predicate HasPacket(s: seq<byte>) {
    |s| >= HEADER && |s| >= Size(s)
  }

  /** No packet header reached by the reader announces size zero. */
  predicate Live(s: seq<byte>)
    decreases |s|
  {
    HasPacket(s) ==> Size(s) > 0 && Live(s[Size(s)..])
  }

  datatype Parsed = Parsed(packets: seq<seq<byte>>, rest: seq<byte>)

  /** The packets the reader hands over, and the bytes it leaves for later. */
  function Parse(s: seq<byte>): Parsed
    requires Live(s)
    decreases |s|
  {
    if !HasPacket(s) then Parsed([], s)
    else
      var tail := Parse(s[Size(s)..]);
      Parsed([s[..Size(s)]] + tail.packets, tail.rest)
  }

  /** More bytes after a parsed stretch extend the packets and never change those already cut. */
  lemma {:induction false} ParseAppend(a: seq<byte>, b: seq<byte>)
    requires Live(a + b)
    ensures Live(a) && Live(Parse(a).rest + b)
    ensures Parse(a + b) == Parsed(Parse(a).packets + Parse(Parse(a).rest + b).packets, Parse(Parse(a).rest + b).rest)
    decreases |a|
  {
    if HasPacket(a) {
      var n := Size(a);
      assert (a + b)[..2] == a[..2] && (a + b)[..n] == a[..n] && (a + b)[n..] == a[n..] + b;
      ParseAppend(a[n..], b);
    }
  }

  /** Whether the reader meets a size of zero depends on the leftover and what comes after it only. */
  lemma {:induction false} LiveAppend(a: seq<byte>, b: seq<byte>)
    requires Live(a)
    ensures Live(a + b) <==> Live(Parse(a).rest + b)
    decreases |a|
  {
    if HasPacket(a) {
      var n := Size(a);
      assert (a + b)[..2] == a[..2] && (a + b)[n..] == a[n..] + b;
      LiveAppend(a[n..], b);
    }
  }

  lemma {:induction false} RestHasNoPacket(s: seq<byte>)
    requires Live(s)
    ensures !HasPacket(Parse(s).rest)
    decreases |s|
  {
    if HasPacket(s) { RestHasNoPacket(s[Size(s)..]); }
  }

  lemma SplitAt(s: seq<byte>, n: nat, packets: seq<seq<byte>>, rest: seq<byte>)
    requires n <= |s| && s[n..] == Concat(packets) + rest
    ensures s == Concat([s[..n]] + packets) + rest
  {
    ConcatCons(s[..n], packets);
    assert s == s[..n] + s[n..];
  }

  /** Nothing is dropped: packets and leftover together are the stream. */
  lemma {:induction false} ParseKeepsBytes(s: seq<byte>)
    requires Live(s)
    ensures s == Concat(Parse(s).packets) + Parse(s).rest
    decreases |s|
  {
    if HasPacket(s) {
      var n := Size(s);
      ParseKeepsBytes(s[n..]);
      SplitAt(s, n, Parse(s[n..]).packets, Parse(s[n..]).rest);
    } else {
      assert Parse(s) == Parsed([], s);
    }
  }

  /** Bytes left over are less than one packet: at most 65534. */
  lemma LeftoverBounded(s: seq<byte>)
    requires !HasPacket(s)
    ensures |s| <= 0xFFFE
  {
    if |s| >= HEADER {
      LittleEndianBounded(s[..2]);
      assert Power256(2) == 0x1_0000 by { assert Power256(1) == 256 * Power256(0); }
    }
  }

  // ---------------------------------------------------------------- writer against reader

  lemma Slices(size: seq<byte>, id: seq<byte>, payload: seq<byte>, after: seq<byte>)
    requires |size| == 2 && |id| == 2
    ensures var f := size + id + payload;
      && |f| == |payload| + 4 && (f + after)[..2] == size && f[2..4] == id && f[4..] == payload
      && (f + after)[..|f|] == f && (f + after)[|f|..] == after
  {}

  lemma WordReadsBack(v: nat)
    requires v < 0x1_0000
    ensures FromLittleEndian(ToLittleEndian(v, 2)) == v
  {
    assert Power256(2) == 0x1_0000 by { assert Power256(1) == 256 * Power256(0); }
    LittleEndianRoundTrip(v, 2);
  }

  lemma FrameReadsBack(m: Message, after: seq<byte>)
    requires Sendable(m)
    ensures var f := Frame(m.id, m.payload);
      && |f| == |m.payload| + HEADER
      && HasPacket(f + after) && Size(f + after) == |f| && (f + after)[..|f|] == f && (f + after)[|f|..] == after
      && FromLittleEndian(f[2..4]) == m.id && f[4..] == m.payload
  {
    hide ToLittleEndian, FromLittleEndian;
    var size := PacketSize(m.payload);
    assert size == |m.payload| + HEADER;
    WordReadsBack(size);
    WordReadsBack(m.id);
    Slices(ToLittleEndian(size, 2), ToLittleEndian(m.id, 2), m.payload, after);
  }

  /** Reading what was framed gives back exactly the frames, in order, with nothing left over. */
  lemma {:induction false} ParseFrames(ms: seq<Message>)
    requires forall m :: m in ms ==> Sendable(m)
    ensures Live(Concat(Frames(ms))) && Parse(Concat(Frames(ms))) == Parsed(Frames(ms), [])
  {
    if ms != [] {
      var first := Frame(ms[0].id, ms[0].payload);
      assert Frames(ms) == [first] + Frames(ms[1..]);
      FrameReadsBack(ms[0], Concat(Frames(ms[1..])));
      ParseFrames(ms[1..]);
    }
  }

  // ---------------------------------------------------------------- when the reader loop ends

  /** The loop of `OnRecv` as it is written: position after at most `turns` turns, and whether it
      has left the loop. */
  function Loop(s: seq<byte>, turns: nat): (nat, bool)
    ensures Loop(s, turns).0 <= |s|
  {
    if turns == 0 then (0, false)
    else
      var (at, stopped) := Loop(s, turns - 1);
      if stopped || !HasPacket(s[at..]) then (at, true) else (at + Size(s[at..]), false)
  }

  /** Taking one packet off the front is one turn of the loop. */
  lemma {:induction false} LoopAfterFirst(s: seq<byte>, turns: nat)
    requires HasPacket(s)
    ensures Loop(s, turns + 1) == (Size(s) + Loop(s[Size(s)..], turns).0, Loop(s[Size(s)..], turns).1)
  {
    hide Size;
    var n := Size(s);
    assert s[0..] == s;
    if turns == 0 {
      assert Loop(s, 0 + 1) == (n, false);
    } else {
      LoopAfterFirst(s, turns - 1);
      var at := Loop(s[n..], turns - 1).0;
      assert s[n..][at..] == s[n + at..];
    }
  }

  lemma {:induction false} StuckNeverStops(s: seq<byte>, turns: nat)
    requires !Live(s)
    ensures !Loop(s, turns).1
    decreases turns
  {
    assert s[0..] == s;
    if turns > 0 {
      LoopAfterFirst(s, turns - 1);
      if Size(s) == 0 {
        assert s[0..] == s;
        StuckNeverStops(s, turns - 1);
      } else {
        StuckNeverStops(s[Size(s)..], turns - 1);
      }
    }
  }

  lemma {:induction false} LiveStops(s: seq<byte>) returns (turns: nat)
    requires Live(s)
    ensures Loop(s, turns) == (|Concat(Parse(s).packets)|, true)
    decreases |s|
  {
    assert s[0..] == s;
    if HasPacket(s) {
      var k := LiveStops(s[Size(s)..]);
      LoopAfterFirst(s, k);
      assert Parse(s).packets[1..] == Parse(s[Size(s)..]).packets;
      turns := k + 1;
    } else {
      assert Loop(s, 0) == (0, false);
      turns := 1;
    }
  }

  /** The reader's loop ends exactly on streams in which no reached header announces size zero. */
  lemma LoopEndsIffLive(s: seq<byte>)
    ensures (exists turns :: Loop(s, turns).1) <==> Live(s)
  {
    if Live(s) {
      var turns := LiveStops(s);
      assert Loop(s, turns).1;
    } else {
      forall turns ensures !Loop(s, turns).1 { StuckNeverStops(s, turns); }
    }
  }

  /** A header of four zero bytes keeps the loop turning for ever. */
  lemma ZeroHeaderNeverEnds(turns: nat)
    ensures !Live([0, 0, 0, 0]) && !Loop([0, 0, 0, 0], turns).1
  {
    var s: seq<byte> := [0, 0, 0, 0];
    var one: seq<byte> := [0];
    assert s[..2] == one + one && (one + one)[1..] == one && one[1..] == [];
    assert FromLittleEndian(one) == 0 && FromLittleEndian(one + one) == 0;
    StuckNeverStops(s, turns);
  }
}
