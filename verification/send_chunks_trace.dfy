/** Runs of the shared chunks together with the actions that made them: which bytes a request for a
    send buffer is given, and what is in the buffer when it is closed. */
module SendTraces {
  import opened Basics
  import opened Bytes
  import opened SendChunks

  ghost predicate IsTrace(run: seq<State>, acts: seq<Action>) {
    && |run| == |acts| + 1
    && Init(run[0])
    && forall i :: 0 <= i < |acts| ==> Enabled(run[i], acts[i]) && Polite(run[i], acts[i]) && run[i + 1] == Apply(run[i], acts[i])
  }

  lemma TraceStep(run: seq<State>, acts: seq<Action>, i: nat)
    requires IsTrace(run, acts) && i < |acts|
    ensures |run| == |acts| + 1 && Enabled(run[i], acts[i]) && Polite(run[i], acts[i]) && run[i + 1] == Apply(run[i], acts[i])
  {
    hide Enabled, Apply, Init, Polite;
  }

  lemma TraceShape(run: seq<State>, acts: seq<Action>)
    requires IsTrace(run, acts)
    ensures |run| == |acts| + 1
  {
    hide Enabled, Apply, Init, Polite;
  }

  lemma TraceInv(run: seq<State>, acts: seq<Action>, i: nat)
    requires IsTrace(run, acts) && i < |run|
    ensures Inv(run[i])
  {
    hide Enabled, Apply, Init, Polite, Inv;
    forall k | 0 <= k < |run| - 1 ensures Next(run[k], run[k + 1]) {
      assert Enabled(run[k], acts[k]);
    }
    InvAlways(run, i);
  }

  /** What a thread has asked for, and the place that is due to it: behind the used bytes of its own
      chunk if there is room, and otherwise the start of the chunk it pops, once it has popped one. */
  datatype Request = Request(size: nat, chunk: Option<ChunkId>, at: nat)

  /** The place for a request at the moment it is made. */
  function Asked(s: State, t: ThreadId, size: nat): Request {
    if CurrentAt(s, t) && size <= Free(s.chunks[s.threads[t].current.value]) then
      Request(size, s.threads[t].current, s.chunks[s.threads[t].current.value].used)
    else Request(size, None, 0)
  }

  /** The chunk popped last is the first to be used again. */
  function Taken(s: State, unused: ChunkId): ChunkId {
    if s.idle == [] then unused else s.idle[|s.idle| - 1]
  }

  predicate By(a: Action, t: ThreadId) {
    !a.ReleaseBuffer? && !a.ReturnChunk? && a.t == t
  }

  function Due(run: seq<State>, acts: seq<Action>, t: ThreadId, i: nat): Request
    requires i <= |acts| < |run|
  {
    if i == 0 then Request(0, None, 0)
    else
      var a, before := acts[i - 1], Due(run, acts, t, i - 1);
      if a.Ask? && a.t == t then Asked(run[i - 1], t, a.size)
      else if a.Pop? && a.t == t then Request(before.size, Some(Taken(run[i - 1], a.unused)), 0)
      else before
  }

  /** The bytes the thread has written since it opened its buffer. */
  function Filled(acts: seq<Action>, t: ThreadId, i: nat): map<nat, byte>
    requires i <= |acts|
  {
    if i == 0 then map[]
    else
      var a, before := acts[i - 1], Filled(acts, t, i - 1);
      if a.OpenBuffer? && a.t == t then map[]
      else if a.WriteByte? && a.t == t then before[a.at := a.value]
      else before
  }

  /** A thread is where its request says, and its buffer holds what it has written. */
  predicate Follows(s: State, t: ThreadId, due: Request, filled: map<nat, byte>) {
    t in s.threads &&
    var th := s.threads[t];
    match th.pc
    case Idle => true
    case Popping(size) => due == Request(size, None, 0)
    case Popped(c, size) => due == Request(size, Some(c), 0)
    case Resetting(size) => due == Request(size, th.current, 0)
    case Opening(size) => CurrentAt(s, t) && due == Request(size, th.current, s.chunks[th.current.value].used)
    case Writing(b) =>
      && CurrentAt(s, t) && b in s.buffers && due.chunk == th.current
      && s.buffers[b] == Buffer(th.current.value, due.at, due.size, 0)
      && Contains(s.chunks[th.current.value].bytes, due.at, filled)
  }

  predicate Contains(bytes: seq<byte>, at: nat, filled: map<nat, byte>) {
    forall x :: x in filled ==> at + x < |bytes| && bytes[at + x] == filled[x]
  }

  /** The chunk and the buffer a thread works with. */
  predicate Mine(s: State, t: ThreadId, c: ChunkId) {
    t in s.threads && s.threads[t].current == Some(c)
  }

  predicate Fills(s: State, t: ThreadId, b: BufferId) {
    t in s.threads && s.threads[t].pc == Writing(b)
  }

  lemma TwoChunks(s: State, t: ThreadId, u: ThreadId, c: ChunkId, d: ChunkId)
    requires Inv(s) && t != u && Mine(s, t, c) && Mine(s, u, d)
    ensures c != d
  {
    assert Owner(s.threads, t, c) && Owner(s.threads, u, d);
  }

  lemma FillsOwn(s: State, t: ThreadId, b: BufferId)
    requires Inv(s) && Fills(s, t, b)
    ensures b in s.buffers && b !in s.closed && s.buffers[b].chunk in s.chunks && Mine(s, t, s.buffers[b].chunk)
  {
    assert ThreadOk(s.chunks, s.buffers, s.closed, s.threads[t]);
  }

  /** What a step of another thread changes. */
  lemma OthersTouch(s: State, a: Action, t: ThreadId)
    requires Inv(s) && Enabled(s, a) && !By(a, t) && t in s.threads
    ensures t in Apply(s, a).threads && Apply(s, a).threads[t] == s.threads[t]
    ensures forall c: ChunkId :: c in s.chunks && Mine(s, t, c) ==> c in Apply(s, a).chunks && Apply(s, a).chunks[c] == s.chunks[c]
  {
    if !a.ReleaseBuffer? && !a.ReturnChunk? {
      var u := a.t;
      forall c: ChunkId, d: ChunkId | Mine(s, t, c) && Mine(s, u, d) ensures c != d { TwoChunks(s, t, u, c, d); }
      forall b: BufferId | Fills(s, u, b) ensures b in s.buffers && Mine(s, u, s.buffers[b].chunk) { FillsOwn(s, u, b); }
      if CurrentAt(s, u) { assert Mine(s, u, s.threads[u].current.value); }
      if s.threads[u].pc.Writing? { assert Fills(s, u, s.threads[u].pc.buffer); }
      hide Inv, Polite;
    }
  }

  lemma OthersLeaveBuffer(s: State, a: Action, t: ThreadId, b: BufferId)
    requires Inv(s) && Enabled(s, a) && !By(a, t) && Fills(s, t, b)
    ensures b in s.buffers && b in Apply(s, a).buffers && Apply(s, a).buffers[b] == s.buffers[b]
  {
    FillsOwn(s, t, b);
    if a.CloseBuffer? {
      var d := s.threads[a.t].pc.buffer;
      FillsOwn(s, a.t, d);
      TwoChunks(s, t, a.t, s.buffers[b].chunk, s.buffers[d].chunk);
    }
    hide Inv, Polite;
  }

  lemma OthersFollow(s: State, a: Action, t: ThreadId, due: Request, filled: map<nat, byte>)
    requires Inv(s) && Enabled(s, a) && !By(a, t) && Follows(s, t, due, filled)
    ensures Follows(Apply(s, a), t, due, filled)
  {
    OthersTouch(s, a, t);
    if s.threads[t].pc.Writing? { OthersLeaveBuffer(s, a, t, s.threads[t].pc.buffer); }
    if CurrentAt(s, t) { assert Mine(s, t, s.threads[t].current.value); }
    hide Inv, Enabled, Apply, Contains;
  }

  // ---------------------------------------------------------------- the thread's own steps

  /** The request and the bytes after one more step of the thread. */
  function NextDue(s: State, a: Action, t: ThreadId, due: Request): Request {
    if a.Ask? && a.t == t then Asked(s, t, a.size)
    else if a.Pop? && a.t == t then Request(due.size, Some(Taken(s, a.unused)), 0)
    else due
  }

  function NextFilled(a: Action, t: ThreadId, filled: map<nat, byte>): map<nat, byte> {
    if a.OpenBuffer? && a.t == t then map[] else if a.WriteByte? && a.t == t then filled[a.at := a.value] else filled
  }

  lemma RequestFollows(s: State, a: Action, t: ThreadId, due: Request, filled: map<nat, byte>)
    requires Inv(s) && Enabled(s, a) && By(a, t) && Follows(s, t, due, filled)
    requires a.Ask? || a.Pop? || a.Store? || a.Reset?
    ensures Follows(Apply(s, a), t, NextDue(s, a, t, due), NextFilled(a, t, filled))
  {
    assert ThreadOk(s.chunks, s.buffers, s.closed, s.threads[t]);
    hide Inv, Polite, Contains, Referenced;
  }

  lemma UseFollows(s: State, a: Action, t: ThreadId, due: Request, filled: map<nat, byte>)
    requires Inv(s) && Enabled(s, a) && By(a, t) && Follows(s, t, due, filled)
    requires a.OpenBuffer? || a.WriteByte?
    ensures Follows(Apply(s, a), t, NextDue(s, a, t, due), NextFilled(a, t, filled))
  {
    assert ThreadOk(s.chunks, s.buffers, s.closed, s.threads[t]);
    assert CurrentAt(s, t) ==> |s.chunks[s.threads[t].current.value].bytes| == CHUNK_SIZE;
    hide Inv, Polite, Referenced;
  }

  lemma CloseFollows(s: State, a: Action, t: ThreadId, due: Request, filled: map<nat, byte>)
    requires Inv(s) && Enabled(s, a) && Polite(s, a) && a.CloseBuffer? && a.t == t && Follows(s, t, due, filled)
    ensures Follows(Apply(s, a), t, NextDue(s, a, t, due), NextFilled(a, t, filled))
  {
    assert ThreadOk(s.chunks, s.buffers, s.closed, s.threads[t]);
    assert CurrentAt(s, t) ==> |s.chunks[s.threads[t].current.value].bytes| == CHUNK_SIZE;
    hide Inv, Contains, Referenced;
  }

  lemma StepFollows(s: State, a: Action, t: ThreadId, due: Request, filled: map<nat, byte>)
    requires Inv(s) && Enabled(s, a) && Polite(s, a) && Follows(s, t, due, filled)
    ensures Follows(Apply(s, a), t, NextDue(s, a, t, due), NextFilled(a, t, filled))
  {
    assert t in s.threads;
    hide Inv, Enabled, Polite, Apply, Follows, Asked, Taken;
    if !By(a, t) {
      OthersFollow(s, a, t, due, filled);
    } else if a.OpenBuffer? || a.WriteByte? {
      UseFollows(s, a, t, due, filled);
    } else if a.CloseBuffer? {
      CloseFollows(s, a, t, due, filled);
    } else {
      RequestFollows(s, a, t, due, filled);
    }
  }

  lemma SameThreads(s: State, a: Action, t: ThreadId)
    requires Enabled(s, a) && t in Apply(s, a).threads
    ensures t in s.threads
  {
    hide Referenced, Polite;
  }

  lemma FirstFollows(run: seq<State>, acts: seq<Action>, t: ThreadId, due: Request, filled: map<nat, byte>)
    requires IsTrace(run, acts) && t in run[0].threads
    ensures Follows(run[0], t, due, filled)
  {
    hide Enabled, Apply, Polite, Contains;
    assert run[0].threads[t] == Thread(None, Idle);
  }

  lemma OneMore(run: seq<State>, acts: seq<Action>, t: ThreadId, i: nat)
    requires i < |acts| < |run|
    ensures Due(run, acts, t, i + 1) == NextDue(run[i], acts[i], t, Due(run, acts, t, i))
    ensures Filled(acts, t, i + 1) == NextFilled(acts[i], t, Filled(acts, t, i))
  {
    hide Asked, Taken;
  }

  lemma {:induction false} AlwaysFollows(run: seq<State>, acts: seq<Action>, t: ThreadId, i: nat)
    requires IsTrace(run, acts) && i <= |acts| && t in run[i].threads
    ensures i < |run| && Follows(run[i], t, Due(run, acts, t, i), Filled(acts, t, i))
  {
    if i == 0 {
      hide *;
      TraceShape(run, acts);
      FirstFollows(run, acts, t, Due(run, acts, t, i), Filled(acts, t, i));
    } else {
      hide *;
      TraceStep(run, acts, i - 1);
      TraceInv(run, acts, i - 1);
      SameThreads(run[i - 1], acts[i - 1], t);
      AlwaysFollows(run, acts, t, i - 1);
      StepFollows(run[i - 1], acts[i - 1], t, Due(run, acts, t, i - 1), Filled(acts, t, i - 1));
      OneMore(run, acts, t, i - 1);
    }
  }

  // ---------------------------------------------------------------- the guarantees

  /** A request that its thread's chunk had room for is opened in that chunk, behind what was used of it
      when it was made; any other one at the start of the chunk popped last, or of a new one. */
  lemma OpensWhatIsDue(run: seq<State>, acts: seq<Action>, i: nat)
    requires IsTrace(run, acts) && i < |acts| && acts[i].OpenBuffer?
    ensures var t, b := acts[i].t, acts[i].unused; var due := Due(run, acts, t, i);
      && due.chunk.Some? && b in run[i + 1].buffers
      && run[i + 1].buffers[b] == Buffer(due.chunk.value, due.at, due.size, 0)
  {
    TraceStep(run, acts, i);
    TraceInv(run, acts, i);
    OpenedIs(run[i], acts[i]);
    AlwaysFollows(run, acts, acts[i].t, i + 1);
    hide IsTrace, Inv, Enabled, Apply, Polite, Contains, Asked, Taken;
  }

  lemma OpenedIs(s: State, a: Action)
    requires Inv(s) && Enabled(s, a) && a.OpenBuffer?
    ensures a.t in Apply(s, a).threads && Apply(s, a).threads[a.t].pc == Writing(a.unused)
  {
    assert ThreadOk(s.chunks, s.buffers, s.closed, s.threads[a.t]);
    hide Inv, Polite, Referenced;
  }

  /** Closing takes as much of the chunk as was written, behind which the next buffer starts, and what
      the buffer is closed with are the bytes its thread wrote last. */
  lemma ClosesWhatIsWritten(run: seq<State>, acts: seq<Action>, i: nat, b: BufferId)
    requires IsTrace(run, acts) && i < |acts| && acts[i].CloseBuffer? && Fills(run[i], acts[i].t, b)
    ensures var t, s', written := acts[i].t, run[i + 1], acts[i].written; var due, filled := Due(run, acts, t, i), Filled(acts, t, i);
      && due.chunk.Some? && due.chunk.value in s'.chunks && b in s'.buffers && b in s'.closed
      && s'.buffers[b] == Buffer(due.chunk.value, due.at, due.size, written)
      && !s'.chunks[due.chunk.value].open && s'.chunks[due.chunk.value].used == due.at + written
      && |s'.closed[b]| == written && forall x :: x in filled && x < written ==> s'.closed[b][x] == filled[x]
  {
    TraceStep(run, acts, i);
    TraceInv(run, acts, i);
    AlwaysFollows(run, acts, acts[i].t, i);
    hide IsTrace, Due, Filled;
    ClosedIs(run[i], acts[i], b, Due(run, acts, acts[i].t, i), Filled(acts, acts[i].t, i));
  }

  lemma ClosedIs(s: State, a: Action, b: BufferId, due: Request, filled: map<nat, byte>)
    requires Inv(s) && Enabled(s, a) && Polite(s, a) && a.CloseBuffer? && Fills(s, a.t, b) && Follows(s, a.t, due, filled)
    ensures var s' := Apply(s, a);
      && due.chunk.Some? && due.chunk.value in s'.chunks && b in s'.buffers && b in s'.closed
      && s'.buffers[b] == Buffer(due.chunk.value, due.at, due.size, a.written)
      && !s'.chunks[due.chunk.value].open && s'.chunks[due.chunk.value].used == due.at + a.written
      && |s'.closed[b]| == a.written && forall x :: x in filled && x < a.written ==> s'.closed[b][x] == filled[x]
  {
    assert ThreadOk(s.chunks, s.buffers, s.closed, s.threads[a.t]);
    assert |s.chunks[s.threads[a.t].current.value].bytes| == CHUNK_SIZE;
    hide Inv, Referenced;
  }
}
