/** The shared chunks behind the send buffers of `network/send_buffer.cpp`, for any number of threads:
    each thread fills the chunk in its `LSendBufferChunk`, buffers keep their chunk alive, and a chunk
    nobody refers to goes back to the manager's list.  One action is one access to shared state, one
    lock-protected section or one step on the thread's own chunk. */
module SendChunks {
  import opened Basics
  import opened Bytes

  type ThreadId = nat
  type ChunkId = nat
  type BufferId = nat

  const CHUNK_SIZE := 4096

  datatype Chunk = Chunk(bytes: seq<byte>, open: bool, used: nat)

  datatype Buffer = Buffer(chunk: ChunkId, at: nat, alloc: nat, written: nat)

  /** The point reached in `SendBufferManager::Open` and in the use of the buffer. */
  datatype Pc =
    | Idle
    | Popping(size: nat)                    // needs another chunk
    | Popped(chunk: ChunkId, size: nat)     // holds it, has not stored it in LSendBufferChunk yet
    | Resetting(size: nat)                  // stored it, about to reset it
    | Opening(size: nat)                    // about to open a buffer in LSendBufferChunk
    | Writing(buffer: BufferId)             // fills the open buffer

  datatype Thread = Thread(current: Option<ChunkId>, pc: Pc)

  /** What `Open` and `Close` can end in besides success. */
  datatype Trouble = NoTrouble | AssertFailed | NullBuffer

  /** `closed` is a history: the bytes of every buffer when it was closed.  Buffer ids are never
      used twice. */
  datatype State = State(chunks: map<ChunkId, Chunk>, idle: seq<ChunkId>, threads: map<ThreadId, Thread>,
                         buffers: map<BufferId, Buffer>, closed: map<BufferId, seq<byte>>, trouble: Trouble)

  datatype Action =
    | Ask(t: ThreadId, size: nat)
    | Pop(t: ThreadId, unused: ChunkId)
    | Store(t: ThreadId)
    | Reset(t: ThreadId)
    | OpenBuffer(t: ThreadId, unused: BufferId)
    | WriteByte(t: ThreadId, at: nat, value: byte)
    | CloseBuffer(t: ThreadId, written: nat)
    | ReleaseBuffer(b: BufferId)
    | ReturnChunk(c: ChunkId)

  function Free(c: Chunk): int { CHUNK_SIZE - c.used }

  predicate Owner(threads: map<ThreadId, Thread>, t: ThreadId, c: ChunkId) {
    t in threads && (threads[t].current == Some(c) || (threads[t].pc.Popped? && threads[t].pc.chunk == c))
  }

  predicate Refers(buffers: map<BufferId, Buffer>, b: BufferId, c: ChunkId) {
    b in buffers && buffers[b].chunk == c
  }

  /** Something still counts as a reference to the chunk. */
  ghost predicate Referenced(s: State, c: ChunkId) {
    (exists t: ThreadId :: Owner(s.threads, t, c)) || (exists b: BufferId :: Refers(s.buffers, b, c))
  }

  /** The caller writes only inside its buffer, and always closes it; a chunk whose last reference is
      gone is pushed to the list once. */
  ghost predicate Enabled(s: State, a: Action) {
    s.trouble == NoTrouble &&
    match a
    case Ask(t, size) => t in s.threads && s.threads[t].pc.Idle?
    case Pop(t, unused) => t in s.threads && s.threads[t].pc.Popping? && unused !in s.chunks
    case Store(t) => t in s.threads && s.threads[t].pc.Popped?
    case Reset(t) => CurrentAt(s, t) && s.threads[t].pc.Resetting?
    case OpenBuffer(t, unused) => CurrentAt(s, t) && s.threads[t].pc.Opening? && unused !in s.buffers && unused !in s.closed
    case WriteByte(t, at, _) => WritingAt(s, t) && at < s.buffers[s.threads[t].pc.buffer].alloc
    case CloseBuffer(t, _) => WritingAt(s, t)
    case ReleaseBuffer(b) => b in s.buffers && b in s.closed
    case ReturnChunk(c) => c in s.chunks && c !in s.idle && !Referenced(s, c)
  }

  predicate CurrentAt(s: State, t: ThreadId) {
    t in s.threads && s.threads[t].current.Some? && s.threads[t].current.value in s.chunks
  }

  predicate WritingAt(s: State, t: ThreadId) {
    && CurrentAt(s, t) && s.threads[t].pc.Writing? && s.threads[t].pc.buffer in s.buffers
    && s.buffers[s.threads[t].pc.buffer].chunk in s.chunks
  }

  function At(s: State, t: ThreadId, pc: Pc): State
    requires t in s.threads
  {
    s.(threads := s.threads[t := s.threads[t].(pc := pc)])
  }

  function SetChunk(s: State, c: ChunkId, chunk: Chunk): State {
    s.(chunks := s.chunks[c := chunk])
  }

  function AfterAsk(s: State, t: ThreadId, size: nat): State
    requires t in s.threads
  {
    var current := s.threads[t].current;
    if current.None? || current.value !in s.chunks then At(s, t, Popping(size))
    else
      var chunk := s.chunks[current.value];
      if chunk.open then s.(trouble := AssertFailed)
      else if Free(chunk) < size then At(s, t, Popping(size))
      else At(s, t, Opening(size))
  }

  function AfterPop(s: State, t: ThreadId, unused: ChunkId): State
    requires t in s.threads && s.threads[t].pc.Popping?
  {
    var size := s.threads[t].pc.size;
    if s.idle != [] then
      At(s.(idle := s.idle[..|s.idle| - 1]), t, Popped(s.idle[|s.idle| - 1], size))
    else
      At(SetChunk(s, unused, Chunk(seq(CHUNK_SIZE, _ => 0), false, 0)), t, Popped(unused, size))
  }

  function AfterStore(s: State, t: ThreadId): State
    requires t in s.threads && s.threads[t].pc.Popped?
  {
    s.(threads := s.threads[t := Thread(Some(s.threads[t].pc.chunk), Resetting(s.threads[t].pc.size))])
  }

  function AfterReset(s: State, t: ThreadId): State
    requires CurrentAt(s, t) && s.threads[t].pc.Resetting?
  {
    var c := s.threads[t].current.value;
    At(SetChunk(s, c, s.chunks[c].(open := false, used := 0)), t, Opening(s.threads[t].pc.size))
  }

  function AfterOpen(s: State, t: ThreadId, unused: BufferId): State
    requires CurrentAt(s, t) && s.threads[t].pc.Opening?
  {
    var c, size := s.threads[t].current.value, s.threads[t].pc.size;
    var chunk := s.chunks[c];
    if size > CHUNK_SIZE || chunk.open then s.(trouble := AssertFailed)
    else if size > Free(chunk) then s.(trouble := NullBuffer)
    else
      At(SetChunk(s, c, chunk.(open := true)).(buffers := s.buffers[unused := Buffer(c, chunk.used, size, 0)]), t, Writing(unused))
  }

  function AfterClose(s: State, t: ThreadId, written: nat): State
    requires WritingAt(s, t)
  {
    var b := s.threads[t].pc.buffer;
    var buffer := s.buffers[b];
    var chunk := s.chunks[buffer.chunk];
    if buffer.alloc < written || !chunk.open || buffer.at + written > |chunk.bytes| then s.(trouble := AssertFailed)
    else
      At(SetChunk(s, buffer.chunk, chunk.(open := false, used := chunk.used + written))
         .(buffers := s.buffers[b := buffer.(written := written)],
           closed := s.closed[b := chunk.bytes[buffer.at..buffer.at + written]]), t, Idle)
  }

  function AfterWrite(s: State, t: ThreadId, at: nat, value: byte): State
    requires WritingAt(s, t)
  {
    var buffer := s.buffers[s.threads[t].pc.buffer];
    var chunk := s.chunks[buffer.chunk];
    if buffer.at + at >= |chunk.bytes| then s
    else SetChunk(s, buffer.chunk, chunk.(bytes := chunk.bytes[buffer.at + at := value]))
  }

  ghost function Apply(s: State, a: Action): State
    requires Enabled(s, a)
  {
    match a
    case Ask(t, size) => AfterAsk(s, t, size)
    case Pop(t, unused) => AfterPop(s, t, unused)
    case Store(t) => AfterStore(s, t)
    case Reset(t) => AfterReset(s, t)
    case OpenBuffer(t, unused) => AfterOpen(s, t, unused)
    case WriteByte(t, at, value) => AfterWrite(s, t, at, value)
    case CloseBuffer(t, written) => AfterClose(s, t, written)
    case ReleaseBuffer(b) => s.(buffers := s.buffers - {b})
    case ReturnChunk(c) => s.(idle := s.idle + [c])
  }

  ghost predicate Init(s: State) {
    && s.chunks == map[] && s.idle == [] && s.buffers == map[] && s.closed == map[] && s.trouble == NoTrouble
    && forall t :: t in s.threads ==> s.threads[t] == Thread(None, Idle)
  }

  ghost predicate Next(s: State, s': State) {
    exists a: Action :: Enabled(s, a) && Polite(s, a) && s' == Apply(s, a)
  }

  /** Callers ask for at most a chunk and write at most what they asked for. */
  ghost predicate Polite(s: State, a: Action) {
    && (a.Ask? ==> a.size <= CHUNK_SIZE)
    && (a.CloseBuffer? && WritingAt(s, a.t) ==> a.written <= s.buffers[s.threads[a.t].pc.buffer].alloc)
  }

  ghost predicate IsRun(run: seq<State>) {
    && run != []
    && Init(run[0])
    && forall i :: 0 <= i < |run| - 1 ==> Next(run[i], run[i + 1])
  }

  // ---------------------------------------------------------------- the invariant

  ghost predicate ChunksOk(chunks: map<ChunkId, Chunk>, idle: seq<ChunkId>) {
    && (forall c: ChunkId :: c in chunks ==> |chunks[c].bytes| == CHUNK_SIZE && chunks[c].used <= CHUNK_SIZE)
    && (forall i :: 0 <= i < |idle| ==> idle[i] in chunks)
    && (forall i, j :: 0 <= i < j < |idle| ==> idle[i] != idle[j])
  }

  /** A chunk belongs to one thread at most, and the listed ones to none. */
  ghost predicate OwnersOk(known: set<ChunkId>, idle: seq<ChunkId>, threads: map<ThreadId, Thread>) {
    && (forall t: ThreadId, c: ChunkId :: Owner(threads, t, c) ==> c in known && c !in idle)
    && (forall t: ThreadId, u: ThreadId, c: ChunkId :: Owner(threads, t, c) && Owner(threads, u, c) ==> t == u)
    && (forall t: ThreadId :: t in threads && threads[t].pc.Popped? ==> threads[t].current != Some(threads[t].pc.chunk))
  }

  /** A live closed buffer still holds the bytes it was closed with, in front of what is being filled. */
  predicate InPlace(buffer: Buffer, chunk: Chunk, bytes: seq<byte>) {
    && buffer.at + buffer.written <= chunk.used <= |chunk.bytes|
    && chunk.bytes[buffer.at..buffer.at + buffer.written] == bytes
  }

  predicate Disjoint(x: Buffer, y: Buffer) {
    x.chunk != y.chunk || x.at + x.written <= y.at || y.at + y.written <= x.at
  }

  ghost predicate BuffersOk(chunks: map<ChunkId, Chunk>, idle: seq<ChunkId>, buffers: map<BufferId, Buffer>,
                            closed: map<BufferId, seq<byte>>) {
    && (forall b: BufferId :: b in buffers ==> buffers[b].chunk in chunks && buffers[b].chunk !in idle)
    && (forall b: BufferId :: b in buffers && b in closed ==>
          buffers[b].chunk in chunks && InPlace(buffers[b], chunks[buffers[b].chunk], closed[b]))
    && (forall b: BufferId, d: BufferId :: b in buffers && b in closed && d in buffers && d in closed && b != d ==>
          Disjoint(buffers[b], buffers[d]))
  }

  /** What a thread relies on, given the chunk it fills. */
  predicate ThreadOk(chunks: map<ChunkId, Chunk>, buffers: map<BufferId, Buffer>, closed: map<BufferId, seq<byte>>, th: Thread) {
    match th.pc
    case Idle => th.current.Some? ==> th.current.value in chunks && !chunks[th.current.value].open
    case Popping(size) => size <= CHUNK_SIZE
    case Popped(c, size) => size <= CHUNK_SIZE && c in chunks
    case Resetting(size) => size <= CHUNK_SIZE && th.current.Some? && th.current.value in chunks
    case Opening(size) =>
      th.current.Some? && th.current.value in chunks && size <= CHUNK_SIZE &&
      var chunk := chunks[th.current.value]; !chunk.open && size <= Free(chunk)
    case Writing(b) =>
      th.current.Some? && th.current.value in chunks && b in buffers && b !in closed && buffers[b].chunk == th.current.value &&
      var buffer, chunk := buffers[b], chunks[th.current.value];
      chunk.open && buffer.at == chunk.used && buffer.at + buffer.alloc <= CHUNK_SIZE
  }

  ghost predicate ThreadsOk(chunks: map<ChunkId, Chunk>, buffers: map<BufferId, Buffer>, closed: map<BufferId, seq<byte>>,
                            threads: map<ThreadId, Thread>) {
    forall t: ThreadId :: t in threads ==> ThreadOk(chunks, buffers, closed, threads[t])
  }

  /** No live buffer refers to a chunk that is about to be reset. */
  ghost predicate ResetsOk(threads: map<ThreadId, Thread>, buffers: map<BufferId, Buffer>) {
    forall t: ThreadId, c: ChunkId, b: BufferId :: Owner(threads, t, c) && Refers(buffers, b, c) ==>
      threads[t].current == Some(c) && !threads[t].pc.Resetting?
  }

  ghost predicate Inv(s: State) {
    && ChunksOk(s.chunks, s.idle) && OwnersOk(s.chunks.Keys, s.idle, s.threads)
    && BuffersOk(s.chunks, s.idle, s.buffers, s.closed) && ResetsOk(s.threads, s.buffers)
    && ThreadsOk(s.chunks, s.buffers, s.closed, s.threads)
    && s.trouble == NoTrouble
  }

  // ---------------------------------------------------------------- steps that keep it

  /** A step that changes no chunk reference of the thread. */
  lemma SamePlaces(s: State, t: ThreadId, pc: Pc)
    requires Inv(s) && t in s.threads && !pc.Popped? && !pc.Resetting? && !s.threads[t].pc.Popped?
    ensures var threads := s.threads[t := s.threads[t].(pc := pc)];
      OwnersOk(s.chunks.Keys, s.idle, threads) && ResetsOk(threads, s.buffers)
  {
    var threads := s.threads[t := s.threads[t].(pc := pc)];
    forall u: ThreadId, c: ChunkId ensures Owner(threads, u, c) == Owner(s.threads, u, c) {}
  }

  lemma AskStep(s: State, t: ThreadId, size: nat)
    requires Inv(s) && t in s.threads && s.threads[t].pc.Idle? && size <= CHUNK_SIZE
    ensures Inv(AfterAsk(s, t, size))
  {
    assert ThreadOk(s.chunks, s.buffers, s.closed, s.threads[t]);
    SamePlaces(s, t, Popping(size));
    SamePlaces(s, t, Opening(size));
    hide ChunksOk, OwnersOk, BuffersOk, ResetsOk;
  }

  /** Changing the chunk a thread fills is no other thread's business. */
  lemma ChunkStep(s: State, t: ThreadId, c: ChunkId, chunk: Chunk)
    requires Inv(s) && Owner(s.threads, t, c) && |chunk.bytes| == CHUNK_SIZE && chunk.used <= CHUNK_SIZE
    ensures ChunksOk(s.chunks[c := chunk], s.idle) && s.chunks[c := chunk].Keys == s.chunks.Keys
    ensures forall u: ThreadId :: u in s.threads && u != t ==> ThreadOk(s.chunks[c := chunk], s.buffers, s.closed, s.threads[u])
  {
    forall u: ThreadId | u in s.threads && u != t ensures ThreadOk(s.chunks[c := chunk], s.buffers, s.closed, s.threads[u]) {
      assert ThreadOk(s.chunks, s.buffers, s.closed, s.threads[u]) && !Owner(s.threads, u, c);
    }
  }

  lemma ChunkKeepsBuffers(s: State, c: ChunkId, chunk: Chunk)
    requires BuffersOk(s.chunks, s.idle, s.buffers, s.closed)
    requires forall b: BufferId :: b in s.buffers && s.buffers[b].chunk == c && b in s.closed ==> InPlace(s.buffers[b], chunk, s.closed[b])
    ensures BuffersOk(s.chunks[c := chunk], s.idle, s.buffers, s.closed)
  {}

  lemma ThreadsMerge(chunks: map<ChunkId, Chunk>, buffers: map<BufferId, Buffer>, closed: map<BufferId, seq<byte>>,
                     threads: map<ThreadId, Thread>, t: ThreadId, th: Thread)
    requires forall u: ThreadId :: u in threads && u != t ==> ThreadOk(chunks, buffers, closed, threads[u])
    requires ThreadOk(chunks, buffers, closed, th)
    ensures ThreadsOk(chunks, buffers, closed, threads[t := th])
  {}

  lemma ResetStep(s: State, t: ThreadId)
    requires Inv(s) && CurrentAt(s, t) && s.threads[t].pc.Resetting?
    ensures Inv(AfterReset(s, t))
  {
    var c, size := s.threads[t].current.value, s.threads[t].pc.size;
    var chunk := s.chunks[c].(open := false, used := 0);
    assert ThreadOk(s.chunks, s.buffers, s.closed, s.threads[t]);
    assert Owner(s.threads, t, c);
    assert forall b: BufferId :: !Refers(s.buffers, b, c);
    ChunkStep(s, t, c, chunk);
    ChunkKeepsBuffers(s, c, chunk) by { assert forall b: BufferId :: b in s.buffers ==> (Refers(s.buffers, b, c) <==> s.buffers[b].chunk == c); }
    SamePlaces(s, t, Opening(size));
    hide OwnersOk, ChunksOk, BuffersOk, ResetsOk;
    ThreadsMerge(s.chunks[c := chunk], s.buffers, s.closed, s.threads, t, s.threads[t].(pc := Opening(size)));
  }

  /** A thread takes a chunk nobody owns. */
  lemma TakeChunk(known: set<ChunkId>, idle: seq<ChunkId>, idle': seq<ChunkId>, threads: map<ThreadId, Thread>, t: ThreadId,
                  c: ChunkId, size: nat)
    requires OwnersOk(known, idle, threads) && t in threads && !threads[t].pc.Popped?
    requires (forall d: ChunkId :: d in idle' ==> d in idle) && c !in idle' && forall u: ThreadId :: !Owner(threads, u, c)
    ensures OwnersOk(known + {c}, idle', threads[t := threads[t].(pc := Popped(c, size))])
  {
    var threads' := threads[t := threads[t].(pc := Popped(c, size))];
    forall u: ThreadId, d: ChunkId ensures Owner(threads', u, d) == (Owner(threads, u, d) || (u == t && d == c)) {}
    assert !Owner(threads, t, c);
  }

  /** No live buffer refers to a chunk that has just been taken. */
  lemma TakenIsUnused(s: State, t: ThreadId, c: ChunkId, size: nat)
    requires ResetsOk(s.threads, s.buffers) && t in s.threads && !s.threads[t].pc.Popped?
    requires forall b: BufferId :: !Refers(s.buffers, b, c)
    ensures ResetsOk(s.threads[t := s.threads[t].(pc := Popped(c, size))], s.buffers)
  {
    var threads' := s.threads[t := s.threads[t].(pc := Popped(c, size))];
    forall u: ThreadId, d: ChunkId ensures Owner(threads', u, d) ==> Owner(s.threads, u, d) || d == c {}
  }

  lemma PopListedStep(s: State, t: ThreadId, unused: ChunkId)
    requires Inv(s) && t in s.threads && s.threads[t].pc.Popping? && s.idle != []
    ensures Inv(AfterPop(s, t, unused))
  {
    var s' := AfterPop(s, t, unused);
    var c := s.idle[|s.idle| - 1];
    assert ThreadOk(s.chunks, s.buffers, s.closed, s.threads[t]);
    assert c in s.idle && c !in s'.idle && s.chunks.Keys + {c} == s.chunks.Keys;
    assert forall d: ChunkId :: d in s'.idle ==> d in s.idle;
    TakeChunk(s.chunks.Keys, s.idle, s'.idle, s.threads, t, c, s.threads[t].pc.size);
    TakenIsUnused(s, t, c, s.threads[t].pc.size);
    hide InPlace, OwnersOk, ResetsOk;
    ThreadsMerge(s.chunks, s.buffers, s.closed, s.threads, t, s'.threads[t]);
  }

  lemma PopNewStep(s: State, t: ThreadId, unused: ChunkId)
    requires Inv(s) && t in s.threads && s.threads[t].pc.Popping? && s.idle == [] && unused !in s.chunks
    ensures Inv(AfterPop(s, t, unused))
  {
    var s' := AfterPop(s, t, unused);
    assert ThreadOk(s.chunks, s.buffers, s.closed, s.threads[t]);
    assert s'.chunks.Keys == s.chunks.Keys + {unused};
    TakeChunk(s.chunks.Keys, s.idle, s'.idle, s.threads, t, unused, s.threads[t].pc.size);
    TakenIsUnused(s, t, unused, s.threads[t].pc.size);
    hide InPlace, OwnersOk, ResetsOk;
    forall u: ThreadId | u in s.threads && u != t ensures ThreadOk(s'.chunks, s.buffers, s.closed, s.threads[u]) {
      assert ThreadOk(s.chunks, s.buffers, s.closed, s.threads[u]);
    }
    ThreadsMerge(s'.chunks, s.buffers, s.closed, s.threads, t, s'.threads[t]);
  }

  lemma StoreStep(s: State, t: ThreadId)
    requires Inv(s) && t in s.threads && s.threads[t].pc.Popped?
    ensures Inv(AfterStore(s, t))
  {
    var s' := AfterStore(s, t);
    var c := s.threads[t].pc.chunk;
    assert ThreadOk(s.chunks, s.buffers, s.closed, s.threads[t]);
    assert Owner(s.threads, t, c) && s.threads[t].current != Some(c);
    forall u: ThreadId, d: ChunkId ensures Owner(s'.threads, u, d) ==> Owner(s.threads, u, d) && (u == t ==> d == c) {}
    hide InPlace, BuffersOk, ChunksOk;
    ThreadsMerge(s.chunks, s.buffers, s.closed, s.threads, t, s'.threads[t]);
  }

  lemma OpenStep(s: State, t: ThreadId, unused: BufferId)
    requires Inv(s) && CurrentAt(s, t) && s.threads[t].pc.Opening? && unused !in s.buffers && unused !in s.closed
    ensures Inv(AfterOpen(s, t, unused)) && AfterOpen(s, t, unused).trouble == NoTrouble
  {
    var c, size := s.threads[t].current.value, s.threads[t].pc.size;
    var chunk := s.chunks[c].(open := true);
    var s' := AfterOpen(s, t, unused);
    assert ThreadOk(s.chunks, s.buffers, s.closed, s.threads[t]) && Owner(s.threads, t, c);
    ChunkStep(s, t, c, chunk);
    ChunkKeepsBuffers(s, c, chunk);
    SamePlaces(s, t, Writing(unused));
    AddBuffer(s'.chunks, s.idle, s.buffers, s.closed, unused, s'.buffers[unused]);
    NewReference(s, t, s'.threads, unused, s'.buffers[unused]);
    hide InPlace, BuffersOk, ChunksOk, OwnersOk, ResetsOk;
    forall u: ThreadId | u in s.threads && u != t ensures ThreadOk(s'.chunks, s'.buffers, s.closed, s.threads[u]) {
      assert ThreadOk(s'.chunks, s.buffers, s.closed, s.threads[u]);
    }
    ThreadsMerge(s'.chunks, s'.buffers, s.closed, s.threads, t, s'.threads[t]);
  }

  lemma AddBuffer(chunks: map<ChunkId, Chunk>, idle: seq<ChunkId>, buffers: map<BufferId, Buffer>, closed: map<BufferId, seq<byte>>,
                  b: BufferId, buffer: Buffer)
    requires BuffersOk(chunks, idle, buffers, closed) && b !in closed && buffer.chunk in chunks && buffer.chunk !in idle
    ensures BuffersOk(chunks, idle, buffers[b := buffer], closed)
  {}

  lemma NewReference(s: State, t: ThreadId, threads: map<ThreadId, Thread>, b: BufferId, buffer: Buffer)
    requires Inv(s) && t in s.threads && s.threads[t].current == Some(buffer.chunk) && !s.threads[t].pc.Popped?
    requires threads == s.threads[t := s.threads[t].(pc := Writing(b))]
    ensures ResetsOk(threads, s.buffers[b := buffer])
  {
    assert Owner(s.threads, t, buffer.chunk);
    forall u: ThreadId, d: ChunkId ensures Owner(threads, u, d) == Owner(s.threads, u, d) {}
    var buffers := s.buffers[b := buffer];
    forall u: ThreadId, d: ChunkId, e: BufferId | Owner(threads, u, d) && Refers(buffers, e, d)
      ensures threads[u].current == Some(d) && !threads[u].pc.Resetting?
    {
      if e != b { assert Refers(s.buffers, e, d) && Owner(s.threads, u, d); } else { assert u == t; }
    }
  }

  lemma WriteStep(s: State, t: ThreadId, at: nat, value: byte)
    requires Inv(s) && WritingAt(s, t) && at < s.buffers[s.threads[t].pc.buffer].alloc
    ensures Inv(AfterWrite(s, t, at, value))
  {
    var buffer := s.buffers[s.threads[t].pc.buffer];
    var c := buffer.chunk;
    var s' := AfterWrite(s, t, at, value);
    assert ThreadOk(s.chunks, s.buffers, s.closed, s.threads[t]) && Owner(s.threads, t, c);
    ChunkStep(s, t, c, s'.chunks[c]);
    ChunkKeepsBuffers(s, c, s'.chunks[c]);
    hide InPlace, BuffersOk, ChunksOk, OwnersOk, ResetsOk;
    ThreadsMerge(s'.chunks, s.buffers, s.closed, s.threads, t, s.threads[t]);
    assert s.threads[t := s.threads[t]] == s.threads;
  }

  /** The closed buffer lies behind all others of its chunk. */
  lemma ClosedBehind(s: State, t: ThreadId, written: nat)
    requires Inv(s) && WritingAt(s, t) && written <= s.buffers[s.threads[t].pc.buffer].alloc
    ensures var s' := AfterClose(s, t, written); BuffersOk(s'.chunks, s'.idle, s'.buffers, s'.closed)
  {
    var b := s.threads[t].pc.buffer;
    var c := s.buffers[b].chunk;
    var s' := AfterClose(s, t, written);
    hide ResetsOk, OwnersOk;
    assert ThreadOk(s.chunks, s.buffers, s.closed, s.threads[t]);
    ChunkKeepsBuffers(s, c, s'.chunks[c]);
    assert forall d: BufferId :: d in s.buffers && d in s.closed ==> Disjoint(s.buffers[d], s'.buffers[b]);
    CloseBufferOk(s'.chunks, s.idle, s.buffers, s.closed, b, s'.buffers[b], s'.closed[b]);
  }

  lemma CloseStep(s: State, t: ThreadId, written: nat)
    requires Inv(s) && WritingAt(s, t) && written <= s.buffers[s.threads[t].pc.buffer].alloc
    ensures Inv(AfterClose(s, t, written)) && AfterClose(s, t, written).trouble == NoTrouble
  {
    var c := s.buffers[s.threads[t].pc.buffer].chunk;
    var s' := AfterClose(s, t, written);
    hide BuffersOk, InPlace;
    ClosedBehind(s, t, written);
    assert ThreadOk(s.chunks, s.buffers, s.closed, s.threads[t]) && Owner(s.threads, t, c);
    ChunkStep(s, t, c, s'.chunks[c]);
    SamePlaces(s, t, Idle);
    forall e: BufferId, d: ChunkId ensures Refers(s'.buffers, e, d) == Refers(s.buffers, e, d) {}
    hide ChunksOk, OwnersOk;
    forall u: ThreadId | u in s.threads && u != t ensures ThreadOk(s'.chunks, s'.buffers, s'.closed, s.threads[u]) {
      assert ThreadOk(s'.chunks, s.buffers, s.closed, s.threads[u]) && !Owner(s.threads, u, c);
    }
    ThreadsMerge(s'.chunks, s'.buffers, s'.closed, s.threads, t, s'.threads[t]);
  }

  lemma CloseBufferOk(chunks: map<ChunkId, Chunk>, idle: seq<ChunkId>, buffers: map<BufferId, Buffer>, closed: map<BufferId, seq<byte>>,
                      b: BufferId, buffer: Buffer, bytes: seq<byte>)
    requires BuffersOk(chunks, idle, buffers, closed) && b in buffers && b !in closed && buffer.chunk == buffers[b].chunk
    requires InPlace(buffer, chunks[buffer.chunk], bytes)
    requires forall d: BufferId :: d in buffers && d in closed ==> Disjoint(buffers[d], buffer)
    ensures BuffersOk(chunks, idle, buffers[b := buffer], closed[b := bytes])
  {}

  lemma ReleaseStep(s: State, b: BufferId)
    requires Inv(s) && b in s.buffers && b in s.closed
    ensures Inv(s.(buffers := s.buffers - {b}))
  {
    var buffers := s.buffers - {b};
    forall t: ThreadId | t in s.threads ensures ThreadOk(s.chunks, buffers, s.closed, s.threads[t]) {
      assert ThreadOk(s.chunks, s.buffers, s.closed, s.threads[t]);
    }
    assert forall d: BufferId, c: ChunkId :: Refers(buffers, d, c) ==> Refers(s.buffers, d, c);
  }

  lemma ReturnStep(s: State, c: ChunkId)
    requires Inv(s) && c in s.chunks && c !in s.idle && !Referenced(s, c)
    ensures Inv(s.(idle := s.idle + [c]))
  {
    var idle := s.idle + [c];
    forall t: ThreadId, d: ChunkId | Owner(s.threads, t, d) ensures d in s.chunks.Keys && d !in idle {}
    forall b: BufferId | b in s.buffers ensures s.buffers[b].chunk in s.chunks && s.buffers[b].chunk !in idle {
      assert Refers(s.buffers, b, s.buffers[b].chunk);
    }
    forall i, j | 0 <= i < j < |idle| ensures idle[i] != idle[j] {
      if j == |s.idle| { assert idle[i] in s.idle; }
    }
    hide ThreadOk, InPlace;
  }

  lemma InvStep(s: State, a: Action)
    requires Inv(s) && Enabled(s, a) && Polite(s, a)
    ensures Inv(Apply(s, a))
  {
    hide Inv;
    match a
    case Ask(t, size) => AskStep(s, t, size);
    case Pop(t, unused) => if s.idle != [] { PopListedStep(s, t, unused); } else { PopNewStep(s, t, unused); }
    case Store(t) => StoreStep(s, t);
    case Reset(t) => ResetStep(s, t);
    case OpenBuffer(t, unused) => OpenStep(s, t, unused);
    case WriteByte(t, at, value) => WriteStep(s, t, at, value);
    case CloseBuffer(t, written) => CloseStep(s, t, written);
    case ReleaseBuffer(b) => ReleaseStep(s, b);
    case ReturnChunk(c) => ReturnStep(s, c);
  }

  lemma StepOf(run: seq<State>, i: nat) returns (a: Action)
    requires IsRun(run) && i < |run| - 1
    ensures Enabled(run[i], a) && Polite(run[i], a) && run[i + 1] == Apply(run[i], a)
  {
    hide Apply, Enabled, Polite, Init;
    assert Next(run[i], run[i + 1]);
    a :| Enabled(run[i], a) && Polite(run[i], a) && run[i + 1] == Apply(run[i], a);
  }

  lemma {:induction false} InvAlways(run: seq<State>, i: nat)
    requires IsRun(run) && i < |run|
    ensures Inv(run[i])
  {
    if i > 0 {
      hide *;
      InvAlways(run, i - 1);
      var a := StepOf(run, i - 1);
      InvStep(run[i - 1], a);
    } else {
      assert run[i] == run[0];
    }
  }

  // ---------------------------------------------------------------- the guarantees

  /** Closed buffers that are still referenced lie inside their chunks, never overlap, and hold the
      bytes they were closed with. */
  lemma ClosedBuffersAreStable(run: seq<State>, i: nat, b: BufferId, d: BufferId)
    requires IsRun(run) && i < |run| && b in run[i].buffers && b in run[i].closed
    ensures var s := run[i]; var buffer := s.buffers[b];
      && buffer.chunk in s.chunks && buffer.at + buffer.written <= CHUNK_SIZE == |s.chunks[buffer.chunk].bytes|
      && s.chunks[buffer.chunk].bytes[buffer.at..buffer.at + buffer.written] == s.closed[b]
    ensures d in run[i].buffers && d in run[i].closed && d != b ==> Disjoint(run[i].buffers[b], run[i].buffers[d])
  {
    InvAlways(run, i);
  }

  lemma ClosedKept(s: State, a: Action, b: BufferId)
    requires Inv(s) && Enabled(s, a) && b in s.closed
    ensures b in Apply(s, a).closed && Apply(s, a).closed[b] == s.closed[b]
  {
    hide ChunksOk, OwnersOk, BuffersOk, ResetsOk, Polite, Referenced;
    if a.CloseBuffer? {
      assert ThreadOk(s.chunks, s.buffers, s.closed, s.threads[a.t]);
    }
  }

  /** What a buffer was closed with is never rewritten. */
  lemma {:induction false} ClosedOnce(run: seq<State>, i: nat, j: nat, b: BufferId)
    requires IsRun(run) && i <= j < |run| && b in run[i].closed
    ensures b in run[j].closed && run[j].closed[b] == run[i].closed[b]
    decreases j - i
  {
    hide *;
    if i < j {
      ClosedOnce(run, i, j - 1, b);
      InvAlways(run, j - 1);
      var a := StepOf(run, j - 1);
      ClosedKept(run[j - 1], a, b);
    }
  }

  /** So from its closing on, for as long as it is referenced, the bytes of a buffer never change. */
  lemma BytesNeverChange(run: seq<State>, i: nat, j: nat, b: BufferId)
    requires IsRun(run) && i <= j < |run| && b in run[i].buffers && b in run[i].closed && b in run[j].buffers
    ensures b in run[j].closed && run[i].closed[b] == run[j].closed[b]
    ensures var x, y := run[i].buffers[b], run[j].buffers[b];
      && x.chunk in run[i].chunks && x.at + x.written <= |run[i].chunks[x.chunk].bytes|
      && y.chunk in run[j].chunks && y.at + y.written <= |run[j].chunks[y.chunk].bytes|
      && run[i].chunks[x.chunk].bytes[x.at..x.at + x.written] == run[j].chunks[y.chunk].bytes[y.at..y.at + y.written]
  {
    ClosedOnce(run, i, j, b);
    ClosedBuffersAreStable(run, i, b, b);
    ClosedBuffersAreStable(run, j, b, b);
  }

  /** A chunk is reset only when no live buffer refers to it and no other thread can reach it. */
  lemma ResetIsAlone(run: seq<State>, i: nat, t: ThreadId)
    requires IsRun(run) && i < |run| && t in run[i].threads && run[i].threads[t].pc.Resetting?
    ensures var s := run[i]; s.threads[t].current.Some? && var c := s.threads[t].current.value;
      && c in s.chunks && c !in s.idle
      && (forall b: BufferId :: !Refers(s.buffers, b, c))
      && (forall u: ThreadId :: Owner(s.threads, u, c) ==> u == t)
  {
    InvAlways(run, i);
    var s := run[i];
    assert ThreadOk(s.chunks, s.buffers, s.closed, s.threads[t]);
    assert Owner(s.threads, t, s.threads[t].current.value);
  }

  /** For callers that ask for at most a chunk, `Open` never returns null and no assertion of the
      chunk or of the buffer fails. */
  lemma OpenNeverFails(run: seq<State>, i: nat)
    requires IsRun(run) && i < |run|
    ensures run[i].trouble == NoTrouble
    ensures forall a: Action :: Enabled(run[i], a) && Polite(run[i], a) ==> Apply(run[i], a).trouble == NoTrouble
  {
    InvAlways(run, i);
    forall a: Action | Enabled(run[i], a) && Polite(run[i], a) ensures Apply(run[i], a).trouble == NoTrouble {
      InvStep(run[i], a);
    }
  }
}
