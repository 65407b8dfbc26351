/** The pools of `memory/memory_pool.cpp` as any number of threads use them at the same time.  One action
    is one interlocked list operation, one atomic addition or one access to a block's header. */
module MemoryPools {
  import opened MemoryManagers

  type ThreadId = nat
  type PoolId = nat             // the size of the pool's blocks

  /** `free` is the interlocked list. */
  datatype FreeList = FreeList(free: seq<Block>, useCount: int, reserveCount: int)

  /** Where a thread stands inside `Allocate` for `n` bytes, or inside `Release`. */
  datatype Pc =
    | Outside
    | Popping(p: PoolId, n: nat)
    | Missing(p: PoolId, n: nat)                // the list was empty
    | Taken(p: PoolId, n: nat, b: Block)        // has a kept block, which is still counted as kept
    | Adding(p: PoolId, n: nat, b: Block)       // has a block, which is not counted as used yet
    | Stamping(p: PoolId, n: nat, b: Block)
    | Clearing(p: PoolId, b: Block)
    | Linking(p: PoolId, b: Block)
    | Subtracting(p: PoolId)                    // the block is on the list and still counted as used
    | Returning(p: PoolId)                      // and not counted as kept yet

  /** `lent` and `origin` are histories: the blocks in use, and the pool that created each block. */
  datatype State = State(pools: map<PoolId, FreeList>, headers: map<Block, nat>, threads: map<ThreadId, Pc>,
                         lent: set<Block>, origin: map<Block, PoolId>)

  datatype Action =
    | Request(t: ThreadId, n: nat)
    | PopList(t: ThreadId)
    | Create(t: ThreadId, b: Block, garbage: nat)
    | SubReserve(t: ThreadId)
    | AddUse(t: ThreadId)
    | Stamp(t: ThreadId)
    | Release(t: ThreadId, b: Block)
    | Clear(t: ThreadId)
    | Link(t: ThreadId)
    | SubUse(t: ThreadId)
    | AddReserve(t: ThreadId)

  /** The state's pools are one for each class. */
  predicate HasPools(s: State) {
    forall n :: 0 <= n <= MAX_ALLOC_SIZE ==> ClassOf(n) in s.pools
  }

  predicate Knows(s: State, pc: Pc) {
    !pc.Outside? ==> pc.p in s.pools
  }

  predicate Enabled(s: State, a: Action) {
    a.t in s.threads &&
    var pc := s.threads[a.t];
    Knows(s, pc) &&
    match a
    case Request(_, n) => pc.Outside? && 0 < n <= MAX_ALLOC_SIZE && ClassOf(n) in s.pools
    case PopList(_) => pc.Popping?
    case Create(_, b, _) => pc.Missing? && b !in s.origin
    case SubReserve(_) => pc.Taken?
    case AddUse(_) => pc.Adding?
    case Stamp(_) => pc.Stamping?
    case Release(_, b) => pc.Outside? && b in s.lent && b in s.headers && s.headers[b] <= MAX_ALLOC_SIZE && ClassOf(s.headers[b]) in s.pools
    case Clear(_) => pc.Clearing?
    case Link(_) => pc.Linking?
    case SubUse(_) => pc.Subtracting?
    case AddReserve(_) => pc.Returning?
  }

  function WithPool(s: State, p: PoolId, pool: FreeList, t: ThreadId, pc: Pc): State {
    s.(pools := s.pools[p := pool], threads := s.threads[t := pc])
  }

  function Apply(s: State, a: Action): State
    requires Enabled(s, a)
  {
    var t := a.t;
    var pc := s.threads[t];
    match a
    case Request(_, n) => s.(threads := s.threads[t := Popping(ClassOf(n), n)])
    case PopList(_) =>
      var pool := s.pools[pc.p];
      if pool.free == [] then s.(threads := s.threads[t := Missing(pc.p, pc.n)])
      else WithPool(s, pc.p, pool.(free := pool.free[1..]), t, Taken(pc.p, pc.n, pool.free[0]))
    case Create(_, b, garbage) =>
      s.(threads := s.threads[t := Adding(pc.p, pc.n, b)], headers := s.headers[b := garbage], origin := s.origin[b := pc.p])
    case SubReserve(_) =>
      var pool := s.pools[pc.p];
      WithPool(s, pc.p, pool.(reserveCount := pool.reserveCount - 1), t, Adding(pc.p, pc.n, pc.b))
    case AddUse(_) =>
      var pool := s.pools[pc.p];
      WithPool(s, pc.p, pool.(useCount := pool.useCount + 1), t, Stamping(pc.p, pc.n, pc.b))
    case Stamp(_) =>
      s.(threads := s.threads[t := Outside], headers := s.headers[pc.b := pc.n], lent := s.lent + {pc.b})
    case Release(_, b) =>
      s.(threads := s.threads[t := Clearing(ClassOf(s.headers[b]), b)], lent := s.lent - {b})
    case Clear(_) =>
      s.(threads := s.threads[t := Linking(pc.p, pc.b)], headers := s.headers[pc.b := 0])
    case Link(_) =>
      var pool := s.pools[pc.p];
      WithPool(s, pc.p, pool.(free := [pc.b] + pool.free), t, Subtracting(pc.p))
    case SubUse(_) =>
      var pool := s.pools[pc.p];
      WithPool(s, pc.p, pool.(useCount := pool.useCount - 1), t, Returning(pc.p))
    case AddReserve(_) =>
      var pool := s.pools[pc.p];
      WithPool(s, pc.p, pool.(reserveCount := pool.reserveCount + 1), t, Outside)
  }

  ghost predicate Init(s: State) {
    && HasPools(s)
    && (forall p :: p in s.pools ==> s.pools[p] == FreeList([], 0, 0))
    && s.headers == map[] && s.lent == {} && s.origin == map[]
    && (forall t: ThreadId :: t in s.threads ==> s.threads[t].Outside?)
  }

  ghost predicate Next(s: State, s': State) {
    exists a: Action :: Enabled(s, a) && s' == Apply(s, a)
  }

  ghost predicate IsRun(run: seq<State>) {
    && run != []
    && Init(run[0])
    && forall i :: 0 <= i < |run| - 1 ==> Next(run[i], run[i + 1])
  }

  // ---------------------------------------------------------------- places of a block

  predicate Holds(s: State, t: ThreadId, b: Block) {
    t in s.threads && !s.threads[t].Outside? && !s.threads[t].Popping? && !s.threads[t].Missing?
    && !s.threads[t].Subtracting? && !s.threads[t].Returning? && s.threads[t].b == b
  }

  predicate Kept(s: State, p: PoolId, b: Block) {
    p in s.pools && b in s.pools[p].free
  }

  datatype Place = InUse | With(t: ThreadId) | OnList(p: PoolId)

  predicate At(s: State, b: Block, place: Place) {
    match place
    case InUse => b in s.lent
    case With(t) => Holds(s, t, b)
    case OnList(p) => Kept(s, p, b)
  }

  /** Every block that was created is in exactly one place, and nothing else is anywhere. */
  ghost predicate OnePlace(s: State) {
    && (forall b: Block, x, y :: At(s, b, x) && At(s, b, y) ==> x == y)
    && (forall b: Block, x :: At(s, b, x) ==> b in s.origin && b in s.headers)
    && (forall b :: b in s.origin ==> exists x :: At(s, b, x))
    && (forall p :: p in s.pools ==> NoRepeats(s.pools[p].free))
  }

  predicate NoRepeats(free: seq<Block>) {
    forall i, j :: 0 <= i < j < |free| ==> free[i] != free[j]
  }

  predicate OfClass(s: State, b: Block, n: nat) {
    b in s.origin && 0 < n <= MAX_ALLOC_SIZE && ClassOf(n) == s.origin[b]
  }

  predicate PcOk(s: State, pc: Pc) {
    && Knows(s, pc)
    && (pc.Popping? || pc.Missing? ==> 0 < pc.n <= MAX_ALLOC_SIZE && ClassOf(pc.n) == pc.p)
    && (pc.Taken? || pc.Adding? || pc.Stamping? ==> OfClass(s, pc.b, pc.n) && s.origin[pc.b] == pc.p)
    && (pc.Taken? ==> pc.b in s.headers && s.headers[pc.b] == 0)
    && (pc.Clearing? ==> pc.b in s.headers && OfClass(s, pc.b, s.headers[pc.b]))
    && (pc.Clearing? || pc.Linking? ==> pc.b in s.origin && s.origin[pc.b] == pc.p)
    && (pc.Linking? ==> pc.b in s.headers && s.headers[pc.b] == 0)
  }

  /** Blocks in use carry their size, kept ones carry zero, and both belong to the pool of their class. */
  ghost predicate Stamped(s: State) {
    && HasPools(s)
    && (forall t: ThreadId :: t in s.threads ==> PcOk(s, s.threads[t]))
    && (forall b :: b in s.lent ==> b in s.headers && OfClass(s, b, s.headers[b]))
    && (forall p: PoolId, b: Block :: Kept(s, p, b) ==> b in s.headers && s.headers[b] == 0 && b in s.origin && s.origin[b] == p)
  }

  // ---------------------------------------------------------------- the counters

  function LentFrom(s: State, p: PoolId): set<Block> {
    set b | b in s.lent && b in s.origin && s.origin[b] == p
  }

  /** Threads whose block is counted as used without being in use. */
  function Users(s: State, p: PoolId): set<ThreadId> {
    set t: ThreadId | t in s.threads && UserOf(s.threads[t], p)
  }

  predicate UserOf(pc: Pc, p: PoolId) {
    (pc.Stamping? || pc.Clearing? || pc.Linking? || pc.Subtracting?) && pc.p == p
  }

  /** Threads whose block is on the list without being counted as kept. */
  function Late(s: State, p: PoolId): set<ThreadId> {
    set t: ThreadId | t in s.threads && (s.threads[t].Subtracting? || s.threads[t].Returning?) && s.threads[t].p == p
  }

  /** Threads that have taken a block off the list that is still counted as kept. */
  function Early(s: State, p: PoolId): set<ThreadId> {
    set t: ThreadId | t in s.threads && s.threads[t].Taken? && s.threads[t].p == p
  }

  predicate Counted(s: State, p: PoolId)
    requires p in s.pools
  {
    && s.pools[p].useCount == |LentFrom(s, p)| + |Users(s, p)|
    && s.pools[p].reserveCount == |s.pools[p].free| + |Early(s, p)| - |Late(s, p)|
  }

  ghost predicate Inv(s: State) {
    Stamped(s) && OnePlace(s) && forall p :: p in s.pools ==> Counted(s, p)
  }

  lemma OneMoves<X>(was: set<X>, now: set<X>, x: X)
    requires now - {x} == was - {x}
    ensures |now| + (if x in was then 1 else 0) == |was| + (if x in now then 1 else 0)
  {
    assert x in was ==> was == (was - {x}) + {x};
    assert x in now ==> now == (now - {x}) + {x};
    assert x !in was ==> was - {x} == was;
    assert x !in now ==> now - {x} == now;
  }

  // ---------------------------------------------------------------- one step: places

  /** Nothing changes its place. */
  lemma StaysInPlace(s: State, s': State)
    requires OnePlace(s) && s'.origin == s.origin && s'.headers.Keys == s.headers.Keys
    requires forall b: Block, x :: At(s', b, x) <==> At(s, b, x)
    requires forall p :: p in s'.pools ==> NoRepeats(s'.pools[p].free)
    ensures OnePlace(s')
  {
    hide At, NoRepeats;
  }

  /** One block goes from one place to another. */
  lemma MovesPlace(s: State, s': State, b: Block, from: Place, to: Place)
    requires OnePlace(s) && s'.origin == s.origin && s'.headers.Keys == s.headers.Keys && At(s, b, from)
    requires forall c: Block, x :: At(s', c, x) <==> if c == b then x == to else At(s, c, x)
    requires forall p :: p in s'.pools ==> NoRepeats(s'.pools[p].free)
    ensures OnePlace(s')
  {
    hide At, NoRepeats;
    assert At(s', b, to);
    forall c | c in s'.origin ensures exists x :: At(s', c, x) {
      if c != b {
        var x :| At(s, c, x);
        assert At(s', c, x);
      }
    }
  }

  /** A new block comes to a place. */
  lemma ComesToPlace(s: State, s': State, b: Block, to: Place)
    requires OnePlace(s) && b !in s.origin && s'.origin.Keys == s.origin.Keys + {b} && s'.headers.Keys == s.headers.Keys + {b}
    requires forall c: Block, x :: At(s', c, x) <==> if c == b then x == to else At(s, c, x)
    requires s'.pools == s.pools
    ensures OnePlace(s')
  {
    hide At, NoRepeats;
    assert At(s', b, to);
    forall c | c in s'.origin ensures exists x :: At(s', c, x) {
      if c != b {
        var x :| At(s, c, x);
        assert At(s', c, x);
      }
    }
  }

  lemma QuietPlaces(s: State, a: Action)
    requires Enabled(s, a) && OnePlace(s)
    requires a.Request? || a.SubReserve? || a.AddUse? || a.Clear? || a.SubUse? || a.AddReserve?
      || (a.PopList? && s.pools[s.threads[a.t].p].free == [])
    requires a.Clear? ==> s.threads[a.t].b in s.headers
    ensures OnePlace(Apply(s, a))
  {
    var s' := Apply(s, a);
    forall b: Block, x ensures At(s', b, x) <==> At(s, b, x) {}
    StaysInPlace(s, s');
  }

  lemma PopPlaces(s: State, a: Action)
    requires Enabled(s, a) && OnePlace(s) && a.PopList? && s.pools[s.threads[a.t].p].free != []
    ensures OnePlace(Apply(s, a))
  {
    var s', p := Apply(s, a), s.threads[a.t].p;
    var b := s.pools[p].free[0];
    assert At(s, b, OnList(p));
    forall c: Block, x ensures At(s', c, x) <==> if c == b then x == With(a.t) else At(s, c, x) {
      if c == b {
        assert At(s, c, x) ==> x == OnList(p);
      }
    }
    MovesPlace(s, s', b, OnList(p), With(a.t));
  }

  lemma StampPlaces(s: State, a: Action)
    requires Enabled(s, a) && OnePlace(s) && a.Stamp? && s.threads[a.t].b in s.headers
    ensures OnePlace(Apply(s, a))
  {
    var s', b := Apply(s, a), s.threads[a.t].b;
    assert At(s, b, With(a.t));
    forall c: Block, x ensures At(s', c, x) <==> if c == b then x == InUse else At(s, c, x) {
      if c == b {
        assert At(s, c, x) ==> x == With(a.t);
      }
    }
    MovesPlace(s, s', b, With(a.t), InUse);
  }

  lemma ReleasePlaces(s: State, a: Action)
    requires Enabled(s, a) && OnePlace(s) && a.Release?
    ensures OnePlace(Apply(s, a))
  {
    var s', b := Apply(s, a), a.b;
    assert At(s, b, InUse);
    forall c: Block, x ensures At(s', c, x) <==> if c == b then x == With(a.t) else At(s, c, x) {
      if c == b {
        assert At(s, c, x) ==> x == InUse;
      }
    }
    MovesPlace(s, s', b, InUse, With(a.t));
  }

  lemma LinkPlaces(s: State, a: Action)
    requires Enabled(s, a) && OnePlace(s) && a.Link?
    ensures OnePlace(Apply(s, a))
  {
    var s', p, b := Apply(s, a), s.threads[a.t].p, s.threads[a.t].b;
    assert At(s, b, With(a.t));
    assert !At(s, b, OnList(p));
    forall c: Block, x ensures At(s', c, x) <==> if c == b then x == OnList(p) else At(s, c, x) {
      if c == b {
        assert At(s, c, x) ==> x == With(a.t);
      }
    }
    MovesPlace(s, s', b, With(a.t), OnList(p));
  }

  lemma CreatePlaces(s: State, a: Action)
    requires Enabled(s, a) && OnePlace(s) && a.Create?
    ensures OnePlace(Apply(s, a))
  {
    var s' := Apply(s, a);
    forall c: Block, x ensures At(s', c, x) <==> if c == a.b then x == With(a.t) else At(s, c, x) {
      if c == a.b {
        assert !At(s, c, x);
      }
    }
    ComesToPlace(s, s', a.b, With(a.t));
  }

  lemma PlacesStep(s: State, a: Action)
    requires Enabled(s, a) && OnePlace(s) && Stamped(s)
    ensures OnePlace(Apply(s, a))
  {
    var pc := s.threads[a.t];
    assert PcOk(s, pc);
    assert a.Stamp? || a.Clear? ==> Holds(s, a.t, pc.b) && At(s, pc.b, With(a.t));
    hide OnePlace, Stamped, Apply, PcOk;
    match a
    case PopList(_) => if s.pools[pc.p].free == [] { QuietPlaces(s, a); } else { PopPlaces(s, a); }
    case Stamp(_) => StampPlaces(s, a);
    case Release(_, _) => ReleasePlaces(s, a);
    case Link(_) => LinkPlaces(s, a);
    case Create(_, _, _) => CreatePlaces(s, a);
    case _ => QuietPlaces(s, a);
  }

  // ---------------------------------------------------------------- one step: headers

  /** A step that writes the header of a block only if the thread itself has it, and that leaves the
      other threads alone. */
  lemma OtherThreads(s: State, s': State, t: ThreadId, u: ThreadId)
    requires Stamped(s) && OnePlace(s) && u in s.threads && u != t
    requires s'.pools.Keys == s.pools.Keys && s'.origin.Keys >= s.origin.Keys && s'.headers.Keys >= s.headers.Keys
    requires forall b :: b in s.origin ==> s'.origin[b] == s.origin[b]
    requires forall b :: b in s.headers && b in s.origin && !Holds(s, t, b) ==> s'.headers[b] == s.headers[b]
    ensures PcOk(s', s.threads[u])
  {
    var pc := s.threads[u];
    assert PcOk(s, pc);
    hide ClassOf;
    if !pc.Outside? && !pc.Popping? && !pc.Missing? && !pc.Subtracting? && !pc.Returning? {
      assert At(s, pc.b, With(u));
      assert !At(s, pc.b, With(t));
    }
  }

  lemma StampedBlocks(s: State, s': State, t: ThreadId)
    requires Stamped(s) && OnePlace(s)
    requires s'.origin.Keys >= s.origin.Keys && s'.headers.Keys >= s.headers.Keys
    requires forall b :: b in s.origin ==> s'.origin[b] == s.origin[b]
    requires forall b :: b in s.headers && b in s.origin && !Holds(s, t, b) ==> s'.headers[b] == s.headers[b]
    ensures forall b :: b in s.lent ==> b in s'.headers && OfClass(s', b, s'.headers[b])
    ensures forall p: PoolId, b: Block :: Kept(s, p, b) ==> b in s'.headers && s'.headers[b] == 0 && b in s'.origin && s'.origin[b] == p
  {
    hide ClassOf;
    forall b | b in s.lent ensures b in s'.headers && OfClass(s', b, s'.headers[b]) {
      assert At(s, b, InUse);
      assert !At(s, b, With(t));
    }
    forall p: PoolId, b: Block | Kept(s, p, b) ensures b in s'.headers && s'.headers[b] == 0 && b in s'.origin && s'.origin[b] == p {
      assert At(s, b, OnList(p));
      assert !At(s, b, With(t));
    }
  }

  /** What a step does to headers, origins and lists, in one place. */
  lemma StepMeans(s: State, a: Action)
    requires Enabled(s, a) && Stamped(s) && OnePlace(s)
    ensures var s' := Apply(s, a); var t := a.t;
      && s'.pools.Keys == s.pools.Keys && s'.origin.Keys >= s.origin.Keys && s'.headers.Keys >= s.headers.Keys
      && (forall b :: b in s.origin ==> s'.origin[b] == s.origin[b])
      && (forall b :: b in s.headers && b in s.origin && !Holds(s, t, b) ==> s'.headers[b] == s.headers[b])
      && t in s'.threads && (forall u: ThreadId :: u != t ==> (u in s'.threads <==> u in s.threads))
      && (forall u: ThreadId :: u in s.threads && u != t ==> s'.threads[u] == s.threads[u])
      && (forall p: PoolId, b: Block :: Kept(s', p, b) ==> Kept(s, p, b) || (a.Link? && b == s.threads[t].b && p == s.threads[t].p))
      && (forall b :: b in s'.lent ==> b in s.lent || (a.Stamp? && b == s.threads[t].b))
  {
    hide ClassOf;
    assert PcOk(s, s.threads[a.t]);
  }

  /** The thread that took the step. */
  lemma OwnStep(s: State, a: Action)
    requires Enabled(s, a) && Stamped(s) && OnePlace(s)
    ensures PcOk(Apply(s, a), Apply(s, a).threads[a.t])
    ensures a.Stamp? ==> s.threads[a.t].b in Apply(s, a).headers && OfClass(Apply(s, a), s.threads[a.t].b, Apply(s, a).headers[s.threads[a.t].b])
    ensures a.Link? ==> var b := s.threads[a.t].b; b in Apply(s, a).headers && Apply(s, a).headers[b] == 0 && b in Apply(s, a).origin && Apply(s, a).origin[b] == s.threads[a.t].p
  {
    hide ClassOf, OnePlace;
    var pc := s.threads[a.t];
    assert PcOk(s, pc);
    if a.PopList? && s.pools[pc.p].free != [] {
      assert Kept(s, pc.p, s.pools[pc.p].free[0]);
    }
  }

  lemma StampedStep(s: State, a: Action)
    requires Enabled(s, a) && Stamped(s) && OnePlace(s)
    ensures Stamped(Apply(s, a))
  {
    hide ClassOf, Apply, Enabled, OnePlace, OfClass, Kept, Holds, PcOk, HasPools;
    var s' := Apply(s, a);
    StepMeans(s, a);
    OwnStep(s, a);
    StampedBlocks(s, s', a.t);
    PoolsStay(s, s');
    forall u: ThreadId | u in s'.threads ensures PcOk(s', s'.threads[u]) {
      if u != a.t { OtherThreads(s, s', a.t, u); }
    }
  }

  lemma PoolsStay(s: State, s': State)
    requires HasPools(s) && s'.pools.Keys == s.pools.Keys
    ensures HasPools(s')
  {
    hide ClassOf;
    assert forall p :: p in s.pools ==> p in s'.pools.Keys;
  }

  // ---------------------------------------------------------------- one step: counters

  predicate IsLate(pc: Pc, p: PoolId) {
    (pc.Subtracting? || pc.Returning?) && pc.p == p
  }

  predicate IsEarly(pc: Pc, p: PoolId) {
    pc.Taken? && pc.p == p
  }

  function One(b: bool): int {
    if b then 1 else 0
  }

  lemma ThreadsMove(s: State, s': State, t: ThreadId, p: PoolId)
    requires t in s.threads && t in s'.threads && s'.threads == s.threads[t := s'.threads[t]]
    ensures |Users(s', p)| == |Users(s, p)| + One(UserOf(s'.threads[t], p)) - One(UserOf(s.threads[t], p))
    ensures |Late(s', p)| == |Late(s, p)| + One(IsLate(s'.threads[t], p)) - One(IsLate(s.threads[t], p))
    ensures |Early(s', p)| == |Early(s, p)| + One(IsEarly(s'.threads[t], p)) - One(IsEarly(s.threads[t], p))
  {
    OneMoves(Users(s, p), Users(s', p), t) by { assert Users(s', p) - {t} == Users(s, p) - {t}; }
    OneMoves(Early(s, p), Early(s', p), t) by { assert Early(s', p) - {t} == Early(s, p) - {t}; }
    OneMoves(Late(s, p), Late(s', p), t) by { assert Late(s', p) - {t} == Late(s, p) - {t}; }
  }

  /** Which pool's blocks in use become one more, and which one less. */
  lemma LentMoves(s: State, a: Action, p: PoolId)
    requires Enabled(s, a) && Stamped(s) && OnePlace(s)
    ensures |LentFrom(Apply(s, a), p)| == |LentFrom(s, p)|
      + One(a.Stamp? && s.threads[a.t].p == p) - One(a.Release? && Apply(s, a).threads[a.t].p == p)
  {
    hide ClassOf;
    var s', pc := Apply(s, a), s.threads[a.t];
    assert PcOk(s, pc);
    if a.Stamp? {
      assert At(s, pc.b, With(a.t)) && !At(s, pc.b, InUse);
      OneMoves(LentFrom(s, p), LentFrom(s', p), pc.b) by { assert LentFrom(s', p) - {pc.b} == LentFrom(s, p) - {pc.b}; }
    } else if a.Release? {
      assert OfClass(s, a.b, s.headers[a.b]);
      OneMoves(LentFrom(s, p), LentFrom(s', p), a.b) by { assert LentFrom(s', p) - {a.b} == LentFrom(s, p) - {a.b}; }
    } else {
      forall b | b in s.lent ensures b in s.origin { assert At(s, b, InUse); }
      assert LentFrom(s', p) == LentFrom(s, p);
    }
  }

  lemma PoolMoves(s: State, a: Action, p: PoolId)
    requires Enabled(s, a) && p in s.pools
    ensures var s', pc := Apply(s, a), s.threads[a.t];
      && a.t in s'.threads && s'.threads == s.threads[a.t := s'.threads[a.t]] && p in s'.pools
      && s'.pools[p].useCount == s.pools[p].useCount + One(a.AddUse? && pc.p == p) - One(a.SubUse? && pc.p == p)
      && s'.pools[p].reserveCount == s.pools[p].reserveCount + One(a.AddReserve? && pc.p == p) - One(a.SubReserve? && pc.p == p)
      && |s'.pools[p].free| == |s.pools[p].free| + One(a.Link? && pc.p == p) - One(a.PopList? && IsEarly(s'.threads[a.t], p))
  {
    hide ClassOf;
  }

  /** Every step moves the same number on both sides. */
  lemma SidesMove(s: State, a: Action, p: PoolId)
    requires Enabled(s, a)
    ensures var pc, pc' := s.threads[a.t], Apply(s, a).threads[a.t];
      && One(a.AddUse? && pc.p == p) - One(a.SubUse? && pc.p == p)
         == One(a.Stamp? && pc.p == p) - One(a.Release? && pc'.p == p) + One(UserOf(pc', p)) - One(UserOf(pc, p))
      && One(a.AddReserve? && pc.p == p) - One(a.SubReserve? && pc.p == p)
         == One(a.Link? && pc.p == p) - One(a.PopList? && IsEarly(pc', p))
            + One(IsEarly(pc', p)) - One(IsEarly(pc, p)) - One(IsLate(pc', p)) + One(IsLate(pc, p))
  {
    hide ClassOf;
  }

  lemma CountedStep(s: State, a: Action, p: PoolId)
    requires Enabled(s, a) && Stamped(s) && OnePlace(s) && p in s.pools && Counted(s, p)
    ensures p in Apply(s, a).pools && Counted(Apply(s, a), p)
  {
    hide Enabled, Apply, Stamped, OnePlace, Users, Late, Early, LentFrom, UserOf, IsLate, IsEarly, One;
    PoolMoves(s, a, p);
    ThreadsMove(s, Apply(s, a), a.t, p) by { InThreads(s, a); }
    LentMoves(s, a, p);
    SidesMove(s, a, p);
  }

  lemma InThreads(s: State, a: Action)
    requires Enabled(s, a)
    ensures a.t in s.threads
  {}

  lemma InvStep(s: State, a: Action)
    requires Inv(s) && Enabled(s, a)
    ensures Inv(Apply(s, a))
  {
    PlacesStep(s, a);
    StampedStep(s, a);
    StepMeans(s, a);
    hide Enabled, Apply, Stamped, OnePlace, Counted;
    forall p | p in Apply(s, a).pools ensures Counted(Apply(s, a), p) {
      assert p in s.pools.Keys;
      CountedStep(s, a, p);
    }
  }

  lemma InitInv(s: State)
    requires Init(s)
    ensures Inv(s)
  {
    hide ClassOf;
    forall b: Block, x ensures !At(s, b, x) {}
    forall p | p in s.pools ensures Counted(s, p) {
      assert LentFrom(s, p) == {} && Users(s, p) == {} && Early(s, p) == {} && Late(s, p) == {};
    }
  }

  lemma FirstState(run: seq<State>)
    requires IsRun(run)
    ensures Init(run[0])
  {
    hide Init, Next;
  }

  lemma StepOf(run: seq<State>, i: nat) returns (a: Action)
    requires IsRun(run) && i < |run| - 1
    ensures Enabled(run[i], a) && run[i + 1] == Apply(run[i], a)
  {
    hide Apply, Enabled, Init;
    assert Next(run[i], run[i + 1]);
    a :| Enabled(run[i], a) && run[i + 1] == Apply(run[i], a);
  }

  lemma {:induction false} InvAlways(run: seq<State>, i: nat)
    requires IsRun(run) && i < |run|
    ensures Inv(run[i])
  {
    hide *;
    if i == 0 {
      FirstState(run);
      InitInv(run[0]);
    } else {
      InvAlways(run, i - 1);
      var a := StepOf(run, i - 1);
      InvStep(run[i - 1], a);
    }
  }

  // ---------------------------------------------------------------- the guarantees

  /** The assertion of `Pop` never fires: a kept block carries zero from its release until it is lent
      again, whatever other threads do. */
  lemma PoppedIsClear(run: seq<State>, i: nat, t: ThreadId)
    requires IsRun(run) && i < |run| && t in run[i].threads && run[i].threads[t].Taken?
    ensures run[i].threads[t].b in run[i].headers && run[i].headers[run[i].threads[t].b] == 0
  {
    InvAlways(run, i);
    assert PcOk(run[i], run[i].threads[t]);
  }

  /** Nor does the one of `Release`, and a block goes back to the pool that created it: the one of the
      class of the size it carries. */
  lemma ReleasedIsStamped(run: seq<State>, i: nat, b: Block)
    requires IsRun(run) && i < |run| && b in run[i].lent
    ensures b in run[i].headers && 0 < run[i].headers[b] <= MAX_ALLOC_SIZE
    ensures b in run[i].origin && run[i].origin[b] == ClassOf(run[i].headers[b]) >= run[i].headers[b]
  {
    InvAlways(run, i);
    assert OfClass(run[i], b, run[i].headers[b]);
    ClassFits(run[i].headers[b]);
  }

  /** No block is handed out twice or lost: at every moment each one is in use, with one thread, or
      once on the list of the pool that created it. */
  lemma BlockIsInOnePlace(run: seq<State>, i: nat, b: Block)
    requires IsRun(run) && i < |run| && b in run[i].origin
    ensures exists x :: At(run[i], b, x) && forall y :: At(run[i], b, y) ==> y == x
    ensures forall p :: Kept(run[i], p, b) ==> p == run[i].origin[b] && multiset(run[i].pools[p].free)[b] == 1
  {
    InvAlways(run, i);
    var s := run[i];
    hide IsRun, Counted;
    var x :| At(s, b, x);
    forall p | Kept(s, p, b) ensures p == s.origin[b] && multiset(s.pools[p].free)[b] == 1 {
      OnceInList(s.pools[p].free, b);
    }
  }

  lemma {:induction false} OnceInList(free: seq<Block>, b: Block)
    requires NoRepeats(free) && b in free
    ensures multiset(free)[b] == 1
  {
    assert free == [free[0]] + free[1..];
    if free[0] == b {
      assert b !in free[1..];
    } else {
      OnceInList(free[1..], b);
    }
  }

  /** The counters at any moment. */
  lemma CountersAlways(run: seq<State>, i: nat, p: PoolId)
    requires IsRun(run) && i < |run| && p in run[i].pools
    ensures var s := run[i];
      && s.pools[p].useCount == |LentFrom(s, p)| + |Users(s, p)|
      && s.pools[p].reserveCount == |s.pools[p].free| + |Early(s, p)| - |Late(s, p)|
  {
    InvAlways(run, i);
  }

  function CreatedBy(s: State, p: PoolId): set<Block> {
    set b | b in s.origin && s.origin[b] == p
  }

  /** With no thread inside the allocator the counters are exact, and together they are the blocks the
      pool has ever created. */
  lemma QuiescentCountersAreExact(run: seq<State>, i: nat, p: PoolId)
    requires IsRun(run) && i < |run| && p in run[i].pools
    requires forall t: ThreadId :: t in run[i].threads ==> run[i].threads[t].Outside?
    ensures var s := run[i];
      && s.pools[p].useCount == |LentFrom(s, p)| && s.pools[p].reserveCount == |s.pools[p].free|
      && s.pools[p].useCount + s.pools[p].reserveCount == |CreatedBy(s, p)|
  {
    InvAlways(run, i);
    var s := run[i];
    assert Users(s, p) == {} && Early(s, p) == {} && Late(s, p) == {};
    assert Counted(s, p);
    QuiescentBlocks(s, p);
  }

  function Members(free: seq<Block>): set<Block> {
    set b | b in free
  }

  lemma {:induction false} AsManyMembers(free: seq<Block>)
    requires NoRepeats(free)
    ensures |Members(free)| == |free|
  {
    if free != [] {
      var rest := free[1..];
      assert forall i :: 0 <= i < |rest| ==> rest[i] == free[i + 1];
      AsManyMembers(rest);
      assert free[0] !in Members(rest);
      assert Members(free) == Members(rest) + {free[0]} by { assert free == [free[0]] + rest; }
    }
  }

  lemma PlacesWhenQuiet(s: State, p: PoolId, b: Block)
    requires Inv(s) && p in s.pools && forall t: ThreadId :: t in s.threads ==> s.threads[t].Outside?
    ensures b in CreatedBy(s, p) <==> b in LentFrom(s, p) || b in s.pools[p].free
    ensures b in s.pools[p].free ==> b !in LentFrom(s, p)
  {
    hide Counted, ClassOf;
    if b in s.pools[p].free {
      assert Kept(s, p, b) && At(s, b, OnList(p));
      assert !At(s, b, InUse);
    }
    if b in CreatedBy(s, p) {
      var x :| At(s, b, x);
      assert x.InUse? || Kept(s, x.p, b);
    }
  }

  lemma QuiescentBlocks(s: State, p: PoolId)
    requires Inv(s) && p in s.pools && forall t: ThreadId :: t in s.threads ==> s.threads[t].Outside?
    ensures |CreatedBy(s, p)| == |LentFrom(s, p)| + |s.pools[p].free|
  {
    assert OnePlace(s) && NoRepeats(s.pools[p].free);
    AsManyMembers(s.pools[p].free);
    forall b ensures (b in CreatedBy(s, p) <==> b in LentFrom(s, p) || b in Members(s.pools[p].free))
                     && (b in Members(s.pools[p].free) ==> b !in LentFrom(s, p))
    {
      PlacesWhenQuiet(s, p, b);
    }
    hide Inv, LentFrom, Members, CreatedBy;
    assert CreatedBy(s, p) == LentFrom(s, p) + Members(s.pools[p].free);
    assert LentFrom(s, p) !! Members(s.pools[p].free);
  }
}
