/** The actor-style job runtime (`JobQueue`, `GlobalQueue`, `ThreadManager`) as a transition
    system.  One action is one atomic instruction or one lock-protected section; any thread may
    take the next action.  Thread and queue sets are arbitrary finite sets. */
module JobRuntime {
  import opened Basics
  import opened LockQueues

  type ThreadId = nat
  type QueueId = nat
  type Job = int

  const INT32_MAX := 0x7FFF_FFFF

  /** A `JobQueue`.  `pushed` and `executed` are histories: the `LockQueue::Push` calls so far and
      the jobs whose `Execute` has returned, both in order. */
  datatype Queue = Queue(count: int, jobs: seq<Job>, pushed: seq<Job>, executed: seq<Job>)

  /** Where a thread stands inside `JobQueue::Push`. */
  datatype PushState =
    | NoPush
    | Called(q: QueueId, job: Job, pushOnly: bool)
    | Counted(q: QueueId, job: Job, pushOnly: bool, first: bool)
    | Registering(q: QueueId, pushOnly: bool)

  /** Where a thread stands inside `JobQueue::Execute`.  `Entering` is the call itself, before
      `LJobQueue` is set; `Requeuing` comes after it was cleared again. */
  datatype ExecState =
    | Idle
    | Entering(q: QueueId)
    | Draining(q: QueueId)
    | Batch(q: QueueId, jobs: seq<Job>, next: nat, running: bool)
    | Subtracted(q: QueueId)
    | Requeuing(q: QueueId)

  /** `current` is the thread-local `LJobQueue`. */
  datatype Thread = Thread(current: Option<QueueId>, push: PushState, exec: ExecState)

  datatype State = State(queues: map<QueueId, Queue>, waiting: seq<QueueId>, threads: map<ThreadId, Thread>)

  datatype Action =
    | CallPush(t: ThreadId, q: QueueId, job: Job, pushOnly: bool)
    | FetchAdd(t: ThreadId)
    | Enqueue(t: ThreadId)
    | Register(t: ThreadId)
    | PopGlobal(t: ThreadId)
    | Enter(t: ThreadId)
    | PopAll(t: ThreadId)
    | StartJob(t: ThreadId)
    | FinishJob(t: ThreadId)
    | FetchSub(t: ThreadId)
    | CheckClock(t: ThreadId, late: bool)
    | Requeue(t: ThreadId)

  // ---------------------------------------------------------------- steps

  predicate KnownQueue(s: State, th: Thread) {
    && (!th.push.NoPush? ==> th.push.q in s.queues)
    && (!th.exec.Idle? ==> th.exec.q in s.queues)
  }

  /** A thread starts a push at top level or from inside a running job. */
  predicate Enabled(s: State, a: Action) {
    a.t in s.threads &&
    var th := s.threads[a.t];
    KnownQueue(s, th) &&
    match a
    case CallPush(_, q, _, _) =>
      q in s.queues && th.push.NoPush? && (th.exec.Idle? || (th.exec.Batch? && th.exec.running))
    case FetchAdd(_) => th.push.Called? && s.queues[th.push.q].count < INT32_MAX
    case Enqueue(_) => th.push.Counted?
    case Register(_) => th.push.Registering?
    case PopGlobal(_) => th.exec.Idle? && th.push.NoPush? && s.waiting != []
    case Enter(_) => th.exec.Entering?
    case PopAll(_) => th.exec.Draining?
    case StartJob(_) => th.exec.Batch? && !th.exec.running && th.exec.next < |th.exec.jobs|
    case FinishJob(_) => th.exec.Batch? && th.exec.running && th.exec.next < |th.exec.jobs| && th.push.NoPush?
    case FetchSub(_) => th.exec.Batch? && !th.exec.running && th.exec.next >= |th.exec.jobs|
    case CheckClock(_, _) => th.exec.Subtracted?
    case Requeue(_) => th.exec.Requeuing?
  }

  function Apply(s: State, a: Action): State
    requires Enabled(s, a)
  {
    var t := a.t;
    var th := s.threads[t];
    match a
    case CallPush(_, q, job, pushOnly) =>
      s.(threads := s.threads[t := th.(push := Called(q, job, pushOnly))])
    case FetchAdd(_) =>
      var q := s.queues[th.push.q];
      s.(queues := s.queues[th.push.q := q.(count := q.count + 1)],
         threads := s.threads[t := th.(push := Counted(th.push.q, th.push.job, th.push.pushOnly, q.count == 0))])
    case Enqueue(_) =>
      var q := s.queues[th.push.q];
      s.(queues := s.queues[th.push.q := q.(jobs := Enqueued(q.jobs, th.push.job), pushed := q.pushed + [th.push.job])],
         threads := s.threads[t := th.(push := if th.push.first then Registering(th.push.q, th.push.pushOnly) else NoPush)])
    case Register(_) =>
      if th.current.None? && th.push.pushOnly then
        s.(threads := s.threads[t := th.(push := NoPush, exec := Entering(th.push.q))])
      else
        s.(waiting := Enqueued(s.waiting, th.push.q), threads := s.threads[t := th.(push := NoPush)])
    case PopGlobal(_) =>
      var (front, rest) := Dequeued(s.waiting);
      s.(waiting := rest, threads := s.threads[t := th.(exec := Entering(front.value))])
    case Enter(_) =>
      s.(threads := s.threads[t := th.(current := Some(th.exec.q), exec := Draining(th.exec.q))])
    case PopAll(_) =>
      var q := s.queues[th.exec.q];
      var (batch, rest) := Drained([], q.jobs);
      s.(queues := s.queues[th.exec.q := q.(jobs := rest)],
         threads := s.threads[t := th.(exec := Batch(th.exec.q, batch, 0, false))])
    case StartJob(_) =>
      s.(threads := s.threads[t := th.(exec := th.exec.(running := true))])
    case FinishJob(_) =>
      var q := s.queues[th.exec.q];
      s.(queues := s.queues[th.exec.q := q.(executed := q.executed + [th.exec.jobs[th.exec.next]])],
         threads := s.threads[t := th.(exec := th.exec.(running := false, next := th.exec.next + 1))])
    case FetchSub(_) =>
      var q := s.queues[th.exec.q];
      s.(queues := s.queues[th.exec.q := q.(count := q.count - |th.exec.jobs|)],
         threads := s.threads[t := if q.count == |th.exec.jobs| then th.(current := None, exec := Idle)
                                   else th.(exec := Subtracted(th.exec.q))])
    case CheckClock(_, late) =>
      s.(threads := s.threads[t := if late then th.(current := None, exec := Requeuing(th.exec.q))
                                   else th.(exec := Draining(th.exec.q))])
    case Requeue(_) =>
      s.(waiting := Enqueued(s.waiting, th.exec.q), threads := s.threads[t := th.(exec := Idle)])
  }

  ghost predicate Init(s: State) {
    && s.waiting == []
    && (forall q :: q in s.queues ==> s.queues[q] == Queue(0, [], [], []))
    && (forall t :: t in s.threads ==> s.threads[t] == Thread(None, NoPush, Idle))
  }

  ghost predicate Next(s: State, s': State) {
    exists a :: Enabled(s, a) && s' == Apply(s, a)
  }

  ghost predicate IsRun(run: seq<State>) {
    && run != []
    && Init(run[0])
    && forall i :: 0 <= i < |run| - 1 ==> Next(run[i], run[i + 1])
  }

  // ---------------------------------------------------------------- the execution token

  /** The places where the right to execute a queue can rest. */
  datatype Place = Pusher(t: ThreadId) | Executor(t: ThreadId) | InGlobal

  predicate PushToken(th: Thread, q: QueueId) {
    || (th.push.Counted? && th.push.first && th.push.q == q)
    || (th.push.Registering? && th.push.q == q)
  }

  predicate ExecToken(th: Thread, q: QueueId) {
    !th.exec.Idle? && th.exec.q == q
  }

  predicate Counting(th: Thread, q: QueueId) {
    th.push.Counted? && th.push.q == q
  }

  predicate At(s: State, q: QueueId, p: Place) {
    match p
    case Pusher(t) => t in s.threads && PushToken(s.threads[t], q)
    case Executor(t) => t in s.threads && ExecToken(s.threads[t], q)
    case InGlobal => q in s.waiting
  }

  predicate ThreadOk(s: State, th: Thread) {
    && KnownQueue(s, th)
    && (th.exec.Idle? || th.exec.Entering? || th.exec.Requeuing? ==> th.current.None?)
    && (th.exec.Draining? || th.exec.Batch? || th.exec.Subtracted? ==> th.current == Some(th.exec.q))
    && (!th.push.NoPush? ==> th.exec.Idle? || (th.exec.Batch? && th.exec.running))
    && (th.exec.Batch? ==> th.exec.next <= |th.exec.jobs| && (th.exec.running ==> th.exec.next < |th.exec.jobs|))
  }

  ghost predicate Shape(s: State) {
    && (forall t :: t in s.threads ==> ThreadOk(s, s.threads[t]))
    && (forall i :: 0 <= i < |s.waiting| ==> s.waiting[i] in s.queues)
    && (forall i, j :: 0 <= i < j < |s.waiting| ==> s.waiting[i] != s.waiting[j])
  }

  ghost predicate TokenOf(s: State, q: QueueId)
    requires q in s.queues
  {
    && (forall p1, p2 :: At(s, q, p1) && At(s, q, p2) ==> p1 == p2)
    && s.queues[q].count >= 0
    && (s.queues[q].count > 0 <==> exists p :: At(s, q, p))
  }

  /** Pushers between `_job_count.fetch_add` and `_job_queue.Push`. */
  function Counters(s: State, q: QueueId): set<ThreadId> {
    set t | t in s.threads && Counting(s.threads[t], q)
  }

  predicate InBatch(s: State, t: ThreadId, q: QueueId) {
    t in s.threads && s.threads[t].exec.Batch? && s.threads[t].exec.q == q
  }

  /** Conservation for one queue, given the batch being worked on and how far it has got. */
  predicate Conserved(s: State, q: QueueId, batch: seq<Job>, next: nat)
    requires q in s.queues && next <= |batch|
  {
    var jq := s.queues[q];
    && jq.count == |jq.jobs| + |batch| + |Counters(s, q)|
    && jq.executed + batch[next..] + jq.jobs == jq.pushed
  }

  ghost predicate BooksOf(s: State, q: QueueId)
    requires q in s.queues && Shape(s)
  {
    && (forall t :: InBatch(s, t, q) ==> Conserved(s, q, s.threads[t].exec.jobs, s.threads[t].exec.next))
    && ((forall t :: !InBatch(s, t, q)) ==> Conserved(s, q, [], 0))
  }

  ghost predicate Inv(s: State) {
    && Shape(s)
    && forall q :: q in s.queues ==> TokenOf(s, q) && BooksOf(s, q)
  }

  /** The queue an action works on, as far as tokens and books are concerned. */
  function Subject(s: State, a: Action): QueueId
    requires Enabled(s, a)
  {
    var th := s.threads[a.t];
    match a
    case CallPush(_, q, _, _) => q
    case FetchAdd(_) => th.push.q
    case Enqueue(_) => th.push.q
    case Register(_) => th.push.q
    case PopGlobal(_) => s.waiting[0]
    case _ => th.exec.q
  }

  /** What every action has in common: it touches one thread and one queue, and for every other
      queue it leaves tokens, counters and batches where they are. */
  ghost predicate Local(s: State, s': State, t: ThreadId, q: QueueId) {
    && t in s.threads && t in s'.threads && q in s.queues && q in s'.queues
    && s'.threads == s.threads[t := s'.threads[t]]
    && s'.queues == s.queues[q := s'.queues[q]]
    && var th, th' := s.threads[t], s'.threads[t];
    && (forall r :: r != q ==> (r in s'.waiting <==> r in s.waiting))
    && (forall r :: r != q ==> PushToken(th', r) == PushToken(th, r) && ExecToken(th', r) == ExecToken(th, r))
    && (forall r :: r != q ==> Counting(th', r) == Counting(th, r))
    && (th'.exec.Batch? && th'.exec.q != q ==> th.exec == th'.exec)
    && (th.exec.Batch? && th.exec.q != q ==> th.exec == th'.exec)
  }

  lemma StepIsLocal(s: State, a: Action)
    requires Shape(s) && Enabled(s, a)
    ensures Local(s, Apply(s, a), a.t, Subject(s, a))
  {
    var s' := Apply(s, a);
    assert ThreadOk(s, s.threads[a.t]);
    if a.PopGlobal? {
      assert s.waiting == [s.waiting[0]] + s'.waiting;
    }
  }

  lemma ThreadStaysOk(s: State, a: Action)
    requires Shape(s) && Enabled(s, a)
    ensures Apply(s, a).queues.Keys == s.queues.Keys
    ensures ThreadOk(Apply(s, a), Apply(s, a).threads[a.t])
  {
    assert ThreadOk(s, s.threads[a.t]);
  }

  lemma NotWaiting(s: State, q: QueueId, p: Place)
    requires q in s.queues && TokenOf(s, q) && At(s, q, p) && p != InGlobal
    ensures q !in s.waiting
  {
    assert !At(s, q, InGlobal);
  }

  /** A queue about to be put into the global queue is not there yet: its token is in the thread's
      hand. */
  lemma WaitingStaysDistinct(s: State, a: Action)
    requires Shape(s) && Enabled(s, a) && Subject(s, a) in s.queues && TokenOf(s, Subject(s, a))
    ensures var w := Apply(s, a).waiting;
      && (forall i :: 0 <= i < |w| ==> w[i] in s.queues)
      && (forall i, j :: 0 <= i < j < |w| ==> w[i] != w[j])
  {
    if a.Register? {
      NotWaiting(s, Subject(s, a), Pusher(a.t));
    } else if a.Requeue? {
      NotWaiting(s, Subject(s, a), Executor(a.t));
    }
  }

  lemma ShapeStep(s: State, a: Action)
    requires Shape(s) && Enabled(s, a) && Subject(s, a) in s.queues && TokenOf(s, Subject(s, a))
    ensures Shape(Apply(s, a))
  {
    var s' := Apply(s, a);
    StepIsLocal(s, a);
    ThreadStaysOk(s, a);
    WaitingStaysDistinct(s, a);
    forall t | t in s'.threads ensures ThreadOk(s', s'.threads[t]) {
      if t != a.t { assert ThreadOk(s, s.threads[t]); }
    }
  }

  lemma FrameToken(s: State, s': State, t: ThreadId, q: QueueId, r: QueueId)
    requires Local(s, s', t, q) && r in s.queues && r != q && TokenOf(s, r)
    ensures TokenOf(s', r)
  {
    forall p ensures At(s', r, p) == At(s, r, p) {}
  }

  lemma FrameBooks(s: State, s': State, t: ThreadId, q: QueueId, r: QueueId)
    requires Shape(s) && Shape(s') && Local(s, s', t, q) && r in s.queues && r != q && BooksOf(s, r)
    ensures BooksOf(s', r)
  {
    assert Counters(s', r) == Counters(s, r);
    forall u ensures InBatch(s', u, r) == InBatch(s, u, r) {}
  }

  /** Where a token rests: `None` is nowhere. */
  ghost predicate TokenAt(s: State, q: QueueId, place: Option<Place>) {
    forall p :: At(s, q, p) <==> place == Some(p)
  }

  lemma OnlyAt(s: State, q: QueueId, p: Place)
    requires q in s.queues && TokenOf(s, q) && At(s, q, p)
    ensures s.queues[q].count > 0 && TokenAt(s, q, Some(p))
  {}

  lemma Nowhere(s: State, q: QueueId)
    requires q in s.queues && TokenOf(s, q) && s.queues[q].count == 0
    ensures TokenAt(s, q, None)
  {}

  /** A token that no other thread holds moves to wherever the acting thread put it. */
  lemma TokenMoves(s: State, s': State, t: ThreadId, q: QueueId, before: Option<Place>, after: Option<Place>)
    requires Local(s, s', t, q) && TokenAt(s, q, before)
    requires before.Some? && !before.value.InGlobal? ==> before.value.t == t
    requires after.Some? && !after.value.InGlobal? ==> after.value.t == t
    requires PushToken(s'.threads[t], q) <==> after == Some(Pusher(t))
    requires ExecToken(s'.threads[t], q) <==> after == Some(Executor(t))
    requires q in s'.waiting <==> after == Some(InGlobal)
    requires if after.Some? then s'.queues[q].count > 0 else s'.queues[q].count == 0
    ensures TokenOf(s', q)
  {
    forall p ensures At(s', q, p) <==> after == Some(p) {
      assert At(s, q, p) <==> before == Some(p);
    }
    TokenFromPlace(s', q, after);
  }

  lemma TokenFromPlace(s: State, q: QueueId, place: Option<Place>)
    requires q in s.queues && TokenAt(s, q, place)
    requires if place.Some? then s.queues[q].count > 0 else s.queues[q].count == 0
    ensures TokenOf(s, q)
  {
    if place.Some? { assert At(s, q, place.value); }
  }

  /** Actions inside `Push`: the token appears at the thread that counts first, rests with it while
      it enqueues, and moves on when it registers. */
  lemma PushTokenStep(s: State, a: Action)
    requires Shape(s) && Enabled(s, a) && (a.CallPush? || a.FetchAdd? || a.Enqueue? || a.Register?)
    requires TokenOf(s, Subject(s, a))
    ensures TokenOf(Apply(s, a), Subject(s, a))
  {
    var s', q, t := Apply(s, a), Subject(s, a), a.t;
    var th := s.threads[t];
    assert ThreadOk(s, th);
    StepIsLocal(s, a);
    if a.FetchAdd? && s.queues[q].count == 0 {
      Nowhere(s, q);
      assert !At(s, q, Executor(t)) && !At(s, q, InGlobal);
      TokenMoves(s, s', t, q, None, Some(Pusher(t)));
    } else if a.Register? {
      OnlyAt(s, q, Pusher(t));
      assert !At(s, q, Executor(t)) && !At(s, q, InGlobal);
      TokenMoves(s, s', t, q, Some(Pusher(t)),
                 Some(if th.current.None? && th.push.pushOnly then Executor(t) else InGlobal));
    } else {
      forall p ensures At(s', q, p) == At(s, q, p) {}
    }
  }

  lemma PopTokenStep(s: State, a: Action)
    requires Shape(s) && Enabled(s, a) && a.PopGlobal?
    requires Subject(s, a) in s.queues && TokenOf(s, Subject(s, a))
    ensures TokenOf(Apply(s, a), Subject(s, a))
  {
    var s', q, t := Apply(s, a), Subject(s, a), a.t;
    assert ThreadOk(s, s.threads[t]);
    StepIsLocal(s, a);
    OnlyAt(s, q, InGlobal);
    assert s.waiting == [q] + s'.waiting && !At(s, q, Pusher(t));
    TokenMoves(s, s', t, q, Some(InGlobal), Some(Executor(t)));
  }

  /** Actions of the worker: the token is popped with the queue, stays with the executor, and is
      given up exactly when the counter drops to zero or the queue goes back to the global queue. */
  lemma WorkerTokenStep(s: State, a: Action)
    requires Shape(s) && Enabled(s, a) && !(a.CallPush? || a.FetchAdd? || a.Enqueue? || a.Register?)
    requires Subject(s, a) in s.queues && TokenOf(s, Subject(s, a)) && BooksOf(s, Subject(s, a))
    ensures TokenOf(Apply(s, a), Subject(s, a))
  {
    if a.PopGlobal? {
      PopTokenStep(s, a);
    } else {
      hide Counters;
      var s', q, t := Apply(s, a), Subject(s, a), a.t;
      assert ThreadOk(s, s.threads[t]);
      StepIsLocal(s, a);
      OnlyAt(s, q, Executor(t));
      assert !At(s, q, Pusher(t)) && !At(s, q, InGlobal);
      var after := if a.Requeue? then Some(InGlobal)
                   else if a.FetchSub? && s'.queues[q].count == 0 then None else Some(Executor(t));
      assert a.FetchSub? ==> InBatch(s, t, q);
      TokenMoves(s, s', t, q, Some(Executor(t)), after);
    }
  }

  lemma CountersMove(s: State, a: Action)
    requires Shape(s) && Enabled(s, a)
    ensures var q := Subject(s, a);
      Counters(Apply(s, a), q) ==
        if a.FetchAdd? then Counters(s, q) + {a.t} else if a.Enqueue? then Counters(s, q) - {a.t} else Counters(s, q)
    ensures a.FetchAdd? ==> a.t !in Counters(s, Subject(s, a))
    ensures a.Enqueue? ==> a.t in Counters(s, Subject(s, a))
  {
    assert ThreadOk(s, s.threads[a.t]);
  }

  lemma PushKeepsConserved(s: State, a: Action, batch: seq<Job>, next: nat)
    requires Shape(s) && Enabled(s, a) && (a.CallPush? || a.FetchAdd? || a.Enqueue? || a.Register?)
    requires next <= |batch| && Conserved(s, Subject(s, a), batch, next)
    ensures Conserved(Apply(s, a), Subject(s, a), batch, next)
  {
    CountersMove(s, a);
    if a.Enqueue? {
      var q := s.queues[Subject(s, a)];
      var job := [s.threads[a.t].push.job];
      assert q.executed + batch[next..] + (q.jobs + job) == (q.executed + batch[next..] + q.jobs) + job;
    }
  }

  /** A push changes no batch. */
  lemma PushKeepsBatches(s: State, a: Action)
    requires Shape(s) && Enabled(s, a) && (a.CallPush? || a.FetchAdd? || a.Enqueue? || a.Register?)
    ensures Subject(s, a) in s.queues && Subject(s, a) in Apply(s, a).queues
    ensures forall u: ThreadId :: InBatch(Apply(s, a), u, Subject(s, a)) == InBatch(s, u, Subject(s, a))
    ensures forall u: ThreadId :: InBatch(s, u, Subject(s, a)) ==> Apply(s, a).threads[u].exec == s.threads[u].exec
    ensures forall u: ThreadId :: InBatch(s, u, Subject(s, a)) ==> s.threads[u].exec.next <= |s.threads[u].exec.jobs|
  {
    assert ThreadOk(s, s.threads[a.t]);
  }

  lemma PushBooksStep(s: State, a: Action)
    requires Shape(s) && Enabled(s, a) && (a.CallPush? || a.FetchAdd? || a.Enqueue? || a.Register?)
    requires Shape(Apply(s, a)) && BooksOf(s, Subject(s, a))
    ensures BooksOf(Apply(s, a), Subject(s, a))
  {
    PushKeepsBatches(s, a);
    hide Enabled, Apply, Subject, Shape, Conserved;
    var s', q := Apply(s, a), Subject(s, a);
    forall u | InBatch(s', u, q) ensures Conserved(s', q, s'.threads[u].exec.jobs, s'.threads[u].exec.next) {
      assert InBatch(s, u, q);
      PushKeepsConserved(s, a, s.threads[u].exec.jobs, s.threads[u].exec.next);
    }
    if forall u :: !InBatch(s', u, q) {
      PushKeepsConserved(s, a, [], 0);
    }
  }

  /** The executor's own batch is the only one of its queue. */
  lemma OnlyBatch(s: State, q: QueueId, t: ThreadId, u: ThreadId)
    requires q in s.queues && TokenOf(s, q) && t in s.threads && ExecToken(s.threads[t], q) && InBatch(s, u, q)
    ensures u == t
  {
    assert At(s, q, Executor(t)) && At(s, q, Executor(u));
  }

  lemma WaitingHasNoBatch(s: State, q: QueueId, u: ThreadId)
    requires q in s.queues && TokenOf(s, q) && q in s.waiting
    ensures !InBatch(s, u, q)
  {
    assert At(s, q, InGlobal);
    assert InBatch(s, u, q) ==> At(s, q, Executor(u));
  }

  /** The books of `q` as seen by a thread `t` that alone may be working on a batch of it. */
  predicate BooksFor(s: State, q: QueueId, t: ThreadId)
    requires q in s.queues && t in s.threads
  {
    var exec := s.threads[t].exec;
    if InBatch(s, t, q) then exec.next <= |exec.jobs| && Conserved(s, q, exec.jobs, exec.next)
    else Conserved(s, q, [], 0)
  }

  /** The three steps that move jobs, each of the thread that works on the queue. */
  lemma FinishJobBooks(s: State, a: Action)
    requires Shape(s) && Enabled(s, a) && a.FinishJob? && BooksFor(s, Subject(s, a), a.t)
    requires Counters(Apply(s, a), Subject(s, a)) == Counters(s, Subject(s, a))
    ensures BooksFor(Apply(s, a), Subject(s, a), a.t)
  {
    hide Counters;
    var exec := s.threads[a.t].exec;
    assert exec.jobs[exec.next..] == [exec.jobs[exec.next]] + exec.jobs[exec.next + 1..];
  }

  lemma PopAllBooks(s: State, a: Action)
    requires Shape(s) && Enabled(s, a) && a.PopAll? && BooksFor(s, Subject(s, a), a.t)
    requires Counters(Apply(s, a), Subject(s, a)) == Counters(s, Subject(s, a))
    ensures BooksFor(Apply(s, a), Subject(s, a), a.t)
  {
    hide Counters;
    var jobs, none: seq<Job> := s.queues[Subject(s, a)].jobs, [];
    assert jobs[0..] == jobs && none[0..] == none && none + jobs == jobs;
  }

  lemma FetchSubBooks(s: State, a: Action)
    requires Shape(s) && Enabled(s, a) && a.FetchSub? && BooksFor(s, Subject(s, a), a.t)
    requires Counters(Apply(s, a), Subject(s, a)) == Counters(s, Subject(s, a))
    ensures BooksFor(Apply(s, a), Subject(s, a), a.t)
  {
    hide Counters;
    var exec, none: seq<Job> := s.threads[a.t].exec, [];
    assert exec.jobs[exec.next..] == none[0..];
  }

  lemma WorkerConserved(s: State, a: Action)
    requires Shape(s) && Enabled(s, a) && !(a.CallPush? || a.FetchAdd? || a.Enqueue? || a.Register?)
    requires Subject(s, a) in s.queues && Subject(s, a) in Apply(s, a).queues && BooksFor(s, Subject(s, a), a.t)
    ensures BooksFor(Apply(s, a), Subject(s, a), a.t)
  {
    CountersMove(s, a);
    if a.FinishJob? {
      FinishJobBooks(s, a);
    } else if a.PopAll? {
      PopAllBooks(s, a);
    } else if a.FetchSub? {
      FetchSubBooks(s, a);
    } else {
      hide Counters;
      assert ThreadOk(s, s.threads[a.t]);
    }
  }

  lemma WorkerBooksStep(s: State, a: Action)
    requires Shape(s) && Enabled(s, a) && !(a.CallPush? || a.FetchAdd? || a.Enqueue? || a.Register?)
    requires Subject(s, a) in s.queues && TokenOf(s, Subject(s, a)) && BooksOf(s, Subject(s, a))
    requires Shape(Apply(s, a)) && TokenOf(Apply(s, a), Subject(s, a))
    ensures BooksOf(Apply(s, a), Subject(s, a))
  {
    var s', q, t := Apply(s, a), Subject(s, a), a.t;
    assert ThreadOk(s, s.threads[t]);
    forall u ensures InBatch(s, u, q) ==> u == t {
      if a.PopGlobal? {
        WaitingHasNoBatch(s, q, u);
      } else if InBatch(s, u, q) {
        OnlyBatch(s, q, t, u);
      }
    }
    forall u | InBatch(s', u, q) ensures u == t {
      if u != t { assert InBatch(s, u, q); }
    }
    WorkerConserved(s, a);
  }

  lemma InvStep(s: State, a: Action)
    requires Inv(s) && Enabled(s, a)
    ensures Inv(Apply(s, a))
  {
    var s', q := Apply(s, a), Subject(s, a);
    assert ThreadOk(s, s.threads[a.t]) && q in s.queues;
    ShapeStep(s, a);
    StepIsLocal(s, a);
    if a.CallPush? || a.FetchAdd? || a.Enqueue? || a.Register? {
      PushTokenStep(s, a);
      PushBooksStep(s, a);
    } else {
      WorkerTokenStep(s, a);
      WorkerBooksStep(s, a);
    }
    forall r | r in s'.queues && r != q ensures TokenOf(s', r) && BooksOf(s', r) {
      FrameToken(s, s', a.t, q, r);
      FrameBooks(s, s', a.t, q, r);
    }
  }

  lemma InitInv(s: State)
    requires Init(s)
    ensures Inv(s)
  {
    forall q | q in s.queues ensures TokenOf(s, q) && BooksOf(s, q) {
      forall p ensures !At(s, q, p) {}
      assert Counters(s, q) == {};
    }
  }

  lemma StepOf(run: seq<State>, i: nat) returns (a: Action)
    requires IsRun(run) && i < |run| - 1
    ensures Enabled(run[i], a) && run[i + 1] == Apply(run[i], a)
  {
    hide Apply, Enabled, Init;
    assert Next(run[i], run[i + 1]);
    a :| Enabled(run[i], a) && run[i + 1] == Apply(run[i], a);
  }

  lemma FirstState(run: seq<State>)
    requires IsRun(run)
    ensures Init(run[0])
  {
    hide Init, Next;
  }

  lemma {:induction false} InvAlways(run: seq<State>, i: nat)
    requires IsRun(run) && i < |run|
    ensures Inv(run[i])
  {
    hide *;
    if i == 0 {
      FirstState(run);
      InitInv(run[0]);
    } else {
      InvAlways(run, i - 1);
      var a := StepOf(run, i - 1);
      InvStep(run[i - 1], a);
    }
  }

  // ---------------------------------------------------------------- the guarantees

  function Pushers(s: State, q: QueueId): set<ThreadId> {
    set t | t in s.threads && PushToken(s.threads[t], q)
  }

  function Executors(s: State, q: QueueId): set<ThreadId> {
    set t | t in s.threads && ExecToken(s.threads[t], q)
  }

  lemma AtMostOne<T>(xs: set<T>)
    requires forall x, y :: x in xs && y in xs ==> x == y
    ensures |xs| <= 1
  {
    if xs != {} {
      var x :| x in xs;
      assert xs == {x};
    }
  }

  lemma {:induction false} OccurrencesOnce(w: seq<QueueId>, q: QueueId)
    requires forall i, j :: 0 <= i < j < |w| ==> w[i] != w[j]
    ensures multiset(w)[q] == if q in w then 1 else 0
  {
    if w != [] {
      assert w == w[..|w| - 1] + [w[|w| - 1]];
      OccurrencesOnce(w[..|w| - 1], q);
    }
  }

  /** Single executor: pushers that saw 0 and have not registered, plus entries in the global queue,
      plus threads executing the queue, add up to one when the counter is positive, to none when it
      is zero. */
  lemma OneToken(run: seq<State>, i: nat, q: QueueId)
    requires IsRun(run) && i < |run| && q in run[i].queues
    ensures var s := run[i];
      |Pushers(s, q)| + multiset(s.waiting)[q] + |Executors(s, q)| == if s.queues[q].count > 0 then 1 else 0
  {
    InvAlways(run, i);
    OccurrencesOnce(run[i].waiting, q);
    TokensInPlaces(run[i], q);
  }

  /** The token counted place by place. */
  lemma TokensInPlaces(s: State, q: QueueId)
    requires q in s.queues && TokenOf(s, q)
    requires multiset(s.waiting)[q] == if q in s.waiting then 1 else 0
    ensures |Pushers(s, q)| + multiset(s.waiting)[q] + |Executors(s, q)| == if s.queues[q].count > 0 then 1 else 0
  {
    var pushers, executors := Pushers(s, q), Executors(s, q);
    forall x, y | x in pushers && y in pushers ensures x == y {
      assert At(s, q, Pusher(x)) && At(s, q, Pusher(y));
    }
    forall x, y | x in executors && y in executors ensures x == y {
      assert At(s, q, Executor(x)) && At(s, q, Executor(y));
    }
    AtMostOne(pushers);
    AtMostOne(executors);
    assert forall x :: x in pushers <==> At(s, q, Pusher(x));
    assert forall x :: x in executors <==> At(s, q, Executor(x));
    assert q in s.waiting <==> At(s, q, InGlobal);
    if s.queues[q].count > 0 {
      var p :| At(s, q, p);
    } else {
      assert forall p :: !At(s, q, p);
      assert pushers == {} && executors == {};
    }
  }

  /** Two threads are never inside jobs of one queue at the same time. */
  lemma JobsDoNotOverlap(run: seq<State>, i: nat, t: ThreadId, u: ThreadId)
    requires IsRun(run) && i < |run| && t in run[i].threads && u in run[i].threads
    requires var x, y := run[i].threads[t].exec, run[i].threads[u].exec;
      x.Batch? && x.running && y.Batch? && y.running && x.q == y.q
    ensures t == u
  {
    InvAlways(run, i);
    var s, q := run[i], run[i].threads[t].exec.q;
    assert ThreadOk(s, s.threads[t]) && TokenOf(s, q);
    OnlyBatch(s, q, t, u);
  }

  /** `Push` calls `Execute` directly only on a thread that is executing nothing, and a popped queue
      is only entered by such a thread: `Execute` never nests. */
  lemma ExecuteNeverNests(run: seq<State>, i: nat, a: Action)
    requires IsRun(run) && i < |run| && Enabled(run[i], a)
    requires !run[i].threads[a.t].exec.Entering? && Apply(run[i], a).threads[a.t].exec.Entering?
    ensures run[i].threads[a.t].exec.Idle? && run[i].threads[a.t].current.None?
  {
    InvAlways(run, i);
    assert ThreadOk(run[i], run[i].threads[a.t]);
  }

  /** No job is lost, duplicated or reordered: what has run is a prefix of the pushes, and the
      counter is exactly the unfinished pushes plus the batch not yet subtracted. */
  lemma NothingLostOrReordered(run: seq<State>, i: nat, q: QueueId)
    requires IsRun(run) && i < |run| && q in run[i].queues
    ensures var s := run[i];
      && s.queues[q].executed <= s.queues[q].pushed
      && Shape(s)
      && BooksOf(s, q)
  {
    InvAlways(run, i);
    var s := run[i];
    assert BooksOf(s, q);
    if t :| InBatch(s, t, q) {
      assert Conserved(s, q, s.threads[t].exec.jobs, s.threads[t].exec.next);
    }
  }

  ghost predicate Quiescent(s: State) {
    s.waiting == [] && forall t :: t in s.threads ==> s.threads[t].push.NoPush? && s.threads[t].exec.Idle?
  }

  lemma QuiescentQueue(s: State, q: QueueId)
    requires Inv(s) && q in s.queues && Quiescent(s)
    ensures s.queues[q].executed == s.queues[q].pushed
    ensures s.queues[q].count == 0 && s.queues[q].jobs == []
  {
    assert TokenOf(s, q) && BooksOf(s, q);
    assert Counters(s, q) == {};
    forall p ensures !At(s, q, p) {}
    assert s.queues[q].count == 0 && Conserved(s, q, [], 0);
  }

  /** When nothing is in flight, every pushed job has run exactly once, in push order. */
  lemma QuiescentMeansDone(run: seq<State>, i: nat, q: QueueId)
    requires IsRun(run) && i < |run| && q in run[i].queues && Quiescent(run[i])
    ensures run[i].queues[q].executed == run[i].queues[q].pushed
    ensures run[i].queues[q].count == 0 && run[i].queues[q].jobs == []
  {
    InvAlways(run, i);
    QuiescentQueue(run[i], q);
  }

  /** The step belongs to the thread that has the queue's token. */
  predicate Serves(s: State, q: QueueId, a: Action) {
    At(s, q, Pusher(a.t)) || At(s, q, Executor(a.t))
  }

  predicate IsFree(th: Thread) {
    th.push.NoPush? && th.exec.Idle?
  }

  /** No lost wake-up: while some job of `q` has not run, either `q` is in the global queue, where any
      thread that is free can pop, or the very thread that has the token of `q` can take its next
      step.  Counters must be below their 32-bit limit. */
  lemma NoLostWakeUp(run: seq<State>, i: nat, q: QueueId, free: ThreadId)
    requires IsRun(run) && i < |run| && q in run[i].queues
    requires run[i].queues[q].executed != run[i].queues[q].pushed
    requires forall r :: r in run[i].queues ==> run[i].queues[r].count < INT32_MAX
    requires free in run[i].threads
    ensures (q in run[i].waiting && (IsFree(run[i].threads[free]) ==> Enabled(run[i], PopGlobal(free))))
      || exists a: Action :: !a.CallPush? && Enabled(run[i], a) && Serves(run[i], q, a)
  {
    hide IsRun, Enabled, TokenOf, BooksOf, Shape;
    InvAlways(run, i);
    var s := run[i];
    UnfinishedHasToken(s, q);
    var p :| At(s, q, p);
    match p
    case InGlobal => WaitingCanBePopped(s, q, free);
    case Pusher(t) =>
      var a := PusherCanMove(s, q, t);
      assert Serves(s, q, a);
    case Executor(t) =>
      var a := ExecutorCanMove(s, t);
      assert Serves(s, q, a);
  }

  lemma WaitingCanBePopped(s: State, q: QueueId, free: ThreadId)
    requires Shape(s) && q in s.waiting && free in s.threads
    ensures IsFree(s.threads[free]) ==> Enabled(s, PopGlobal(free))
  {
    assert ThreadOk(s, s.threads[free]);
  }

  lemma PusherCanMove(s: State, q: QueueId, t: ThreadId) returns (a: Action)
    requires Shape(s) && At(s, q, Pusher(t))
    ensures a.t == t && !a.CallPush? && Enabled(s, a)
  {
    assert ThreadOk(s, s.threads[t]);
    a := if s.threads[t].push.Counted? then Enqueue(t) else Register(t);
  }

  lemma UnfinishedHasToken(s: State, q: QueueId)
    requires Shape(s) && q in s.queues && TokenOf(s, q) && BooksOf(s, q) && s.queues[q].executed != s.queues[q].pushed
    ensures exists p :: At(s, q, p)
  {
    assert forall t :: InBatch(s, t, q) ==> At(s, q, Executor(t));
  }

  lemma ExecutorCanMove(s: State, t: ThreadId) returns (a: Action)
    requires Shape(s) && t in s.threads && !s.threads[t].exec.Idle?
    requires forall r :: r in s.queues ==> s.queues[r].count < INT32_MAX
    ensures a.t == t && !a.CallPush? && Enabled(s, a)
  {
    var th := s.threads[t];
    assert ThreadOk(s, th);
    a := match th.exec
      case Entering(_) => Enter(t)
      case Draining(_) => PopAll(t)
      case Subtracted(_) => CheckClock(t, true)
      case Requeuing(_) => Requeue(t)
      case Batch(_, jobs, next, running) =>
        if th.push.Called? then FetchAdd(t)
        else if th.push.Counted? then Enqueue(t)
        else if th.push.Registering? then Register(t)
        else if running then FinishJob(t)
        else if next < |jobs| then StartJob(t)
        else FetchSub(t);
  }

  /** Nobody overtakes in the global queue: with `k` entries in front of it, `q` keeps its place, or
      moves up by one when some thread pops, or is itself what that thread enters. */
  lemma WaitingMovesUp(run: seq<State>, i: nat, q: QueueId, k: nat, a: Action)
    requires IsRun(run) && i < |run| && k < |run[i].waiting| && run[i].waiting[k] == q && Enabled(run[i], a)
    ensures var s' := Apply(run[i], a);
      if !a.PopGlobal? then k < |s'.waiting| && s'.waiting[k] == q
      else if k > 0 then k - 1 < |s'.waiting| && s'.waiting[k - 1] == q
      else s'.threads[a.t].exec == Entering(q) && q !in s'.waiting
  {
    InvAlways(run, i);
    var s := run[i];
    assert forall j :: 0 <= j < |s.waiting[1..]| ==> s.waiting[1..][j] == s.waiting[j + 1];
  }
}
