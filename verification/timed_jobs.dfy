/** The job runtime and its timer together: threads that push jobs, reserve jobs, run jobs and
    distribute what is due.  A dispatch to a living owner is a call of `JobQueue::Push` by the same
    thread, which may run the job, and that job may reserve further ones, before the dispatch goes on.
    Jobs are named by numbers given out when they are made, as job objects are. */
module TimedJobs {
  import opened Basics
  import J = JobRuntime
  import T = JobTimers

  type ThreadId = nat
  type QueueId = nat
  type Job = nat

  /** `made` is the next job's number.  Histories: `calls` gives the queue of every job `Push` has been
      called for, `timed` the reservation of every job that was reserved, and `expired` are the jobs
      whose owner was gone when they were dispatched. */
  datatype State = State(jobs: J.State, timer: T.State, made: nat,
                         calls: map<Job, QueueId>, timed: map<Job, T.Reservation>, expired: set<Job>)

  datatype Action =
    | Run(a: J.Action)
    | DoAsync(t: ThreadId, q: QueueId, pushOnly: bool)
    | Time(b: T.Action)
    | DoTimer(t: ThreadId, tickAfter: T.Tick, owner: QueueId)
    | Dispatch(t: ThreadId, alive: bool)

  /** The thread is in no push and runs no queue. */
  predicate AtTop(jobs: J.State, t: ThreadId) {
    t in jobs.threads ==> jobs.threads[t].push.NoPush? && jobs.threads[t].exec.Idle?
  }

  /** A thread inside `Reserve` takes no step of the job runtime, and one inside `Distribute` only those
      of the push it is in. */
  predicate InRuntime(s: State, t: ThreadId) {
    && t !in s.timer.reserving
    && (AtTop(s.jobs, t) && t in s.timer.threads ==> s.timer.threads[t].Idle?)
  }

  /** The item that a dispatching thread hands over next. */
  function Taken(timer: T.State, t: ThreadId): T.Item
    requires t in timer.threads && timer.threads[t].Pushing? && timer.threads[t].next < |timer.threads[t].batch|
  {
    timer.threads[t].batch[timer.threads[t].next]
  }

  /** The call that hands it over. */
  function PushOf(x: T.Item, t: ThreadId): J.Action {
    J.CallPush(t, x.owner, x.job, true)
  }

  ghost predicate Enabled(s: State, a: Action) {
    match a
    case Run(b) => !b.CallPush? && J.Enabled(s.jobs, b) && InRuntime(s, b.t)
    case DoAsync(t, q, pushOnly) => J.Enabled(s.jobs, J.CallPush(t, q, s.made, pushOnly)) && InRuntime(s, t)
    case Time(b) =>
      && !b.ReadForReserve? && !b.PushOne? && T.Enabled(s.timer, b)
      && (b.Pass? || b.PushItem? || AtTop(s.jobs, b.t))
    case DoTimer(t, tickAfter, owner) =>
      && T.Enabled(s.timer, T.ReadForReserve(t, tickAfter, owner, s.made))
      && (AtTop(s.jobs, t) || (s.jobs.threads[t].exec.Batch? && s.jobs.threads[t].exec.running && s.jobs.threads[t].push.NoPush?))
    case Dispatch(t, alive) =>
      && T.Enabled(s.timer, T.PushOne(t)) && AtTop(s.jobs, t)
      && (alive ==> J.Enabled(s.jobs, PushOf(Taken(s.timer, t), t)))
  }

  ghost function Apply(s: State, a: Action): State
    requires Enabled(s, a)
  {
    match a
    case Run(b) => s.(jobs := J.Apply(s.jobs, b))
    case DoAsync(t, q, pushOnly) =>
      s.(jobs := J.Apply(s.jobs, J.CallPush(t, q, s.made, pushOnly)), made := s.made + 1, calls := s.calls[s.made := q])
    case Time(b) => s.(timer := T.Apply(s.timer, b))
    case DoTimer(t, tickAfter, owner) =>
      s.(timer := T.Apply(s.timer, T.ReadForReserve(t, tickAfter, owner, s.made)), made := s.made + 1,
         timed := s.timed[s.made := T.Reservation(s.timer.clock, tickAfter, owner, s.made)])
    case Dispatch(t, alive) =>
      var x := Taken(s.timer, t);
      var timer := T.Apply(s.timer, T.PushOne(t));
      if alive then s.(timer := timer, jobs := J.Apply(s.jobs, PushOf(x, t)), calls := s.calls[x.job := x.owner])
      else s.(timer := timer, expired := s.expired + {x.job})
  }

  ghost predicate Init(s: State) {
    J.Init(s.jobs) && T.Init(s.timer) && s.calls == map[] && s.timed == map[] && s.expired == {}
  }

  ghost predicate Next(s: State, s': State) {
    exists a: Action :: Enabled(s, a) && s' == Apply(s, a)
  }

  ghost predicate IsRun(run: seq<State>) {
    && run != []
    && Init(run[0])
    && forall i :: 0 <= i < |run| - 1 ==> Next(run[i], run[i + 1])
  }

  // ---------------------------------------------------------------- every call of Push

  /** Thread `t` has been asked to push `j` and has not put it into the queue yet. */
  predicate Pending(jobs: J.State, t: ThreadId, j: J.Job) {
    t in jobs.threads && (jobs.threads[t].push.Called? || jobs.threads[t].push.Counted?) && jobs.threads[t].push.job == j
  }

  predicate Pushed(jobs: J.State, q: QueueId, j: J.Job) {
    q in jobs.queues && j in jobs.queues[q].pushed
  }

  predicate Called(calls: map<Job, QueueId>, j: J.Job, q: QueueId) {
    j >= 0 && j as nat in calls && calls[j as nat] == q
  }

  predicate Distinct(js: seq<J.Job>) {
    forall i, k :: 0 <= i < k < |js| ==> js[i] != js[k]
  }

  /** What has been asked for is pending with one thread or has been pushed once to its queue, and
      nothing else is. */
  ghost predicate Accounted(jobs: J.State, calls: map<Job, QueueId>) {
    && (forall t: ThreadId, j: J.Job :: Pending(jobs, t, j) ==> Called(calls, j, jobs.threads[t].push.q))
    && (forall t: ThreadId, u: ThreadId, j: J.Job :: Pending(jobs, t, j) && Pending(jobs, u, j) ==> t == u)
    && (forall q: QueueId, j: J.Job :: Pushed(jobs, q, j) ==> Called(calls, j, q))
    && (forall q: QueueId, t: ThreadId, j: J.Job :: Pushed(jobs, q, j) ==> !Pending(jobs, t, j))
    && (forall q: QueueId :: q in jobs.queues ==> Distinct(jobs.queues[q].pushed))
    && (forall j :: j in calls ==> Pushed(jobs, calls[j], j) || exists t: ThreadId :: Pending(jobs, t, j))
  }

  /** Only calls and `LockQueue::Push` change what is pending and pushed. */
  lemma QuietStep(jobs: J.State, a: J.Action)
    requires J.Enabled(jobs, a) && !a.CallPush? && !a.Enqueue?
    ensures forall t: ThreadId, j: J.Job :: Pending(J.Apply(jobs, a), t, j) == Pending(jobs, t, j)
    ensures forall t: ThreadId, j: J.Job :: Pending(jobs, t, j) ==> J.Apply(jobs, a).threads[t].push.q == jobs.threads[t].push.q
    ensures forall q: QueueId, j: J.Job :: Pushed(J.Apply(jobs, a), q, j) == Pushed(jobs, q, j)
    ensures forall q: QueueId :: q in J.Apply(jobs, a).queues ==> q in jobs.queues && J.Apply(jobs, a).queues[q].pushed == jobs.queues[q].pushed
  {}

  lemma QuietAccounted(jobs: J.State, a: J.Action, calls: map<Job, QueueId>)
    requires J.Enabled(jobs, a) && !a.CallPush? && !a.Enqueue? && Accounted(jobs, calls)
    ensures Accounted(J.Apply(jobs, a), calls)
  {
    QuietStep(jobs, a);
    hide J.Enabled, J.Apply, Pending, Pushed, Called, Distinct;
  }

  lemma CallStep(jobs: J.State, t: ThreadId, q: QueueId, job: Job, pushOnly: bool)
    requires J.Enabled(jobs, J.CallPush(t, q, job, pushOnly))
    ensures var jobs' := J.Apply(jobs, J.CallPush(t, q, job, pushOnly));
      && (forall u: ThreadId, j: J.Job :: Pending(jobs', u, j) <==> Pending(jobs, u, j) || (u == t && j == job))
      && (forall u: ThreadId, j: J.Job :: Pending(jobs, u, j) ==> u != t && jobs'.threads[u].push.q == jobs.threads[u].push.q)
      && t in jobs'.threads && !jobs'.threads[t].push.NoPush? && jobs'.threads[t].push.q == q && jobs'.queues == jobs.queues
  {}

  lemma CallAccounted(jobs: J.State, t: ThreadId, q: QueueId, job: Job, pushOnly: bool, calls: map<Job, QueueId>)
    requires J.Enabled(jobs, J.CallPush(t, q, job, pushOnly)) && Accounted(jobs, calls) && job !in calls
    ensures Accounted(J.Apply(jobs, J.CallPush(t, q, job, pushOnly)), calls[job := q])
  {
    CallStep(jobs, t, q, job, pushOnly);
    hide J.Enabled, J.Apply, Pending, Distinct;
    var jobs', calls' := J.Apply(jobs, J.CallPush(t, q, job, pushOnly)), calls[job := q];
    forall r: QueueId, j: J.Job ensures Pushed(jobs', r, j) == Pushed(jobs, r, j) {}
    forall j: J.Job, r: QueueId | Called(calls, j, r) ensures Called(calls', j, r) && j != job {}
    forall j | j in calls' ensures Pushed(jobs', calls'[j], j) || exists u: ThreadId :: Pending(jobs', u, j) {
      if j == job {
        assert Pending(jobs', t, j);
      } else if !Pushed(jobs, calls[j], j) {
        var u: ThreadId :| Pending(jobs, u, j);
        assert Pending(jobs', u, j);
      }
    }
  }

  lemma DistinctMore(js: seq<J.Job>, j: J.Job)
    requires Distinct(js) && j !in js
    ensures Distinct(js + [j])
  {}

  lemma EnqueueStep(jobs: J.State, a: J.Action) returns (job: J.Job, q: QueueId)
    requires J.Enabled(jobs, a) && a.Enqueue?
    ensures Pending(jobs, a.t, job) && jobs.threads[a.t].push.q == q && q in jobs.queues
    ensures var jobs' := J.Apply(jobs, a);
      && (forall u: ThreadId, j: J.Job :: Pending(jobs', u, j) <==> Pending(jobs, u, j) && u != a.t)
      && (forall u: ThreadId, j: J.Job :: Pending(jobs', u, j) ==> jobs'.threads[u].push.q == jobs.threads[u].push.q)
      && jobs'.queues.Keys == jobs.queues.Keys
      && (forall r: QueueId :: r in jobs.queues && r != q ==> jobs'.queues[r].pushed == jobs.queues[r].pushed)
      && jobs'.queues[q].pushed == jobs.queues[q].pushed + [job]
  {
    job, q := jobs.threads[a.t].push.job, jobs.threads[a.t].push.q;
  }

  lemma EnqueueAccounted(jobs: J.State, a: J.Action, calls: map<Job, QueueId>)
    requires J.Enabled(jobs, a) && a.Enqueue? && Accounted(jobs, calls)
    ensures Accounted(J.Apply(jobs, a), calls)
  {
    hide J.Enabled, J.Apply, Distinct, Called, Pending;
    var jobs' := J.Apply(jobs, a);
    var job, q := EnqueueStep(jobs, a);
    assert q in jobs'.queues;
    forall r: QueueId, j: J.Job ensures Pushed(jobs', r, j) <==> Pushed(jobs, r, j) || (r == q && j == job) {}
    assert !Pushed(jobs, q, job);
    DistinctMore(jobs.queues[q].pushed, job);
    hide Pushed;
    CalledIs(calls, job, q);
    forall j | j in calls ensures Pushed(jobs', calls[j], j) || exists t: ThreadId :: Pending(jobs', t, j) {
      if !Pushed(jobs, calls[j], j) {
        var u: ThreadId :| Pending(jobs, u, j);
        if u == a.t {
          OnePending(jobs, u, j, job);
        } else {
          assert Pending(jobs', u, j);
        }
      }
    }
  }

  lemma CalledIs(calls: map<Job, QueueId>, j: J.Job, q: QueueId)
    requires Called(calls, j, q)
    ensures j >= 0 && j as nat in calls && calls[j as nat] == q
  {}

  lemma OnePending(jobs: J.State, t: ThreadId, j: J.Job, k: J.Job)
    requires Pending(jobs, t, j) && Pending(jobs, t, k)
    ensures j == k
  {}

  lemma RunAccounted(jobs: J.State, a: J.Action, calls: map<Job, QueueId>)
    requires J.Enabled(jobs, a) && !a.CallPush? && Accounted(jobs, calls)
    ensures Accounted(J.Apply(jobs, a), calls)
  {
    hide *;
    if a.Enqueue? {
      EnqueueAccounted(jobs, a, calls);
    } else {
      QuietAccounted(jobs, a, calls);
    }
  }

  // ---------------------------------------------------------------- every reservation

  predicate InReserve(reserving: map<ThreadId, T.Reservation>, j: Job) {
    exists t: ThreadId :: t in reserving && reserving[t].job == j
  }

  predicate IsTimed(timed: map<Job, T.Reservation>, r: T.Reservation) {
    r.job in timed && timed[r.job] == r
  }

  predicate IsTimedItem(timed: map<Job, T.Reservation>, x: T.Item) {
    x.job in timed && T.ItemOf(timed[x.job]) == x
  }

  /** What a thread is reserving is on record and not reserved yet, and no two threads reserve one job. */
  predicate Asked(reserving: map<ThreadId, T.Reservation>, reserved: multiset<T.Item>, timed: map<Job, T.Reservation>) {
    && (forall t: ThreadId :: t in reserving ==> IsTimed(timed, reserving[t]) && T.ItemOf(reserving[t]) !in reserved)
    && (forall t: ThreadId, u: ThreadId :: t in reserving && u in reserving && t != u ==> reserving[t].job != reserving[u].job)
  }

  /** What is reserved is on record and reserved once. */
  ghost predicate Once(reserved: multiset<T.Item>, timed: map<Job, T.Reservation>) {
    forall x :: x in reserved ==> IsTimedItem(timed, x) && reserved[x] == 1
  }

  /** Every job on record is being reserved or reserved. */
  predicate Placed(reserving: map<ThreadId, T.Reservation>, reserved: multiset<T.Item>, timed: map<Job, T.Reservation>) {
    forall j :: j in timed ==> timed[j].job == j && (InReserve(reserving, j) || T.ItemOf(timed[j]) in reserved)
  }

  ghost predicate Numbered(reserving: map<ThreadId, T.Reservation>, reserved: multiset<T.Item>, timed: map<Job, T.Reservation>) {
    Asked(reserving, reserved, timed) && Once(reserved, timed) && Placed(reserving, reserved, timed)
  }

  predicate OnLog(log: seq<T.Dispatch>, j: Job) {
    exists k :: 0 <= k < |log| && log[k].item.job == j
  }

  /** What has been dispatched was given to its owner's queue or had none, and no reserved job got
      anywhere else. */
  ghost predicate Fate(log: seq<T.Dispatch>, timed: map<Job, T.Reservation>, calls: map<Job, QueueId>, expired: set<Job>) {
    && (forall j :: j in timed && (j in calls || j in expired) ==> OnLog(log, j))
    && (forall k :: 0 <= k < |log| ==> log[k].item.job in expired || Called(calls, log[k].item.job, log[k].item.owner))
    && (forall j :: j in expired ==> j in timed && j !in calls)
  }

  lemma SameReservations(timer: T.State, a: T.Action)
    requires T.Enabled(timer, a) && !a.ReadForReserve? && !a.PushItem?
    ensures T.Apply(timer, a).reserving == timer.reserving && T.Apply(timer, a).reserved == timer.reserved
    ensures !a.PushOne? ==> T.Apply(timer, a).dispatched == timer.dispatched
  {}

  lemma PushItemStep(timer: T.State, a: T.Action)
    requires T.Enabled(timer, a) && a.PushItem?
    ensures a.t in timer.reserving
    ensures var timer' := T.Apply(timer, a); var x := T.ItemOf(timer.reserving[a.t]);
      && timer'.reserving == timer.reserving - {a.t} && timer'.reserved == timer.reserved + multiset{x}
      && timer'.dispatched == timer.dispatched
  {}

  lemma ItemKeepsJob(r: T.Reservation)
    ensures T.ItemOf(r).job == r.job && T.ItemOf(r).owner == r.owner
  {}

  lemma PushItemNumbered(reserving: map<ThreadId, T.Reservation>, reserved: multiset<T.Item>, timed: map<Job, T.Reservation>, t: ThreadId)
    requires Numbered(reserving, reserved, timed) && t in reserving
    ensures Numbered(reserving - {t}, reserved + multiset{T.ItemOf(reserving[t])}, timed)
  {
    hide T.ItemOf;
    var x, reserving' := T.ItemOf(reserving[t]), reserving - {t};
    var reserved' := reserved + multiset{x};
    ItemKeepsJob(reserving[t]);
    assert Asked(reserving', reserved', timed) by {
      forall u: ThreadId | u in reserving' ensures IsTimed(timed, reserving'[u]) && T.ItemOf(reserving'[u]) !in reserved' {
        ItemKeepsJob(reserving[u]);
      }
    }
    assert Once(reserved', timed) by { assert IsTimed(timed, reserving[t]); }
    hide Asked, Once;
    forall j | j in timed ensures InReserve(reserving', j) || T.ItemOf(timed[j]) in reserved' {
      if u: ThreadId :| u in reserving && reserving[u].job == j && u != t {
        assert u in reserving' && reserving'[u].job == j;
      } else if InReserve(reserving, j) {
        assert IsTimed(timed, reserving[t]) by { AskedIs(reserving, reserved, timed, t); }
      }
    }
  }

  lemma AskedIs(reserving: map<ThreadId, T.Reservation>, reserved: multiset<T.Item>, timed: map<Job, T.Reservation>, t: ThreadId)
    requires Asked(reserving, reserved, timed) && t in reserving
    ensures IsTimed(timed, reserving[t]) && T.ItemOf(reserving[t]) !in reserved
  {}

  lemma ReserveStep(timer: T.State, t: ThreadId, tickAfter: T.Tick, owner: QueueId, job: Job)
    requires T.Enabled(timer, T.ReadForReserve(t, tickAfter, owner, job))
    ensures var timer' := T.Apply(timer, T.ReadForReserve(t, tickAfter, owner, job));
      && t !in timer.reserving && timer'.reserving == timer.reserving[t := T.Reservation(timer.clock, tickAfter, owner, job)]
      && timer'.reserved == timer.reserved && timer'.dispatched == timer.dispatched
  {}

  lemma OnceMore(reserved: multiset<T.Item>, timed: map<Job, T.Reservation>, j: Job, r: T.Reservation)
    requires Once(reserved, timed) && j !in timed
    ensures Once(reserved, timed[j := r]) && forall x :: x in reserved ==> x.job != j
  {
    hide T.ItemOf;
    forall x | x in reserved ensures IsTimedItem(timed[j := r], x) && x.job != j && reserved[x] == 1 {
      assert IsTimedItem(timed, x);
    }
  }

  lemma AskedMore(reserving: map<ThreadId, T.Reservation>, reserved: multiset<T.Item>, timed: map<Job, T.Reservation>,
                  t: ThreadId, j: Job, r: T.Reservation)
    requires Asked(reserving, reserved, timed) && t !in reserving && j !in timed && r.job == j && T.ItemOf(r) !in reserved
    ensures Asked(reserving[t := r], reserved, timed[j := r])
  {
    hide T.ItemOf;
    forall u: ThreadId | u in reserving
      ensures IsTimed(timed[j := r], reserving[u]) && T.ItemOf(reserving[u]) !in reserved && reserving[u].job != j
    {
      assert IsTimed(timed, reserving[u]);
    }
    hide IsTimed;
    assert IsTimed(timed[j := r], r) by { RecordedIsTimed(timed, j, r); }
  }

  lemma RecordedIsTimed(timed: map<Job, T.Reservation>, j: Job, r: T.Reservation)
    requires r.job == j
    ensures IsTimed(timed[j := r], r)
  {}

  lemma PlacedMore(reserving: map<ThreadId, T.Reservation>, reserved: multiset<T.Item>, timed: map<Job, T.Reservation>,
                   t: ThreadId, j: Job, r: T.Reservation)
    requires Placed(reserving, reserved, timed) && t !in reserving && r.job == j
    ensures Placed(reserving[t := r], reserved, timed[j := r])
  {
    hide T.ItemOf;
    var reserving', timed' := reserving[t := r], timed[j := r];
    forall k | k in timed' ensures timed'[k].job == k && (InReserve(reserving', k) || T.ItemOf(timed'[k]) in reserved) {
      if k == j {
        assert reserving'[t].job == k;
      } else if InReserve(reserving, k) {
        var u: ThreadId :| u in reserving && reserving[u].job == k;
        assert u in reserving' && reserving'[u].job == k;
      }
    }
  }

  lemma ReserveNumbered(reserving: map<ThreadId, T.Reservation>, reserved: multiset<T.Item>, timed: map<Job, T.Reservation>,
                        t: ThreadId, j: Job, r: T.Reservation)
    requires Numbered(reserving, reserved, timed) && t !in reserving && j !in timed && r.job == j
    ensures Numbered(reserving[t := r], reserved, timed[j := r])
  {
    hide Asked, Once, Placed, T.ItemOf;
    ItemKeepsJob(r);
    OnceMore(reserved, timed, j, r);
    AskedMore(reserving, reserved, timed, t, j, r);
    PlacedMore(reserving, reserved, timed, t, j, r);
  }

  lemma InHandOnly(reserved: multiset<T.Item>, items: multiset<T.Item>, hand: multiset<T.Item>, log: multiset<T.Item>, x: T.Item)
    requires reserved == items + hand + log && x in hand
    ensures x in reserved && (reserved[x] == 1 ==> x !in log) && forall y :: y in log ==> y in reserved
  {}

  lemma NotOnLog(timer: T.State, timed: map<Job, T.Reservation>, x: T.Item)
    requires Numbered(timer.reserving, timer.reserved, timed) && x in timer.reserved && x !in T.ItemsOf(timer.dispatched)
    requires forall y :: y in T.ItemsOf(timer.dispatched) ==> y in timer.reserved
    ensures !OnLog(timer.dispatched, x.job)
  {
    hide T.ItemsOf, T.ItemOf;
    forall k | 0 <= k < |timer.dispatched| ensures timer.dispatched[k].item.job != x.job {
      T.LoggedIsDispatched(timer.dispatched, k);
      assert IsTimedItem(timed, timer.dispatched[k].item) && IsTimedItem(timed, x);
    }
  }

  /** What a thread is about to hand over has been reserved and has not been handed over before. */
  lemma DispatchIsFirst(timer: T.State, t: ThreadId, timed: map<Job, T.Reservation>, calls: map<Job, QueueId>, expired: set<Job>)
    requires TimerOk(timer) && T.Enabled(timer, T.PushOne(t)) && Numbered(timer.reserving, timer.reserved, timed) && Fate(timer.dispatched, timed, calls, expired)
    ensures var x := Taken(timer, t); IsTimedItem(timed, x) && x.job !in calls && x.job !in expired
  {
    var x, pc, log := Taken(timer, t), timer.threads[t], timer.dispatched;
    assert T.Busy(timer, t);
    assert x in T.InHand(pc) by { assert pc.batch[pc.next..][0] == x; }
    hide T.Enabled, T.Busy, T.InHand, T.ItemsOf, T.ItemOf;
    InHandOnly(timer.reserved, timer.items, T.InHand(pc), T.ItemsOf(log), x);
    NotOnLog(timer, timed, x);
  }

  lemma FateMore(log: seq<T.Dispatch>, d: T.Dispatch, timed: map<Job, T.Reservation>, calls: map<Job, QueueId>, expired: set<Job>,
                 calls': map<Job, QueueId>, expired': set<Job>)
    requires Fate(log, timed, calls, expired) && d.item.job in timed && d.item.job !in calls && d.item.job !in expired
    requires (calls' == calls[d.item.job := d.item.owner] && expired' == expired)
      || (calls' == calls && expired' == expired + {d.item.job})
    ensures Fate(log + [d], timed, calls', expired')
  {
    var log' := log + [d];
    forall j | j in timed && (j in calls' || j in expired') ensures OnLog(log', j) {
      if j == d.item.job {
        assert log'[|log|].item.job == j;
      } else {
        var k :| 0 <= k < |log| && log[k].item.job == j;
        assert log'[k].item.job == j;
      }
    }
    forall k | 0 <= k < |log'| ensures log'[k].item.job in expired' || Called(calls', log'[k].item.job, log'[k].item.owner) {
      assert k < |log| ==> log'[k] == log[k];
    }
  }

  lemma FateKept(log: seq<T.Dispatch>, timed: map<Job, T.Reservation>, calls: map<Job, QueueId>, expired: set<Job>, j: Job,
                 q: QueueId, r: T.Reservation)
    requires Fate(log, timed, calls, expired) && j !in timed && j !in calls
    ensures Fate(log, timed, calls[j := q], expired) && Fate(log, timed[j := r], calls, expired)
  {
    hide OnLog;
  }

  // ---------------------------------------------------------------- the joint invariant

  predicate Fresh(made: nat, calls: map<Job, QueueId>, timed: map<Job, T.Reservation>) {
    (forall j :: j in calls ==> j < made) && (forall j :: j in timed ==> j < made)
  }

  ghost predicate TimerOk(timer: T.State) {
    T.Inv(timer) && T.OnTime(timer)
  }

  ghost predicate Inv(s: State) {
    && J.Inv(s.jobs) && TimerOk(s.timer)
    && Accounted(s.jobs, s.calls)
    && Numbered(s.timer.reserving, s.timer.reserved, s.timed)
    && Fate(s.timer.dispatched, s.timed, s.calls, s.expired)
    && Fresh(s.made, s.calls, s.timed)
  }

  lemma TimerStep(timer: T.State, a: T.Action)
    requires TimerOk(timer) && T.Enabled(timer, a)
    ensures TimerOk(T.Apply(timer, a))
  {
    hide T.Inv, T.OnTime, T.Apply, T.Enabled;
    T.InvStep(timer, a);
    T.OnTimeStep(timer, a);
  }

  lemma RunStep(s: State, a: Action)
    requires Inv(s) && Enabled(s, a) && a.Run?
    ensures Inv(Apply(s, a))
  {
    hide J.Inv, J.Enabled, J.Apply, TimerOk, Accounted, Numbered, Fate, Fresh, InRuntime;
    J.InvStep(s.jobs, a.a);
    RunAccounted(s.jobs, a.a, s.calls);
  }

  lemma DoAsyncStep(s: State, a: Action)
    requires Inv(s) && Enabled(s, a) && a.DoAsync?
    ensures Inv(Apply(s, a))
  {
    hide J.Inv, J.Enabled, J.Apply, TimerOk, Accounted, Numbered, Fate, InRuntime;
    J.InvStep(s.jobs, J.CallPush(a.t, a.q, s.made, a.pushOnly));
    CallAccounted(s.jobs, a.t, a.q, s.made, a.pushOnly, s.calls);
    FateKept(s.timer.dispatched, s.timed, s.calls, s.expired, s.made, a.q, T.Reservation(0, 0, 0, 0));
  }

  lemma TimeStep(s: State, a: Action)
    requires Inv(s) && Enabled(s, a) && a.Time?
    ensures Inv(Apply(s, a))
  {
    hide J.Inv, T.Enabled, T.Apply, TimerOk, Accounted, Numbered, Fate, Fresh, AtTop;
    TimerStep(s.timer, a.b);
    if a.b.PushItem? {
      PushItemStep(s.timer, a.b);
      PushItemNumbered(s.timer.reserving, s.timer.reserved, s.timed, a.b.t);
    } else {
      SameReservations(s.timer, a.b);
    }
  }

  lemma DoTimerStep(s: State, a: Action)
    requires Inv(s) && Enabled(s, a) && a.DoTimer?
    ensures Inv(Apply(s, a))
  {
    hide J.Inv, T.Enabled, T.Apply, TimerOk, Accounted, Numbered, Fate, AtTop;
    var r := T.Reservation(s.timer.clock, a.tickAfter, a.owner, s.made);
    TimerStep(s.timer, T.ReadForReserve(a.t, a.tickAfter, a.owner, s.made));
    ReserveStep(s.timer, a.t, a.tickAfter, a.owner, s.made);
    ReserveNumbered(s.timer.reserving, s.timer.reserved, s.timed, a.t, s.made, r);
    FateKept(s.timer.dispatched, s.timed, s.calls, s.expired, s.made, 0, r);
  }

  lemma DispatchStep(s: State, a: Action)
    requires Inv(s) && Enabled(s, a) && a.Dispatch?
    ensures Inv(Apply(s, a))
  {
    hide J.Inv, J.Enabled, J.Apply, T.Enabled, T.Apply, T.ItemOf, TimerOk, Accounted, Numbered, Fate, AtTop;
    var push := T.PushOne(a.t);
    TimerStep(s.timer, push);
    SameReservations(s.timer, push);
    var pc, d := T.PushMeans(s.timer, push);
    var x := Taken(s.timer, a.t);
    DispatchIsFirst(s.timer, a.t, s.timed, s.calls, s.expired);
    FateMore(s.timer.dispatched, d, s.timed, s.calls, s.expired,
             if a.alive then s.calls[x.job := x.owner] else s.calls, if a.alive then s.expired else s.expired + {x.job});
    if a.alive {
      J.InvStep(s.jobs, PushOf(x, a.t));
      CallAccounted(s.jobs, a.t, x.owner, x.job, true, s.calls);
    }
  }

  lemma InvStep(s: State, a: Action)
    requires Inv(s) && Enabled(s, a)
    ensures Inv(Apply(s, a))
  {
    hide *;
    match a
    case Run(_) => RunStep(s, a);
    case DoAsync(_, _, _) => DoAsyncStep(s, a);
    case Time(_) => TimeStep(s, a);
    case DoTimer(_, _, _) => DoTimerStep(s, a);
    case Dispatch(_, _) => DispatchStep(s, a);
  }

  lemma FirstState(run: seq<State>)
    requires IsRun(run)
    ensures Inv(run[0])
  {
    var s := run[0];
    hide Next, J.Inv, T.Inv, T.OnTime;
    J.InitInv(s.jobs);
    T.InitInv(s.timer);
  }

  lemma StepOf(run: seq<State>, i: nat) returns (a: Action)
    requires IsRun(run) && i < |run| - 1
    ensures Enabled(run[i], a) && run[i + 1] == Apply(run[i], a)
  {
    hide Apply, Enabled, Init;
    assert Next(run[i], run[i + 1]);
    a :| Enabled(run[i], a) && run[i + 1] == Apply(run[i], a);
  }

  lemma {:induction false} InvAlways(run: seq<State>, i: nat)
    requires IsRun(run) && i < |run|
    ensures Inv(run[i])
  {
    hide *;
    if i == 0 {
      FirstState(run);
    } else {
      InvAlways(run, i - 1);
      var a := StepOf(run, i - 1);
      InvStep(run[i - 1], a);
    }
  }

  // ---------------------------------------------------------------- results over runs

  lemma ExecutedIsPrefix(jobs: J.State, q: QueueId)
    requires J.Inv(jobs) && q in jobs.queues
    ensures jobs.queues[q].executed <= jobs.queues[q].pushed
  {
    assert J.BooksOf(jobs, q);
    if t :| J.InBatch(jobs, t, q) {
      assert J.Conserved(jobs, q, jobs.threads[t].exec.jobs, jobs.threads[t].exec.next);
    }
  }

  /** Whoever makes a job, at once or by the timer: it runs at most once, and in the queue it was made
      for. */
  lemma EveryJobRunsOnce(run: seq<State>, i: nat, q: QueueId)
    requires IsRun(run) && i < |run| && q in run[i].jobs.queues
    ensures Distinct(run[i].jobs.queues[q].executed)
    ensures forall j :: j in run[i].jobs.queues[q].executed ==> Called(run[i].calls, j, q)
  {
    InvAlways(run, i);
    var s := run[i];
    hide IsRun, J.Inv, TimerOk, Numbered, Fate, Fresh, Called;
    ExecutedIsPrefix(s.jobs, q);
    forall j | j in s.jobs.queues[q].executed ensures Called(s.calls, j, q) {
      assert Pushed(s.jobs, q, j);
    }
  }

  /** Nothing is left to do: no thread is in the runtime or the timer, and both queues are empty. */
  ghost predicate Settled(s: State) {
    && J.Quiescent(s.jobs)
    && s.timer.items == multiset{} && s.timer.reserving == map[] && !s.timer.distributing
  }

  lemma {:induction false} DispatchedIsLogged(log: seq<T.Dispatch>, x: T.Item) returns (k: nat)
    requires x in T.ItemsOf(log)
    ensures k < |log| && log[k].item == x
  {
    if log[|log| - 1].item == x {
      k := |log| - 1;
    } else {
      k := DispatchedIsLogged(log[..|log| - 1], x);
    }
  }

  lemma SettledQueues(s: State, j: Job)
    requires J.Inv(s.jobs) && Accounted(s.jobs, s.calls) && J.Quiescent(s.jobs) && j in s.calls
    ensures s.calls[j] in s.jobs.queues && j in s.jobs.queues[s.calls[j]].executed
  {
    forall t: ThreadId ensures !Pending(s.jobs, t, j) {}
    hide J.Inv, J.Quiescent, Pending;
    J.QuiescentQueue(s.jobs, s.calls[j]);
  }

  lemma SettledTimer(s: State, j: Job)
    requires TimerOk(s.timer) && Numbered(s.timer.reserving, s.timer.reserved, s.timed) && j in s.timed
    requires Fate(s.timer.dispatched, s.timed, s.calls, s.expired)
    requires s.timer.items == multiset{} && s.timer.reserving == map[] && !s.timer.distributing
    ensures if j in s.expired then j !in s.calls else j in s.calls && s.calls[j] == s.timed[j].owner
  {
    var log := s.timer.dispatched;
    assert !InReserve(s.timer.reserving, j);
    assert T.ItemOf(s.timed[j]) in s.timer.reserved;
    assert s.timer.reserved == s.timer.items + T.ItemsOf(log);
    ItemKeepsJob(s.timed[j]);
    hide T.ItemOf, T.ItemsOf, TimerOk, OnLog;
    var k := DispatchedIsLogged(log, T.ItemOf(s.timed[j]));
    assert log[k].item.job == j;
  }

  /** When everything has settled, every reserved job has run once in its owner's queue, or has run
      nowhere because the owner was gone when its time came. */
  lemma ReservedJobRunsOnce(run: seq<State>, i: nat, j: Job)
    requires IsRun(run) && i < |run| && j in run[i].timed && Settled(run[i])
    ensures var s := run[i]; var owner := s.timed[j].owner;
      if j in s.expired then forall q: QueueId :: q in s.jobs.queues ==> j !in s.jobs.queues[q].executed
      else owner in s.jobs.queues && multiset(s.jobs.queues[owner].executed)[j] == 1
  {
    InvAlways(run, i);
    var s := run[i];
    hide J.Inv, TimerOk, Accounted, Numbered, Fate, Fresh, Distinct, Called;
    SettledTimer(s, j);
    if j in s.expired {
      forall q: QueueId | q in s.jobs.queues ensures j !in s.jobs.queues[q].executed {
        EveryJobRunsOnce(run, i, q);
        if Called(s.calls, j, q) { CalledIs(s.calls, j, q); }
      }
    } else {
      var owner := s.timed[j].owner;
      SettledQueues(s, j);
      EveryJobRunsOnce(run, i, owner);
      DistinctCount(s.jobs.queues[owner].executed, j);
    }
  }

  lemma {:induction false} DistinctCount(js: seq<J.Job>, j: J.Job)
    requires Distinct(js) && j in js
    ensures multiset(js)[j] == 1
  {
    var last := js[|js| - 1];
    assert js == js[..|js| - 1] + [last];
    if last == j {
      assert j !in js[..|js| - 1];
    } else {
      DistinctCount(js[..|js| - 1], j);
    }
  }

  lemma DelayFits(r: T.Reservation, d: T.Dispatch, clock: T.Tick)
    requires d.item == T.ItemOf(r) && T.DispatchOnTime(d, clock)
    ensures r.at + r.tickAfter <= d.at <==> r.at + r.tickAfter < T.TICKS
  {}

  lemma OnTimeAt(timer: T.State, k: nat)
    requires TimerOk(timer) && k < |timer.dispatched|
    ensures T.DispatchOnTime(timer.dispatched[k], timer.clock)
  {
    hide T.Inv, T.DispatchOnTime, T.PcOnTime;
  }

  /** The dispatch of a reserved job that has been given to a queue. */
  lemma DispatchOf(s: State, j: Job, q: QueueId) returns (k: nat)
    requires TimerOk(s.timer) && Numbered(s.timer.reserving, s.timer.reserved, s.timed)
    requires Fate(s.timer.dispatched, s.timed, s.calls, s.expired) && j in s.timed && Called(s.calls, j, q)
    ensures k < |s.timer.dispatched| && s.timer.dispatched[k].item == T.ItemOf(s.timed[j]) && q == s.timed[j].owner
  {
    hide T.ItemOf, TimerOk, Numbered;
    CalledIs(s.calls, j, q);
    assert OnLog(s.timer.dispatched, j);
    k :| 0 <= k < |s.timer.dispatched| && s.timer.dispatched[k].item.job == j;
    DispatchedIsTimed(s.timer, s.timed, k);
    ItemKeepsJob(s.timed[j]);
  }

  /** A reserved job that has run was dispatched before, no earlier than its delay after it was
      reserved exactly if that tick fits 64 bits. */
  lemma RunsNoEarlier(run: seq<State>, i: nat, j: Job, q: QueueId)
    requires IsRun(run) && i < |run| && j in run[i].timed && q in run[i].jobs.queues && j in run[i].jobs.queues[q].executed
    ensures var s := run[i]; var r := s.timed[j];
      && q == r.owner
      && exists k :: 0 <= k < |s.timer.dispatched| && s.timer.dispatched[k].item == T.ItemOf(r)
           && (r.at + r.tickAfter <= s.timer.dispatched[k].at <==> r.at + r.tickAfter < T.TICKS)
  {
    hide IsRun, J.Inv, TimerOk, Accounted, Numbered, Fate, Fresh, Distinct, Called, T.ItemOf, T.TICKS;
    InvAlways(run, i);
    EveryJobRunsOnce(run, i, q);
    var s := run[i];
    var k := DispatchOf(s, j, q);
    OnTimeAt(s.timer, k);
    DelayFits(s.timed[j], s.timer.dispatched[k], s.timer.clock);
  }

  lemma DispatchedIsTimed(timer: T.State, timed: map<Job, T.Reservation>, k: nat)
    requires TimerOk(timer) && Numbered(timer.reserving, timer.reserved, timed) && k < |timer.dispatched|
    ensures IsTimedItem(timed, timer.dispatched[k].item)
  {
    T.LoggedIsDispatched(timer.dispatched, k);
    hide T.ItemsOf, T.InHand, T.ItemOf, Asked, Placed;
    if timer.distributing {
      var t: ThreadId :| T.Busy(timer, t);
    }
    assert timer.dispatched[k].item in timer.reserved;
  }
}
