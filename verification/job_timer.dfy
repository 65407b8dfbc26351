/** The timer of `job/job_timer.cpp`: jobs reserved for a tick, handed to their queues when it is due.
    First one call of `Distribute` on the priority queue, then any number of threads that reserve and
    distribute at the same time. */
module JobTimers {

  type ThreadId = nat
  type QueueId = nat
  type Job = nat

  const TICKS := 0x1_0000_0000_0000_0000

  type Tick = t: nat | t < TICKS

  /** The tick at which something reserved at `at` is to be executed, in 64-bit arithmetic. */
  function ExecuteTick(at: Tick, tickAfter: Tick): Tick {
    (at + tickAfter) % TICKS
  }

  /** `TimerItem` and its `JobData`; the owner is a weak reference. */
  datatype Item = Item(executeTick: Tick, owner: QueueId, job: Job)

  /** How the priority queue compares items: the later one is the lesser, so that the top is the earliest. */
  predicate Less(a: Item, b: Item) {
    a.executeTick > b.executeTick
  }

  predicate Sorted(items: seq<Item>) {
    forall i, j :: 0 <= i < j < |items| ==> items[i].executeTick <= items[j].executeTick
  }

  /** `batch` is what is due of `before`, earliest first, and `after` is the rest. */
  ghost predicate Drained(before: multiset<Item>, now: Tick, batch: seq<Item>, after: multiset<Item>) {
    && multiset(batch) + after == before
    && Sorted(batch)
    && (forall i :: 0 <= i < |batch| ==> batch[i].executeTick <= now)
    && (forall x :: x in after ==> now < x.executeTick)
  }

  /** So every item is taken as often as it was reserved exactly if it is due. */
  lemma DrainedIsExact(before: multiset<Item>, now: Tick, batch: seq<Item>, after: multiset<Item>, x: Item)
    requires Drained(before, now, batch, after)
    ensures multiset(batch)[x] == if x.executeTick <= now then before[x] else 0
    ensures after[x] == if x.executeTick <= now then 0 else before[x]
  {
    if x in multiset(batch) {
      assert x in batch;
      var i :| 0 <= i < |batch| && batch[i] == x;
    }
    assert before[x] == multiset(batch)[x] + after[x];
  }

  /** The jobs of a batch whose owner still exists, in order. */
  function Dispatched(batch: seq<Item>, alive: set<QueueId>): seq<Item> {
    if batch == [] then []
    else
      var last := batch[|batch| - 1];
      Dispatched(batch[..|batch| - 1], alive) + (if last.owner in alive then [last] else [])
  }

  lemma {:induction false} DispatchedIsSorted(batch: seq<Item>, alive: set<QueueId>)
    requires Sorted(batch)
    ensures Sorted(Dispatched(batch, alive))
    ensures forall x :: x in Dispatched(batch, alive) ==> x in batch && x.owner in alive
  {
    if batch != [] {
      var init := batch[..|batch| - 1];
      assert forall i :: 0 <= i < |init| ==> init[i] == batch[i];
      DispatchedIsSorted(init, alive);
    }
  }

  /** Every item of a live owner is dispatched as often as it is in the batch, and no other item is. */
  lemma {:induction false} DispatchedIsExact(batch: seq<Item>, alive: set<QueueId>, x: Item)
    ensures multiset(Dispatched(batch, alive))[x] == if x.owner in alive then multiset(batch)[x] else 0
  {
    if batch != [] {
      var init := batch[..|batch| - 1];
      assert batch == init + [batch[|batch| - 1]];
      DispatchedIsExact(init, alive, x);
    }
  }

  /** The loop of `Distribute` so far: a sorted batch of due items, none later than what is left. */
  ghost predicate Taking(before: multiset<Item>, now: Tick, batch: seq<Item>, items: multiset<Item>) {
    && multiset(batch) + items == before
    && Sorted(batch)
    && (forall i :: 0 <= i < |batch| ==> batch[i].executeTick <= now)
    && (forall i, x :: 0 <= i < |batch| && x in items ==> batch[i].executeTick <= x.executeTick)
  }

  lemma TakeTop(before: multiset<Item>, now: Tick, batch: seq<Item>, items: multiset<Item>, top: Item)
    requires Taking(before, now, batch, items) && top in items && top.executeTick <= now
    requires forall x :: x in items ==> top.executeTick <= x.executeTick
    ensures Taking(before, now, batch + [top], items - multiset{top})
    ensures |items - multiset{top}| < |items|
  {}

  lemma StopTaking(before: multiset<Item>, now: Tick, batch: seq<Item>, items: multiset<Item>)
    requires Taking(before, now, batch, items) && forall x :: x in items ==> now < x.executeTick
    ensures Drained(before, now, batch, items)
  {
    hide Sorted;
  }

  class JobTimer {
    var items: multiset<Item>
    var distributing: bool
    var pushed: seq<Item>        // what the owners' queues were given, in order

    constructor ()
      ensures items == multiset{} && !distributing && pushed == []
    {
      items, distributing, pushed := multiset{}, false, [];
    }

    method Reserve(now: Tick, tickAfter: Tick, owner: QueueId, job: Job)
      modifies this`items
      ensures items == old(items) + multiset{Item(ExecuteTick(now, tickAfter), owner, job)}
    {
      items := items + multiset{Item(ExecuteTick(now, tickAfter), owner, job)};
    }

    /** The top of the priority queue, an item that is less than no other: it has the earliest tick. */
    method Top() returns (top: Item)
      requires items != multiset{}
      ensures top in items && forall x :: x in items ==> top.executeTick <= x.executeTick
    {
      ghost var any := Any(items);
      TopExists(items, any);
      top :| top in items && forall x :: x in items ==> !Less(top, x);
      assert forall x :: x in items ==> !Less(top, x) ==> top.executeTick <= x.executeTick;
    }

    /** The part under the lock. */
    method Drain(now: Tick) returns (batch: seq<Item>)
      modifies this`items
      ensures Drained(old(items), now, batch, items)
    {
      batch := [];
      assert Taking(items, now, [], items) by { assert multiset([]) + items == items; }
      while items != multiset{}
        invariant Taking(old(items), now, batch, items)
        decreases |items|
      {
        hide Taking, Drained;
        var item := Top();
        if now < item.executeTick {
          StopTaking(old(items), now, batch, items);
          return;
        }
        TakeTop(old(items), now, batch, items, item);
        batch := batch + [item];
        items := items - multiset{item};
      }
      StopTaking(old(items), now, batch, items);
    }

    method Distribute(now: Tick, alive: set<QueueId>)
      modifies this
      ensures old(distributing) ==> items == old(items) && pushed == old(pushed) && distributing
      ensures !old(distributing) ==> !distributing
      ensures !old(distributing) ==>
        exists batch :: Drained(old(items), now, batch, items) && pushed == old(pushed) + Dispatched(batch, alive)
    {
      var busy := distributing;
      distributing := true;
      if busy {
        return;
      }
      var batch := Drain(now);
      for i := 0 to |batch|
        invariant pushed == old(pushed) + Dispatched(batch[..i], alive)
        invariant Drained(old(items), now, batch, items)
      {
        assert batch[..i + 1][..i] == batch[..i];
        if batch[i].owner in alive {
          pushed := pushed + [batch[i]];
        }
      }
      assert batch[..|batch|] == batch;
      distributing := false;
    }
  }

  lemma {:induction false} TopExists(items: multiset<Item>, x: Item)
    requires x in items
    ensures exists top :: top in items && forall y :: y in items ==> !Less(top, y)
    decreases x.executeTick
  {
    if earlier :| earlier in items && Less(x, earlier) {
      TopExists(items, earlier);
    } else {
      assert forall y :: y in items ==> !Less(x, y);
    }
  }

  lemma Any<T>(items: multiset<T>) returns (x: T)
    requires items != multiset{}
    ensures x in items
  {
    x :| x in items;
  }

  // ---------------------------------------------------------------- many threads

  /** One call of `Reserve`, with the tick it read from the clock. */
  datatype Reservation = Reservation(at: Tick, tickAfter: Tick, owner: QueueId, job: Job)

  function ItemOf(r: Reservation): Item {
    Item(ExecuteTick(r.at, r.tickAfter), r.owner, r.job)
  }

  datatype Pc =
    | Idle
    | Called(now: Tick)                                    // has read the clock for `Distribute`
    | Entered(now: Tick)                                   // its exchange found the flag clear
    | Pushing(now: Tick, batch: seq<Item>, next: nat)      // between its drain and its store

  /** An item taken from a batch: the tick its thread was called with, and the tick it happened at. */
  datatype Dispatch = Dispatch(item: Item, now: Tick, at: Tick)

  /** `reserving` holds what a thread has asked for and not yet pushed: it is inside `Reserve`, at top
      level or called by a job that its own dispatch is running.  `reservations`, `reserved` and
      `dispatched` are histories: the reservations made, the items they pushed, and every item taken
      from a batch. */
  datatype State = State(clock: Tick, items: multiset<Item>, distributing: bool, threads: map<ThreadId, Pc>,
                         reserving: map<ThreadId, Reservation>,
                         reservations: set<Reservation>, reserved: multiset<Item>, dispatched: seq<Dispatch>)

  datatype Action =
    | Pass(clock: Tick)
    | ReadForReserve(t: ThreadId, tickAfter: Tick, owner: QueueId, job: Job)
    | PushItem(t: ThreadId)
    | ReadNow(t: ThreadId)
    | Exchange(t: ThreadId)
    | DrainDue(t: ThreadId, batch: seq<Item>, rest: multiset<Item>)
    | PushOne(t: ThreadId)
    | StoreFalse(t: ThreadId)

  ghost predicate Enabled(s: State, a: Action) {
    if a.Pass? then s.clock <= a.clock
    else if a.PushItem? then a.t in s.reserving
    else a.t in s.threads && a.t !in s.reserving && var pc := s.threads[a.t];
      match a
      case ReadForReserve(_, _, _, _) => pc.Idle? || pc.Pushing?
      case ReadNow(_) => pc.Idle?
      case Exchange(_) => pc.Called?
      case DrainDue(_, batch, rest) => pc.Entered? && Drained(s.items, pc.now, batch, rest)
      case PushOne(_) => pc.Pushing? && pc.next < |pc.batch|
      case StoreFalse(_) => pc.Pushing? && pc.next >= |pc.batch|
  }

  ghost function Apply(s: State, a: Action): State
    requires Enabled(s, a)
  {
    match a
    case Pass(clock) => s.(clock := clock)
    case ReadForReserve(t, tickAfter, owner, job) =>
      s.(reserving := s.reserving[t := Reservation(s.clock, tickAfter, owner, job)])
    case PushItem(t) =>
      var r := s.reserving[t];
      s.(items := s.items + multiset{ItemOf(r)}, reservations := s.reservations + {r},
         reserved := s.reserved + multiset{ItemOf(r)}, reserving := s.reserving - {t})
    case ReadNow(t) => s.(threads := s.threads[t := Called(s.clock)])
    case Exchange(t) =>
      s.(distributing := true, threads := s.threads[t := if s.distributing then Idle else Entered(s.threads[t].now)])
    case DrainDue(t, batch, rest) =>
      s.(items := rest, threads := s.threads[t := Pushing(s.threads[t].now, batch, 0)])
    case PushOne(t) =>
      var pc := s.threads[t];
      s.(dispatched := s.dispatched + [Dispatch(pc.batch[pc.next], pc.now, s.clock)],
         threads := s.threads[t := pc.(next := pc.next + 1)])
    case StoreFalse(t) => s.(distributing := false, threads := s.threads[t := Idle])
  }

  ghost predicate Init(s: State) {
    && s.items == s.reserved == multiset{} && s.reservations == {} && s.reserving == map[] && !s.distributing && s.dispatched == []
    && forall t: ThreadId :: t in s.threads ==> s.threads[t].Idle?
  }

  ghost predicate Next(s: State, s': State) {
    exists a: Action :: Enabled(s, a) && s' == Apply(s, a)
  }

  ghost predicate IsRun(run: seq<State>) {
    && run != []
    && Init(run[0])
    && forall i :: 0 <= i < |run| - 1 ==> Next(run[i], run[i + 1])
  }

  /** Thread `t` is between the exchange that let it in and its store. */
  predicate Busy(s: State, t: ThreadId) {
    t in s.threads && (s.threads[t].Entered? || s.threads[t].Pushing?)
  }

  function ItemsOf(log: seq<Dispatch>): multiset<Item> {
    if log == [] then multiset{} else ItemsOf(log[..|log| - 1]) + multiset{log[|log| - 1].item}
  }

  /** What the thread at work has taken and not yet handed over. */
  function InHand(pc: Pc): multiset<Item> {
    if pc.Pushing? && pc.next <= |pc.batch| then multiset(pc.batch[pc.next..]) else multiset{}
  }

  /** The books balance whichever thread is at work, and without any. */
  ghost predicate Inv(s: State) {
    && (forall t: ThreadId, u: ThreadId :: Busy(s, t) && Busy(s, u) ==> t == u)
    && (s.distributing <==> exists t: ThreadId :: Busy(s, t))
    && (forall t: ThreadId :: Busy(s, t) ==> s.reserved == s.items + InHand(s.threads[t]) + ItemsOf(s.dispatched))
    && (!s.distributing ==> s.reserved == s.items + ItemsOf(s.dispatched))
  }

  predicate PcOnTime(pc: Pc, clock: Tick) {
    && (pc.Called? || pc.Entered? || pc.Pushing? ==> pc.now <= clock)
    && (pc.Pushing? ==> pc.next <= |pc.batch| && Sorted(pc.batch))
    && (pc.Pushing? ==> forall i :: 0 <= i < |pc.batch| ==> pc.batch[i].executeTick <= pc.now)
  }

  predicate Reserved(x: Item, reservations: set<Reservation>) {
    exists r :: r in reservations && ItemOf(r) == x
  }

  predicate DispatchOnTime(d: Dispatch, clock: Tick) {
    d.item.executeTick <= d.now <= d.at <= clock
  }

  /** No clock reading lies ahead, nothing in hand or dispatched was early, and every item was reserved. */
  ghost predicate OnTime(s: State) {
    && (forall t: ThreadId :: t in s.threads ==> PcOnTime(s.threads[t], s.clock))
    && (forall x :: x in s.reserved ==> Reserved(x, s.reservations))
    && (forall i :: 0 <= i < |s.dispatched| ==> DispatchOnTime(s.dispatched[i], s.clock))
  }

  // ---------------------------------------------------------------- the books

  lemma Regroup(reserved: multiset<Item>, items: multiset<Item>, hand: multiset<Item>, log: multiset<Item>,
                hand': multiset<Item>, log': multiset<Item>)
    requires reserved == items + hand + log && hand + log == hand' + log'
    ensures reserved == items + hand' + log'
  {
    assert items + hand + log == items + (hand + log);
    assert items + hand' + log' == items + (hand' + log');
  }

  lemma InHandStep(pc: Pc, log: seq<Dispatch>, d: Dispatch)
    requires pc.Pushing? && pc.next < |pc.batch| && d.item == pc.batch[pc.next]
    ensures InHand(pc) + ItemsOf(log) == InHand(pc.(next := pc.next + 1)) + ItemsOf(log + [d])
  {
    assert pc.batch[pc.next..] == [pc.batch[pc.next]] + pc.batch[pc.next + 1..];
    assert (log + [d])[..|log + [d]| - 1] == log;
  }

  lemma Others(s: State, a: Action, t: ThreadId)
    requires Enabled(s, a) && (a.Pass? || t != a.t)
    ensures Busy(Apply(s, a), t) == Busy(s, t)
    ensures t in Apply(s, a).threads <==> t in s.threads
    ensures t in s.threads ==> Apply(s, a).threads[t] == s.threads[t]
  {}

  /** A step by which nobody gets to work or stops, and by which the distributor's part stays. */
  lemma SameWorkers(s: State, s': State)
    requires Inv(s) && s'.distributing == s.distributing && s'.dispatched == s.dispatched
    requires forall t: ThreadId :: Busy(s', t) <==> Busy(s, t)
    requires forall t: ThreadId :: Busy(s', t) && Busy(s, t) ==> s'.threads[t] == s.threads[t]
    requires s'.items == s.items && s'.reserved == s.reserved
    ensures Inv(s')
  {
    hide InHand, ItemsOf;
  }

  lemma OutsideStep(s: State, a: Action)
    requires Inv(s) && Enabled(s, a)
    requires a.Pass? || a.ReadForReserve? || a.ReadNow? || (a.Exchange? && s.distributing)
    ensures Inv(Apply(s, a))
  {
    hide Inv;
    var s' := Apply(s, a);
    forall t: ThreadId ensures Busy(s', t) == Busy(s, t) && (Busy(s, t) ==> s'.threads[t] == s.threads[t]) {
      if !a.Pass? && t == a.t {} else { Others(s, a, t); }
    }
    SameWorkers(s, s');
  }

  lemma OneMore(reserved: multiset<Item>, items: multiset<Item>, hand: multiset<Item>, log: multiset<Item>, x: Item)
    requires reserved == items + hand + log
    ensures reserved + multiset{x} == items + multiset{x} + hand + log
  {}

  lemma ReserveStep(s: State, a: Action)
    requires Inv(s) && Enabled(s, a) && a.PushItem?
    ensures Inv(Apply(s, a))
  {
    var s', x := Apply(s, a), ItemOf(s.reserving[a.t]);
    assert s'.items == s.items + multiset{x} && s'.reserved == s.reserved + multiset{x};
    assert s'.distributing == s.distributing && s'.dispatched == s.dispatched;
    forall t: ThreadId ensures Busy(s', t) == Busy(s, t) && (Busy(s, t) ==> s'.threads[t] == s.threads[t]) {
      if t != a.t { Others(s, a, t); }
    }
    hide InHand, ItemsOf, Apply, Enabled, ItemOf, Busy;
    forall t: ThreadId | Busy(s, t)
      ensures s'.reserved == s'.items + InHand(s.threads[t]) + ItemsOf(s.dispatched)
    {
      OneMore(s.reserved, s.items, InHand(s.threads[t]), ItemsOf(s.dispatched), x);
    }
  }

  lemma EnterStep(s: State, a: Action)
    requires Inv(s) && Enabled(s, a) && a.Exchange? && !s.distributing
    ensures Inv(Apply(s, a))
  {
    var s', t := Apply(s, a), a.t;
    hide ItemsOf;
    forall u: ThreadId ensures Busy(s', u) <==> u == t { if u != t { Others(s, a, u); } }
    assert Busy(s', t) && s.items + multiset{} == s.items;
  }

  lemma Moved(items: multiset<Item>, batch: seq<Item>, rest: multiset<Item>, log: multiset<Item>)
    requires multiset(batch) + rest == items
    ensures items + multiset{} + log == rest + multiset(batch) + log
  {}

  lemma DrainStep(s: State, a: Action)
    requires Inv(s) && Enabled(s, a) && a.DrainDue?
    ensures Inv(Apply(s, a))
  {
    var s', t := Apply(s, a), a.t;
    assert Busy(s, t) && Busy(s', t);
    forall u: ThreadId ensures Busy(s', u) <==> u == t { if u != t { Others(s, a, u); } }
    hide ItemsOf, Sorted;
    assert a.batch[0..] == a.batch;
    Moved(s.items, a.batch, a.rest, ItemsOf(s.dispatched));
  }

  lemma PushMeans(s: State, a: Action) returns (pc: Pc, d: Dispatch)
    requires Enabled(s, a) && a.PushOne?
    ensures a.t in s.threads && s.threads[a.t] == pc && pc.Pushing? && pc.next < |pc.batch| && d.item == pc.batch[pc.next]
    ensures var s' := Apply(s, a);
      && s'.threads == s.threads[a.t := pc.(next := pc.next + 1)] && s'.dispatched == s.dispatched + [d]
      && s'.items == s.items && s'.reserved == s.reserved && s'.distributing == s.distributing
  {
    pc, d := s.threads[a.t], Dispatch(s.threads[a.t].batch[s.threads[a.t].next], s.threads[a.t].now, s.clock);
  }

  lemma PushStep(s: State, a: Action)
    requires Inv(s) && Enabled(s, a) && a.PushOne?
    ensures Inv(Apply(s, a))
  {
    hide Apply, Enabled, ItemsOf, InHand;
    var s', t := Apply(s, a), a.t;
    var pc, d := PushMeans(s, a);
    assert Busy(s, t) && Busy(s', t);
    forall u: ThreadId ensures Busy(s', u) <==> u == t {
      if u != t { assert Busy(s', u) == Busy(s, u); }
    }
    InHandStep(pc, s.dispatched, d);
    Regroup(s.reserved, s.items, InHand(pc), ItemsOf(s.dispatched), InHand(s'.threads[t]), ItemsOf(s'.dispatched));
  }

  lemma StoreStep(s: State, a: Action)
    requires Inv(s) && Enabled(s, a) && a.StoreFalse?
    ensures Inv(Apply(s, a))
  {
    var s', t := Apply(s, a), a.t;
    assert Busy(s, t);
    forall u: ThreadId ensures !Busy(s', u) { if u != t { Others(s, a, u); } }
    hide ItemsOf;
    assert InHand(s.threads[t]) == multiset{};
    assert s.items + multiset{} == s.items;
  }

  lemma InvStep(s: State, a: Action)
    requires Inv(s) && Enabled(s, a)
    ensures Inv(Apply(s, a))
  {
    hide *;
    match a
    case Exchange(_) => if s.distributing { OutsideStep(s, a); } else { EnterStep(s, a); }
    case PushItem(_) => ReserveStep(s, a);
    case DrainDue(_, _, _) => DrainStep(s, a);
    case PushOne(_) => PushStep(s, a);
    case StoreFalse(_) => StoreStep(s, a);
    case _ => OutsideStep(s, a);
  }

  // ---------------------------------------------------------------- the clock

  lemma ThreadsOnTime(s: State, a: Action)
    requires OnTime(s) && Enabled(s, a)
    ensures s.clock <= Apply(s, a).clock
    ensures forall t: ThreadId :: t in Apply(s, a).threads ==> PcOnTime(Apply(s, a).threads[t], Apply(s, a).clock)
  {
    var s' := Apply(s, a);
    forall t: ThreadId | t in s'.threads ensures PcOnTime(s'.threads[t], s'.clock) {
      if a.Pass? || t != a.t {
        Others(s, a, t);
        hide Apply, Enabled, Sorted;
        assert PcOnTime(s.threads[t], s.clock);
      } else {
        hide Sorted;
        assert PcOnTime(s.threads[t], s.clock);
      }
    }
  }

  lemma OnTimeStep(s: State, a: Action)
    requires OnTime(s) && Enabled(s, a)
    ensures OnTime(Apply(s, a))
  {
    var s' := Apply(s, a);
    ThreadsOnTime(s, a);
    if a.PushOne? {
      assert PcOnTime(s.threads[a.t], s.clock);
    }
    hide PcOnTime, ItemOf;
    forall x | x in s'.reserved ensures Reserved(x, s'.reservations) {
      if x in s.reserved {
        assert Reserved(x, s.reservations);
        var r :| r in s.reservations && ItemOf(r) == x;
        assert r in s'.reservations;
      } else {
        assert s.reserving[a.t] in s'.reservations;
      }
    }
  }

  // ---------------------------------------------------------------- when a reservation is due

  /** What was reserved at `at` with a delay is due at a tick if the delay is over by then; a sum beyond
      64 bits starts again at zero. */
  lemma DueExactly(r: Reservation, now: Tick)
    ensures ItemOf(r).owner == r.owner && ItemOf(r).job == r.job
    ensures r.at + r.tickAfter < TICKS ==> (ItemOf(r).executeTick <= now <==> r.at + r.tickAfter <= now)
    ensures r.at + r.tickAfter >= TICKS ==> (ItemOf(r).executeTick <= now <==> r.at + r.tickAfter - TICKS <= now)
  {
    var sum := r.at + r.tickAfter;
    if sum >= TICKS { assert sum % TICKS == sum - TICKS; }
  }

  /** So every drain called at `at + tickAfter` or later takes all there is of it, and every earlier one
      leaves all of it. */
  lemma TakenWhenDue(r: Reservation, before: multiset<Item>, now: Tick, batch: seq<Item>, after: multiset<Item>)
    requires Drained(before, now, batch, after) && r.at + r.tickAfter < TICKS
    ensures var x := ItemOf(r);
      if r.at + r.tickAfter <= now then multiset(batch)[x] == before[x] && after[x] == 0
      else multiset(batch)[x] == 0 && after[x] == before[x]
  {
    hide Drained, ItemOf;
    DueExactly(r, now);
    DrainedIsExact(before, now, batch, after, ItemOf(r));
  }

  // ---------------------------------------------------------------- results over runs

  lemma StepOf(run: seq<State>, i: nat) returns (a: Action)
    requires IsRun(run) && i < |run| - 1
    ensures Enabled(run[i], a) && run[i + 1] == Apply(run[i], a)
  {
    hide Apply, Enabled, Init;
    assert Next(run[i], run[i + 1]);
    a :| Enabled(run[i], a) && run[i + 1] == Apply(run[i], a);
  }

  lemma InitInv(s: State)
    requires Init(s)
    ensures Inv(s) && OnTime(s)
  {
    assert ItemsOf(s.dispatched) == multiset{};
    forall t: ThreadId ensures !Busy(s, t) {}
  }

  lemma FirstState(run: seq<State>)
    requires IsRun(run)
    ensures Inv(run[0]) && OnTime(run[0])
  {
    hide Init, Next, Inv, OnTime;
    InitInv(run[0]);
  }

  lemma {:induction false} InvAlways(run: seq<State>, i: nat)
    requires IsRun(run) && i < |run|
    ensures Inv(run[i]) && OnTime(run[i])
  {
    hide *;
    if i == 0 {
      FirstState(run);
    } else {
      InvAlways(run, i - 1);
      var a := StepOf(run, i - 1);
      InvStep(run[i - 1], a);
      OnTimeStep(run[i - 1], a);
    }
  }

  /** At most one thread distributes at a time. */
  lemma OneDistributor(run: seq<State>, i: nat, t: ThreadId, u: ThreadId)
    requires IsRun(run) && i < |run| && Busy(run[i], t) && Busy(run[i], u)
    ensures t == u
  {
    InvAlways(run, i);
  }

  /** Every reserved item is in the queue, in the hands of the one distributor or dispatched, and in
      one of these places only; without a distributor nothing is in between. */
  lemma NothingLost(run: seq<State>, i: nat)
    requires IsRun(run) && i < |run|
    ensures forall t: ThreadId :: Busy(run[i], t) ==> run[i].reserved == run[i].items + InHand(run[i].threads[t]) + ItemsOf(run[i].dispatched)
    ensures (forall t: ThreadId :: !Busy(run[i], t)) ==> run[i].reserved == run[i].items + ItemsOf(run[i].dispatched)
  {
    InvAlways(run, i);
  }

  lemma {:induction false} LoggedIsDispatched(log: seq<Dispatch>, k: nat)
    requires k < |log|
    ensures log[k].item in ItemsOf(log)
  {
    if k < |log| - 1 {
      LoggedIsDispatched(log[..|log| - 1], k);
    }
  }

  lemma DispatchedWasReserved(s: State, k: nat)
    requires Inv(s) && OnTime(s) && k < |s.dispatched|
    ensures Reserved(s.dispatched[k].item, s.reservations)
  {
    LoggedIsDispatched(s.dispatched, k);
    hide ItemsOf, InHand, Reserved;
    if s.distributing {
      var t: ThreadId :| Busy(s, t);
    }
    assert s.dispatched[k].item in s.reserved;
  }

  /** What is dispatched was reserved, and it happens no earlier than the delay after the reservation
      asked for, except exactly when that sum left 64 bits. */
  lemma NothingEarly(run: seq<State>, i: nat, k: nat)
    requires IsRun(run) && i < |run| && k < |run[i].dispatched|
    ensures Reserved(run[i].dispatched[k].item, run[i].reservations)
    ensures forall r :: r in run[i].reservations && ItemOf(r) == run[i].dispatched[k].item ==>
      (r.at + r.tickAfter <= run[i].dispatched[k].at <==> r.at + r.tickAfter < TICKS)
  {
    InvAlways(run, i);
    DispatchedWasReserved(run[i], k);
    hide Inv, IsRun, Reserved;
    assert DispatchOnTime(run[i].dispatched[k], run[i].clock);
  }
}
