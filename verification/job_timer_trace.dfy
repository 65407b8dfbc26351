/** Runs of the timer together with the actions that made them: what was reserved is what was asked for,
    at the tick it was asked, and a call of `Distribute` takes what was due when it was called. */
module TimerTraces {
  import opened Basics
  import opened JobTimers

  ghost predicate IsTrace(run: seq<State>, acts: seq<Action>) {
    && |run| == |acts| + 1
    && Init(run[0])
    && forall i :: 0 <= i < |acts| ==> Enabled(run[i], acts[i]) && run[i + 1] == Apply(run[i], acts[i])
  }

  lemma TraceStep(run: seq<State>, acts: seq<Action>, i: nat)
    requires IsTrace(run, acts) && i < |acts|
    ensures Enabled(run[i], acts[i]) && run[i + 1] == Apply(run[i], acts[i])
  {
    hide Enabled, Apply, Init;
  }

  lemma TraceIsRun(run: seq<State>, acts: seq<Action>)
    requires IsTrace(run, acts)
    ensures IsRun(run)
  {
    hide Enabled, Apply, Init;
    forall i | 0 <= i < |run| - 1 ensures Next(run[i], run[i + 1]) {
      assert Enabled(run[i], acts[i]);
    }
  }

  // ---------------------------------------------------------------- what was asked for

  predicate IsReserve(a: Action, t: ThreadId) {
    a.ReadForReserve? && a.t == t
  }

  /** The latest call of `Reserve` by the thread, with the clock it read. */
  function LatestReserve(run: seq<State>, acts: seq<Action>, t: ThreadId, i: nat): Option<Reservation>
    requires i <= |acts| < |run|
  {
    if i == 0 then None
    else if IsReserve(acts[i - 1], t) then
      var a := acts[i - 1];
      Some(Reservation(run[i - 1].clock, a.tickAfter, a.owner, a.job))
    else LatestReserve(run, acts, t, i - 1)
  }

  /** The items of all calls of `Reserve` that are over. */
  function Asked(run: seq<State>, acts: seq<Action>, i: nat): multiset<Item>
    requires i <= |acts| < |run|
  {
    if i == 0 then multiset{}
    else if acts[i - 1].PushItem? && LatestReserve(run, acts, acts[i - 1].t, i - 1).Some? then
      Asked(run, acts, i - 1) + multiset{ItemOf(LatestReserve(run, acts, acts[i - 1].t, i - 1).value)}
    else Asked(run, acts, i - 1)
  }

  lemma ReservingStep(s: State, a: Action, t: ThreadId)
    requires Enabled(s, a) && t in Apply(s, a).reserving
    ensures IsReserve(a, t) ==> Apply(s, a).reserving[t] == Reservation(s.clock, a.tickAfter, a.owner, a.job)
    ensures !IsReserve(a, t) ==> t in s.reserving && Apply(s, a).reserving[t] == s.reserving[t]
  {}

  lemma {:induction false} ReservingIsTheLatest(run: seq<State>, acts: seq<Action>, t: ThreadId, i: nat)
    requires IsTrace(run, acts) && i <= |acts| && t in run[i].reserving
    ensures LatestReserve(run, acts, t, i) == Some(run[i].reserving[t])
  {
    if i > 0 {
      TraceStep(run, acts, i - 1);
      ReservingStep(run[i - 1], acts[i - 1], t);
      hide Enabled, Apply, Init;
      if !IsReserve(acts[i - 1], t) { ReservingIsTheLatest(run, acts, t, i - 1); }
    }
  }

  lemma ReservedStep(s: State, a: Action)
    requires Enabled(s, a)
    ensures a.PushItem? ==> a.t in s.reserving && Apply(s, a).reserved == s.reserved + multiset{ItemOf(s.reserving[a.t])}
    ensures !a.PushItem? ==> Apply(s, a).reserved == s.reserved
  {
    hide ItemOf;
  }

  lemma AskedStep(run: seq<State>, acts: seq<Action>, i: nat)
    requires i < |acts| < |run|
    ensures !acts[i].PushItem? ==> Asked(run, acts, i + 1) == Asked(run, acts, i)
    ensures acts[i].PushItem? && LatestReserve(run, acts, acts[i].t, i).Some? ==>
      Asked(run, acts, i + 1) == Asked(run, acts, i) + multiset{ItemOf(LatestReserve(run, acts, acts[i].t, i).value)}
  {
    hide ItemOf, LatestReserve;
  }

  /** The items pushed are those of the calls: each for the clock reading, the delay, the owner and the
      job of its call, and once for every call. */
  lemma {:induction false} ReservedIsAsked(run: seq<State>, acts: seq<Action>, i: nat)
    requires IsTrace(run, acts) && i <= |acts|
    ensures run[i].reserved == Asked(run, acts, i)
  {
    if i > 0 {
      var s, a := run[i - 1], acts[i - 1];
      hide *;
      TraceShape(run, acts);
      TraceStep(run, acts, i - 1);
      ReservedStep(s, a);
      if a.PushItem? { ReservingIsTheLatest(run, acts, a.t, i - 1); }
      ReservedIsAsked(run, acts, i - 1);
      AskedStep(run, acts, i - 1);
    }
  }

  lemma TraceShape(run: seq<State>, acts: seq<Action>)
    requires IsTrace(run, acts)
    ensures |run| == |acts| + 1
  {
    hide Enabled, Apply, Init;
  }

  // ---------------------------------------------------------------- what a call takes

  /** Since its call of `Distribute` at step `k` the thread has not called it again. */
  ghost predicate SameCall(acts: seq<Action>, t: ThreadId, k: nat, j: nat) {
    && k < j <= |acts| && acts[k] == ReadNow(t)
    && forall m :: k < m < j ==> acts[m] != ReadNow(t)
  }

  lemma NowStep(s: State, a: Action, t: ThreadId, now: Tick)
    requires Enabled(s, a) && t in s.threads && a != ReadNow(t) && (!s.threads[t].Idle? ==> s.threads[t].now == now)
    ensures t in Apply(s, a).threads && (!Apply(s, a).threads[t].Idle? ==> Apply(s, a).threads[t].now == now)
  {
    hide Drained;
  }

  lemma {:induction false} NowIsTheClock(run: seq<State>, acts: seq<Action>, t: ThreadId, k: nat, j: nat)
    requires IsTrace(run, acts) && SameCall(acts, t, k, j)
    ensures t in run[j].threads && (!run[j].threads[t].Idle? ==> run[j].threads[t].now == run[k].clock)
    decreases j
  {
    hide *;
    TraceShape(run, acts);
    SameCallShape(acts, t, k, j);
    TraceStep(run, acts, j - 1);
    if j == k + 1 {
      ReadsClock(run[k], acts[k]);
    } else {
      NowIsTheClock(run, acts, t, k, j - 1);
      NowStep(run[j - 1], acts[j - 1], t, run[k].clock);
    }
  }

  lemma SameCallShape(acts: seq<Action>, t: ThreadId, k: nat, j: nat)
    requires SameCall(acts, t, k, j)
    ensures k < j <= |acts| && acts[k] == ReadNow(t)
    ensures j > k + 1 ==> SameCall(acts, t, k, j - 1) && acts[j - 1] != ReadNow(t)
  {}

  lemma ReadsClock(s: State, a: Action)
    requires Enabled(s, a)
    ensures a.ReadNow? ==> a.t in Apply(s, a).threads && Apply(s, a).threads[a.t] == Called(s.clock)
  {
    hide Drained;
  }

  /** A drain, in a call that read the clock at step `k`, takes every copy of a reservation whose delay
      was over then, so that none is left in the queue, and leaves every copy of any other. */
  lemma DrainTakesWhatIsDue(run: seq<State>, acts: seq<Action>, t: ThreadId, k: nat, j: nat, r: Reservation)
    requires IsTrace(run, acts) && SameCall(acts, t, k, j) && j < |acts| && acts[j].DrainDue? && acts[j].t == t
    requires r.at + r.tickAfter < TICKS
    ensures t in run[j + 1].threads && run[j + 1].threads[t].Pushing?
    ensures var x, taken := ItemOf(r), multiset(run[j + 1].threads[t].batch);
      if r.at + r.tickAfter <= run[k].clock then x !in run[j + 1].items && taken[x] == run[j].items[x]
      else run[j + 1].items[x] == run[j].items[x] && x !in taken
  {
    TraceStep(run, acts, j);
    NowIsTheClock(run, acts, t, k, j);
    hide IsTrace, Drained, ItemOf;
    TakenWhenDue(r, run[j].items, run[k].clock, acts[j].batch, acts[j].rest);
  }
}
