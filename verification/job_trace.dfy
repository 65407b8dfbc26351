/** Runs of the job runtime together with the actions that made them: which way a push, a clock
    check and a pop go, in terms of what the thread did before. */
module JobTraces {
  import opened Basics
  import opened JobRuntime

  ghost predicate IsTrace(run: seq<State>, acts: seq<Action>) {
    && |run| == |acts| + 1
    && Init(run[0])
    && forall i :: 0 <= i < |acts| ==> Enabled(run[i], acts[i]) && run[i + 1] == Apply(run[i], acts[i])
  }

  lemma TraceShape(run: seq<State>, acts: seq<Action>)
    requires IsTrace(run, acts)
    ensures |run| == |acts| + 1
  {
    hide Enabled, Apply, Init;
  }

  lemma TraceIsRun(run: seq<State>, acts: seq<Action>)
    requires IsTrace(run, acts)
    ensures IsRun(run)
  {
    hide Enabled, Apply, Init;
    forall i | 0 <= i < |run| - 1 ensures Next(run[i], run[i + 1]) {
      assert Enabled(run[i], acts[i]);
    }
  }

  lemma TraceInv(run: seq<State>, acts: seq<Action>, i: nat)
    requires IsTrace(run, acts) && i < |run|
    ensures Inv(run[i])
  {
    TraceIsRun(run, acts);
    hide *;
    InvAlways(run, i);
  }

  lemma TraceStep(run: seq<State>, acts: seq<Action>, i: nat)
    requires IsTrace(run, acts) && i < |acts|
    ensures |run| == |acts| + 1 && Enabled(run[i], acts[i]) && run[i + 1] == Apply(run[i], acts[i])
  {
    hide Enabled, Apply;
  }

  lemma SameThreads(s: State, a: Action, t: ThreadId)
    requires Enabled(s, a) && t in Apply(s, a).threads && Inv(s)
    ensures t in s.threads && ThreadOk(s, s.threads[t])
  {
    hide TokenOf, BooksOf;
  }

  /** The latest of the thread's actions of one sort. */
  datatype Sort = Call | Add | Clock

  predicate IsOf(a: Action, t: ThreadId, sort: Sort) {
    a.t == t && match sort case Call => a.CallPush? case Add => a.FetchAdd? case Clock => a.CheckClock?
  }

  /** The index of the latest such action, or -1. */
  function Latest(acts: seq<Action>, t: ThreadId, sort: Sort): (k: int)
    ensures -1 <= k < |acts| && (k >= 0 ==> IsOf(acts[k], t, sort))
    ensures forall j :: k < j < |acts| ==> !IsOf(acts[j], t, sort)
  {
    if acts == [] then -1
    else if IsOf(acts[|acts| - 1], t, sort) then |acts| - 1
    else Latest(acts[..|acts| - 1], t, sort)
  }

  /** The push the thread is in or was in last. */
  function LatestCall(acts: seq<Action>, t: ThreadId): Option<Action> {
    var call := Latest(acts, t, Call);
    if call < 0 then None else Some(acts[call])
  }

  /** Whether that push found the counter at zero, if it has counted. */
  function FoundZero(run: seq<State>, acts: seq<Action>, t: ThreadId): Option<bool>
    requires |acts| <= |run|
  {
    var call, add := Latest(acts, t, Call), Latest(acts, t, Add);
    if 0 <= call < add && acts[call].q in run[add].queues then Some(run[add].queues[acts[call].q].count == 0) else None
  }

  /** What the thread's latest look at the clock said. */
  function LatestClock(acts: seq<Action>, t: ThreadId): Option<bool> {
    var clock := Latest(acts, t, Clock);
    if clock < 0 then None else Some(acts[clock].late)
  }

  /** What a thread remembers of its push and of the clock is what it was called with and what it saw. */
  predicate Fits(th: Thread, call: Option<Action>, zero: Option<bool>, late: Option<bool>) {
    && (call.Some? ==> call.value.CallPush?)
    && (!th.push.NoPush? ==> call.Some? && call.value.q == th.push.q && call.value.pushOnly == th.push.pushOnly)
    && (th.push.Called? || th.push.Counted? ==> call.Some? && call.value.job == th.push.job)
    && (th.push.Counted? ==> zero == Some(th.push.first))
    && (th.push.Registering? ==> zero == Some(true))
    && (th.exec.Requeuing? ==> late == Some(true))
  }

  ghost predicate Remembers(run: seq<State>, acts: seq<Action>, i: nat, t: ThreadId)
    requires IsTrace(run, acts) && i < |run| && t in run[i].threads
  {
    Fits(run[i].threads[t], LatestCall(acts[..i], t), FoundZero(run, acts[..i], t), LatestClock(acts[..i], t))
  }

  /** One more action makes itself the latest of its sort and leaves the other sorts as they were. */
  lemma LatestStep(acts: seq<Action>, i: nat, t: ThreadId, sort: Sort)
    requires i < |acts|
    ensures Latest(acts[..i + 1], t, sort) == if IsOf(acts[i], t, sort) then i else Latest(acts[..i], t, sort)
  {
    assert acts[..i + 1][..i] == acts[..i];
  }

  lemma FitsStep(s: State, a: Action, t: ThreadId, call: Option<Action>, zero: Option<bool>, late: Option<bool>)
    requires Enabled(s, a) && t in s.threads && ThreadOk(s, s.threads[t]) && Fits(s.threads[t], call, zero, late)
    ensures t in Apply(s, a).threads
    ensures Fits(Apply(s, a).threads[t],
                 if IsOf(a, t, Call) then Some(a) else call,
                 if IsOf(a, t, Add) then Some(s.queues[s.threads[t].push.q].count == 0) else if IsOf(a, t, Call) then None else zero,
                 if IsOf(a, t, Clock) then Some(a.late) else late)
  {}

  lemma FoundZeroStep(run: seq<State>, acts: seq<Action>, i: nat, t: ThreadId)
    requires i < |acts| && i < |run|
    requires IsOf(acts[i], t, Add) ==> LatestCall(acts[..i], t).Some? && LatestCall(acts[..i], t).value.q in run[i].queues
    ensures FoundZero(run, acts[..i + 1], t) ==
      if IsOf(acts[i], t, Add) then Some(run[i].queues[LatestCall(acts[..i], t).value.q].count == 0)
      else if IsOf(acts[i], t, Call) then None else FoundZero(run, acts[..i], t)
  {
    LatestStep(acts, i, t, Call);
    LatestStep(acts, i, t, Add);
    hide Latest;
  }

  lemma RemembersStep(run: seq<State>, acts: seq<Action>, i: nat, t: ThreadId)
    requires IsTrace(run, acts) && i < |acts| && t in run[i].threads && ThreadOk(run[i], run[i].threads[t])
    requires Remembers(run, acts, i, t)
    ensures t in run[i + 1].threads && Remembers(run, acts, i + 1, t)
  {
    var s, a, call, zero, late := run[i], acts[i], LatestCall(acts[..i], t), FoundZero(run, acts[..i], t), LatestClock(acts[..i], t);
    assert Enabled(s, a) && run[i + 1] == Apply(s, a);
    FitsStep(s, a, t, call, zero, late);
    LatestStep(acts, i, t, Call);
    LatestStep(acts, i, t, Clock);
    assert IsOf(a, t, Add) ==> call.Some? && call.value.q == s.threads[t].push.q && call.value.q in s.queues;
    FoundZeroStep(run, acts, i, t);
    hide Enabled, Apply, IsTrace, Latest, FoundZero, ThreadOk;
  }

  lemma {:induction false} AlwaysRemembers(run: seq<State>, acts: seq<Action>, i: nat, t: ThreadId)
    requires IsTrace(run, acts) && i < |run| && t in run[i].threads
    ensures Remembers(run, acts, i, t)
  {
    hide *;
    TraceShape(run, acts);
    if i == 0 {
      FirstRemembers(run, acts, t);
    } else {
      TraceStep(run, acts, i - 1);
      TraceInv(run, acts, i - 1);
      SameThreads(run[i - 1], acts[i - 1], t);
      AlwaysRemembers(run, acts, i - 1, t);
      RemembersStep(run, acts, i - 1, t);
    }
  }

  lemma FirstRemembers(run: seq<State>, acts: seq<Action>, t: ThreadId)
    requires IsTrace(run, acts) && t in run[0].threads
    ensures Remembers(run, acts, 0, t)
  {
    assert run[0].threads[t] == Thread(None, NoPush, Idle);
    hide Enabled, Apply;
  }

  /** `Push` after the counter was zero: with `push_only` on a thread that executes nothing the thread
      goes into `Execute`; in every other case the queue becomes the last entry of the global queue and
      the thread goes on with what it was doing. */
  lemma RegisterGoesBy(run: seq<State>, acts: seq<Action>, i: nat)
    requires IsTrace(run, acts) && i < |acts| && acts[i].Register?
    ensures var s, s', t, call := run[i], run[i + 1], acts[i].t, LatestCall(acts[..i], acts[i].t);
      && call.Some? && call.value.CallPush? && FoundZero(run, acts[..i], t) == Some(true)
      && t in s.threads && t in s'.threads && s'.threads[t].push == NoPush
      && if call.value.pushOnly && s.threads[t].current == None
         then s'.threads[t].exec == Entering(call.value.q) && s'.waiting == s.waiting
         else s'.threads[t].exec == s.threads[t].exec && s'.waiting == s.waiting + [call.value.q]
  {
    AlwaysRemembers(run, acts, i, acts[i].t);
    hide LatestCall, FoundZero, LatestClock;
  }

  lemma EnteringStep(s: State, a: Action, t: ThreadId)
    requires Enabled(s, a) && t in s.threads && t in Apply(s, a).threads
    requires !s.threads[t].exec.Entering? && Apply(s, a).threads[t].exec.Entering?
    ensures var th, q := s.threads[t], Apply(s, a).threads[t].exec.q;
      || (th.push.NoPush? && s.waiting == [q] + Apply(s, a).waiting)
      || (th.push == Registering(q, true) && th.current == None)
  {}

  /** The only ways into `Execute`: popping the front of the global queue, or a push that was called
      with `push_only`, on a thread without a current queue, and that found the counter at zero. */
  lemma EntersOnlyBy(run: seq<State>, acts: seq<Action>, i: nat, t: ThreadId)
    requires IsTrace(run, acts) && i < |acts| && t in run[i].threads && t in run[i + 1].threads
    requires !run[i].threads[t].exec.Entering? && run[i + 1].threads[t].exec.Entering?
    ensures var s, s', q, call := run[i], run[i + 1], run[i + 1].threads[t].exec.q, LatestCall(acts[..i], t);
      || (s.threads[t].push.NoPush? && s.waiting == [q] + s'.waiting)
      || (call.Some? && call.value.CallPush? && call.value.q == q && call.value.pushOnly
          && s.threads[t].current == None && FoundZero(run, acts[..i], t) == Some(true))
  {
    AlwaysRemembers(run, acts, i, t);
    TraceStep(run, acts, i);
    var s, a, call, zero, late := run[i], acts[i], LatestCall(acts[..i], t), FoundZero(run, acts[..i], t), LatestClock(acts[..i], t);
    assert Fits(s.threads[t], call, zero, late);
    hide IsTrace, Remembers, LatestCall, FoundZero, LatestClock;
    EnteringStep(s, a, t);
  }

  /** The only ways into the global queue, each at its end: the push that found the counter at zero and
      may not execute, or the executor whose latest look at the clock was too late. */
  lemma WaitsOnlyBy(run: seq<State>, acts: seq<Action>, i: nat, q: QueueId)
    requires IsTrace(run, acts) && i < |acts| && q !in run[i].waiting && q in run[i + 1].waiting
    ensures var s, t, call := run[i], acts[i].t, LatestCall(acts[..i], acts[i].t);
      && run[i + 1].waiting == s.waiting + [q] && t in s.threads
      && (|| (acts[i].Register? && call.Some? && call.value.CallPush? && call.value.q == q
              && !(call.value.pushOnly && s.threads[t].current == None))
          || (acts[i].Requeue? && s.threads[t].exec == Requeuing(q) && LatestClock(acts[..i], t) == Some(true)))
  {
    AlwaysRemembers(run, acts, i, acts[i].t);
    hide LatestCall, FoundZero, LatestClock;
  }

  /** The counter decides alone: a push that found it at zero goes on to register, every other one is
      over once its job is at the end of the queue. */
  lemma FirstPusherRegisters(run: seq<State>, acts: seq<Action>, i: nat)
    requires IsTrace(run, acts) && i < |acts| && acts[i].Enqueue?
    ensures var t, call, zero := acts[i].t, LatestCall(acts[..i], acts[i].t), FoundZero(run, acts[..i], acts[i].t);
      && call.Some? && call.value.CallPush? && zero.Some? && t in run[i + 1].threads
      && var q := call.value.q;
      && q in run[i].queues && q in run[i + 1].queues
      && run[i + 1].queues[q].jobs == run[i].queues[q].jobs + [call.value.job]
      && run[i + 1].threads[t].push == if zero.value then Registering(q, call.value.pushOnly) else NoPush
  {
    AlwaysRemembers(run, acts, i, acts[i].t);
    hide LatestCall, FoundZero, LatestClock;
  }

  /** What one step of the executor's round does to its thread and its queue. */
  ghost predicate RoundStep(s: State, a: Action, s': State) {
    && a.t in s.threads && a.t in s'.threads && !s.threads[a.t].exec.Idle?
    && var q := s.threads[a.t].exec.q;
    && q in s.queues && q in s'.queues
    && var th, before, after := s'.threads[a.t], s.queues[q], s'.queues[q];
    && (a.PopAll? ==> th.exec == Batch(q, before.jobs, 0, false) && after.jobs == [])
    && (a.FetchSub? ==> (th.exec == Idle && th.current == None <==> after.count == 0))
    && (a.FetchSub? ==> (th.exec == Subtracted(q) && th.current == Some(q) <==> after.count != 0))
    && (a.CheckClock? ==> (th.exec == Requeuing(q) && th.current == None <==> a.late))
    && (a.CheckClock? ==> (th.exec == Draining(q) && th.current == Some(q) <==> !a.late))
  }

  lemma RoundStepIs(s: State, a: Action)
    requires Enabled(s, a) && (a.PopAll? || a.FetchSub? || a.CheckClock?) && ThreadOk(s, s.threads[a.t])
    ensures RoundStep(s, a, Apply(s, a))
  {}

  /** A round of the executor: it takes everything there is; it leaves when its subtraction brings the
      counter to zero; otherwise it gives the queue up exactly when its time is up. */
  lemma RoundGoesBy(run: seq<State>, acts: seq<Action>, i: nat)
    requires IsTrace(run, acts) && i < |acts| && (acts[i].PopAll? || acts[i].FetchSub? || acts[i].CheckClock?)
    ensures i + 1 < |run| && RoundStep(run[i], acts[i], run[i + 1])
  {
    TraceStep(run, acts, i);
    TraceInv(run, acts, i);
    assert ThreadOk(run[i], run[i].threads[acts[i].t]);
    hide *;
    RoundStepIs(run[i], acts[i]);
  }
}
