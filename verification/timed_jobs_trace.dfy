/** Runs of the runtime and its timer together with the actions that made them: what becomes of a
    dispatched job. */
module TimedTraces {
  import opened Basics
  import J = JobRuntime
  import T = JobTimers
  import opened TimedJobs

  ghost predicate IsTrace(run: seq<State>, acts: seq<Action>) {
    && |run| == |acts| + 1
    && Init(run[0])
    && forall i :: 0 <= i < |acts| ==> Enabled(run[i], acts[i]) && run[i + 1] == Apply(run[i], acts[i])
  }

  lemma TraceStep(run: seq<State>, acts: seq<Action>, i: nat)
    requires IsTrace(run, acts) && i < |acts|
    ensures |run| == |acts| + 1 && Enabled(run[i], acts[i]) && run[i + 1] == Apply(run[i], acts[i])
  {
    hide Enabled, Apply, Init;
  }

  lemma TraceInv(run: seq<State>, acts: seq<Action>, i: nat)
    requires IsTrace(run, acts) && i < |run|
    ensures Inv(run[i])
  {
    hide Enabled, Apply, Init, Inv;
    forall k | 0 <= k < |run| - 1 ensures Next(run[k], run[k + 1]) {
      assert Enabled(run[k], acts[k]);
    }
    InvAlways(run, i);
  }

  /** The dispatch of a living owner's job is a push with `push_only` by that thread, which executes
      nothing; a job whose owner is gone is not pushed. */
  lemma DispatchGoesBy(s: State, a: Action)
    requires Inv(s) && Enabled(s, a) && a.Dispatch?
    ensures T.Enabled(s.timer, T.PushOne(a.t))
    ensures var s', x := Apply(s, a), Taken(s.timer, a.t);
      if a.alive then
        && a.t in s'.jobs.threads && s'.jobs.threads[a.t] == J.Thread(None, J.Called(x.owner, x.job, true), J.Idle)
        && s'.jobs.waiting == s.jobs.waiting && s'.jobs.queues == s.jobs.queues
        && s'.calls == s.calls[x.job := x.owner] && x.job !in s'.expired && s'.expired == s.expired
      else s'.jobs == s.jobs && s'.calls == s.calls && s'.expired == s.expired + {x.job}
  {
    DispatchIsFirst(s.timer, a.t, s.timed, s.calls, s.expired);
    hide T.Enabled, T.Apply, T.ItemOf, T.Inv, T.OnTime, Accounted, Numbered, Fate, Fresh;
    if a.alive {
      assert J.ThreadOk(s.jobs, s.jobs.threads[a.t]);
    }
  }

  lemma OthersExpireNothing(s: State, a: Action)
    requires Enabled(s, a) && !a.Dispatch?
    ensures Apply(s, a).expired == s.expired
  {
    hide J.Enabled, J.Apply, T.Enabled, T.Apply;
  }

  /** Step `k` is the dispatch of job `j` after its owner is gone. */
  ghost predicate DropsAt(run: seq<State>, acts: seq<Action>, k: nat, j: Job)
    requires IsTrace(run, acts)
  {
    && k < |acts| && acts[k].Dispatch? && !acts[k].alive
    && T.Enabled(run[k].timer, T.PushOne(acts[k].t)) && Taken(run[k].timer, acts[k].t).job == j
  }

  lemma ExpiredStep(run: seq<State>, acts: seq<Action>, i: nat, j: Job)
    requires IsTrace(run, acts) && i < |acts|
    ensures i + 1 < |run| && (j in run[i + 1].expired <==> j in run[i].expired || DropsAt(run, acts, i, j))
  {
    TraceStep(run, acts, i);
    TraceInv(run, acts, i);
    hide IsTrace, Enabled, Apply, Inv, T.Enabled, Taken;
    if acts[i].Dispatch? {
      DispatchGoesBy(run[i], acts[i]);
    } else {
      OthersExpireNothing(run[i], acts[i]);
    }
  }

  /** Exactly the jobs dispatched without an owner are given up. */
  lemma {:induction false} ExpiredExactly(run: seq<State>, acts: seq<Action>, i: nat, j: Job)
    requires IsTrace(run, acts) && i <= |acts|
    ensures i < |run| && (j in run[i].expired <==> exists k: nat :: k < i && DropsAt(run, acts, k, j))
  {
    if i == 0 {
      hide Enabled, Apply, DropsAt;
    } else {
      hide *;
      ExpiredExactly(run, acts, i - 1, j);
      ExpiredStep(run, acts, i - 1, j);
    }
  }

  // ---------------------------------------------------------------- the thread that dispatches

  /** The thread begins a push. */
  predicate Begins(a: Action, t: ThreadId) {
    (a.DoAsync? || a.Dispatch?) && a.t == t
  }

  /** In no push, or in one of `q` with `push_only` while executing nothing. */
  predicate MayExecute(jobs: J.State, t: ThreadId, q: QueueId) {
    && t in jobs.threads
    && var th := jobs.threads[t];
    th.push.NoPush? || (th.push.q == q && th.push.pushOnly && th.current == None && th.exec.Idle?)
  }

  lemma RuntimeStep(jobs: J.State, a: J.Action, t: ThreadId, q: QueueId)
    requires J.Enabled(jobs, a) && MayExecute(jobs, t, q) && !(a.CallPush? && a.t == t)
    ensures MayExecute(J.Apply(jobs, a), t, q)
  {}

  lemma AboutToPush(timer: T.State, t: ThreadId)
    requires T.Enabled(timer, T.PushOne(t))
    ensures t in timer.threads && timer.threads[t].Pushing? && timer.threads[t].next < |timer.threads[t].batch|
  {}

  lemma KeepsMayExecute(s: State, a: Action, t: ThreadId, q: QueueId)
    requires Enabled(s, a) && MayExecute(s.jobs, t, q) && !Begins(a, t)
    ensures MayExecute(Apply(s, a).jobs, t, q)
  {
    hide J.Enabled, J.Apply, T.Enabled, T.Apply, MayExecute;
    match a
    case Run(b) => RuntimeStep(s.jobs, b, t, q);
    case DoAsync(u, r, pushOnly) => RuntimeStep(s.jobs, J.CallPush(u, r, s.made, pushOnly), t, q);
    case Dispatch(u, alive) =>
      AboutToPush(s.timer, u);
      if alive { RuntimeStep(s.jobs, PushOf(Taken(s.timer, u), u), t, q); }
    case _ =>
  }

  lemma {:induction false} StillMayExecute(run: seq<State>, acts: seq<Action>, k: nat, i: nat, t: ThreadId, q: QueueId)
    requires IsTrace(run, acts) && k <= i <= |acts| && MayExecute(run[k].jobs, t, q)
    requires forall m :: k <= m < i ==> !Begins(acts[m], t)
    ensures MayExecute(run[i].jobs, t, q)
    decreases i
  {
    hide Enabled, Apply, Init, MayExecute;
    if i > k {
      StillMayExecute(run, acts, k, i - 1, t, q);
      TraceStep(run, acts, i - 1);
      KeepsMayExecute(run[i - 1], acts[i - 1], t, q);
    }
  }

  lemma RegisterEnters(jobs: J.State, t: ThreadId, q: QueueId)
    requires J.Enabled(jobs, J.Register(t)) && MayExecute(jobs, t, q)
    ensures var jobs' := J.Apply(jobs, J.Register(t));
      t in jobs'.threads && jobs'.threads[t].exec == J.Entering(q) && jobs'.waiting == jobs.waiting
  {}

  /** A timed job whose push finds its queue empty is executed by the thread that dispatched it: that
      push ends in `Execute` on the owner and never goes through the global queue. */
  lemma TimedJobRunsHere(run: seq<State>, acts: seq<Action>, k: nat, i: nat, t: ThreadId)
    requires IsTrace(run, acts) && k < i < |acts| && acts[k] == Dispatch(t, true) && acts[i] == Run(J.Register(t))
    requires forall m :: k < m < i ==> !Begins(acts[m], t)
    ensures T.Enabled(run[k].timer, T.PushOne(t))
    ensures var owner := Taken(run[k].timer, t).owner;
      && t in run[i + 1].jobs.threads && run[i + 1].jobs.threads[t].exec == J.Entering(owner)
      && run[i + 1].jobs.waiting == run[i].jobs.waiting
  {
    var owner := DispatchStarts(run, acts, k, t);
    TraceStep(run, acts, i);
    RegisterIs(run[i], acts[i], t);
    hide IsTrace, Enabled, Apply, MayExecute, J.Enabled, J.Apply, T.Enabled, Taken;
    StillMayExecute(run, acts, k + 1, i, t, owner);
    RegisterEnters(run[i].jobs, t, owner);
  }

  lemma RegisterIs(s: State, a: Action, t: ThreadId)
    requires Enabled(s, a) && a == Run(J.Register(t))
    ensures J.Enabled(s.jobs, J.Register(t)) && Apply(s, a).jobs == J.Apply(s.jobs, J.Register(t))
  {
    hide J.Enabled, J.Apply;
  }

  lemma DispatchStarts(run: seq<State>, acts: seq<Action>, k: nat, t: ThreadId) returns (owner: QueueId)
    requires IsTrace(run, acts) && k < |acts| && acts[k] == Dispatch(t, true)
    ensures k + 1 < |run| && T.Enabled(run[k].timer, T.PushOne(t)) && owner == Taken(run[k].timer, t).owner
    ensures MayExecute(run[k + 1].jobs, t, owner)
  {
    TraceInv(run, acts, k);
    TraceStep(run, acts, k);
    hide IsTrace, Enabled, Apply, Inv, T.Enabled, Taken;
    DispatchGoesBy(run[k], acts[k]);
    AboutToPush(run[k].timer, t);
    owner := Taken(run[k].timer, t).owner;
  }
}
