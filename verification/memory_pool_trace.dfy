/** Runs of the pools together with the actions that made them: what a block is stamped with and which
    block a request is given. */
module PoolTraces {
  import opened Basics
  import opened MemoryManagers
  import opened MemoryPools

  ghost predicate IsTrace(run: seq<State>, acts: seq<Action>) {
    && |run| == |acts| + 1
    && Init(run[0])
    && forall i :: 0 <= i < |acts| ==> Enabled(run[i], acts[i]) && run[i + 1] == Apply(run[i], acts[i])
  }

  lemma TraceStep(run: seq<State>, acts: seq<Action>, i: nat)
    requires IsTrace(run, acts) && i < |acts|
    ensures |run| == |acts| + 1 && Enabled(run[i], acts[i]) && run[i + 1] == Apply(run[i], acts[i])
  {
    hide Enabled, Apply, Init;
  }

  lemma TraceStart(run: seq<State>, acts: seq<Action>, t: ThreadId)
    requires IsTrace(run, acts) && t in run[0].threads
    ensures run[0].threads[t].Outside?
  {
    hide Enabled, Apply;
  }

  /** The bytes the thread has asked for last. */
  function LatestAsk(acts: seq<Action>, t: ThreadId, i: nat): Option<nat>
    requires i <= |acts|
  {
    if i == 0 then None
    else if acts[i - 1].Request? && acts[i - 1].t == t then Some(acts[i - 1].n)
    else LatestAsk(acts, t, i - 1)
  }

  /** The block the thread has given back last. */
  function LatestBack(acts: seq<Action>, t: ThreadId, i: nat): Option<Block>
    requires i <= |acts|
  {
    if i == 0 then None
    else if acts[i - 1].Release? && acts[i - 1].t == t then Some(acts[i - 1].b)
    else LatestBack(acts, t, i - 1)
  }

  predicate Remembers(pc: Pc, ask: Option<nat>, back: Option<Block>) {
    && (pc.Popping? || pc.Missing? || pc.Taken? || pc.Adding? || pc.Stamping? ==> ask == Some(pc.n))
    && (pc.Popping? || pc.Missing? ==> pc.n <= MAX_ALLOC_SIZE && pc.p == ClassOf(pc.n))
    && (pc.Clearing? || pc.Linking? ==> back == Some(pc.b))
  }

  lemma RemembersStep(s: State, a: Action, t: ThreadId, ask: Option<nat>, back: Option<Block>)
    requires Enabled(s, a) && t in Apply(s, a).threads
    ensures t in s.threads
    ensures Remembers(s.threads[t], ask, back) ==> Remembers(Apply(s, a).threads[t],
      if a.Request? && a.t == t then Some(a.n) else ask, if a.Release? && a.t == t then Some(a.b) else back)
  {
    hide ClassOf;
  }

  lemma {:induction false} AlwaysRemembers(run: seq<State>, acts: seq<Action>, t: ThreadId, i: nat)
    requires IsTrace(run, acts) && i <= |acts| && i < |run| && t in run[i].threads
    ensures Remembers(run[i].threads[t], LatestAsk(acts, t, i), LatestBack(acts, t, i))
  {
    hide Enabled, Apply, Init, ClassOf, IsTrace;
    if i == 0 {
      TraceStart(run, acts, t);
    } else {
      TraceStep(run, acts, i - 1);
      RemembersStep(run[i - 1], acts[i - 1], t, LatestAsk(acts, t, i - 1), LatestBack(acts, t, i - 1));
      AlwaysRemembers(run, acts, t, i - 1);
    }
  }

  /** A block is handed out with the number of bytes its thread asked for in its header. */
  lemma StampedAsAsked(run: seq<State>, acts: seq<Action>, i: nat)
    requires IsTrace(run, acts) && i < |acts| && acts[i].Stamp?
    ensures var t, ask := acts[i].t, LatestAsk(acts, acts[i].t, i);
      && ask.Some? && t in run[i].threads && run[i].threads[t].Stamping?
      && var b := run[i].threads[t].b;
      && run[i + 1].headers == run[i].headers[b := ask.value] && run[i + 1].lent == run[i].lent + {b}
  {
    TraceStep(run, acts, i);
    AlwaysRemembers(run, acts, acts[i].t, i);
    hide IsTrace, LatestAsk, LatestBack, ClassOf;
  }

  /** A request looks into the list of its class.  If a block was linked there and nothing has been linked
      to or popped from that list since, that block is the one it gets, and the list is as before. */
  lemma LinkedLastIsTakenFirst(run: seq<State>, acts: seq<Action>, k: nat, j: nat, p: PoolId)
    requires IsTrace(run, acts) && k < j < |acts| && acts[k].Link? && acts[j].PopList?
    requires LatestAsk(acts, acts[j].t, j).Some? && LatestAsk(acts, acts[j].t, j).value <= MAX_ALLOC_SIZE
    requires p == ClassOf(LatestAsk(acts, acts[j].t, j).value)
    requires p in run[k].pools && acts[k].t in run[k].threads && run[k].threads[acts[k].t].Linking? && run[k].threads[acts[k].t].p == p
    requires forall m :: k < m < j ==> !UsesList(run[m], acts[m], p)
    ensures p in run[j + 1].pools && run[j + 1].pools[p].free == run[k].pools[p].free
    ensures acts[j].t in run[j + 1].threads && run[j + 1].threads[acts[j].t].Taken?
    ensures Some(run[j + 1].threads[acts[j].t].b) == LatestBack(acts, acts[k].t, k)
  {
    TraceStep(run, acts, k);
    AlwaysRemembers(run, acts, acts[k].t, k);
    ListStays(run, acts, k + 1, j, p);
    TraceStep(run, acts, j);
    AlwaysRemembers(run, acts, acts[j].t, j);
    hide IsTrace, LatestAsk, LatestBack, ClassOf;
  }

  /** The step links a block to the list of pool `p` or looks for one there. */
  predicate UsesList(s: State, a: Action, p: PoolId) {
    (a.Link? || a.PopList?) && a.t in s.threads && !s.threads[a.t].Outside? && s.threads[a.t].p == p
  }

  lemma ListStep(s: State, a: Action, p: PoolId)
    requires Enabled(s, a) && p in s.pools && !UsesList(s, a, p)
    ensures p in Apply(s, a).pools && Apply(s, a).pools[p].free == s.pools[p].free
  {
    hide ClassOf;
  }

  lemma {:induction false} ListStays(run: seq<State>, acts: seq<Action>, k: nat, j: nat, p: PoolId)
    requires IsTrace(run, acts) && k <= j < |run| && p in run[k].pools
    requires forall m :: k <= m < j ==> !UsesList(run[m], acts[m], p)
    ensures p in run[j].pools && run[j].pools[p].free == run[k].pools[p].free
    decreases j
  {
    hide Enabled, Apply, Init, UsesList;
    if k < j {
      ListStays(run, acts, k, j - 1, p);
      TraceStep(run, acts, j - 1);
      ListStep(run[j - 1], acts[j - 1], p);
    }
  }
}
