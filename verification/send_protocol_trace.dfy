/** Runs of the sending half of a session together with the actions that made them: which buffers are
    queued, what a batch holds, and what a completion leads to. */
module SendSteps {
  import opened Basics
  import opened SendProtocol

  ghost predicate IsTrace(run: seq<State>, acts: seq<Action>) {
    && |run| == |acts| + 1
    && Init(run[0])
    && forall i :: 0 <= i < |acts| ==> Enabled(run[i], acts[i]) && run[i + 1] == Apply(run[i], acts[i])
  }

  lemma TraceStep(run: seq<State>, acts: seq<Action>, i: nat)
    requires IsTrace(run, acts) && i < |acts|
    ensures |run| == |acts| + 1 && Enabled(run[i], acts[i]) && run[i + 1] == Apply(run[i], acts[i])
  {
    hide Enabled, Apply, Init;
  }

  lemma TraceInv(run: seq<State>, acts: seq<Action>, i: nat)
    requires IsTrace(run, acts) && i < |run|
    ensures Inv(run[i])
  {
    hide Enabled, Apply, Init, Inv;
    forall k | 0 <= k < |run| - 1 ensures Next(run[k], run[k + 1]) {
      assert Enabled(run[k], acts[k]);
    }
    InvAlways(run, i);
  }

  /** `j` is the thread's first step after its step `k`. */
  predicate NextOwn(acts: seq<Action>, t: ThreadId, k: nat, j: nat) {
    && k < j < |acts| && acts[k].t == t && acts[j].t == t
    && forall m :: k < m < j ==> acts[m].t != t
  }

  lemma {:induction false} StaysThere(run: seq<State>, acts: seq<Action>, t: ThreadId, k: nat, j: nat)
    requires IsTrace(run, acts) && k <= j <= |acts| && t in run[k].threads
    requires forall m :: k <= m < j ==> acts[m].t != t
    ensures j < |run| && t in run[j].threads && run[j].threads[t] == run[k].threads[t]
    decreases j
  {
    if k < j {
      StaysThere(run, acts, t, k, j - 1);
      TraceStep(run, acts, j - 1);
    }
  }

  /** `Send` on a connected session ends by queueing its buffer behind all others; on any other session it
      does nothing. */
  lemma SendQueuesIfConnected(run: seq<State>, acts: seq<Action>, t: ThreadId, k: nat, j: nat)
    requires IsTrace(run, acts) && NextOwn(acts, t, k, j) && acts[k].BeginSend?
    ensures if run[k].connected
      then acts[j] == Queue(t) && run[j + 1].queue == run[j].queue + [acts[k].buffer]
           && run[j + 1].accepted == run[j].accepted + [acts[k].buffer]
      else !acts[j].Queue? && run[k + 1] == run[k]
  {
    TraceStep(run, acts, k);
    StaysThere(run, acts, t, k + 1, j);
    TraceStep(run, acts, j);
    hide IsTrace;
    assert run[k].threads[t := Ready] == run[k].threads;
  }

  /** The buffer of the thread's latest `Send`. */
  function LatestSend(acts: seq<Action>, t: ThreadId, i: nat): Option<Buffer>
    requires i <= |acts|
  {
    if i == 0 then None
    else if acts[i - 1].BeginSend? && acts[i - 1].t == t then Some(acts[i - 1].buffer)
    else LatestSend(acts, t, i - 1)
  }

  /** The buffers that calls of `Send` have queued, in the order of their turns under the lock. */
  function Given(acts: seq<Action>, i: nat): seq<Buffer>
    requires i <= |acts|
  {
    if i == 0 then []
    else if acts[i - 1].Queue? && LatestSend(acts, acts[i - 1].t, i - 1).Some? then
      Given(acts, i - 1) + [LatestSend(acts, acts[i - 1].t, i - 1).value]
    else Given(acts, i - 1)
  }

  lemma CheckedStep(s: State, a: Action, t: ThreadId)
    requires Enabled(s, a) && t in Apply(s, a).threads && Apply(s, a).threads[t].Checked?
    ensures t in s.threads
    ensures a.BeginSend? && a.t == t ==> Apply(s, a).threads[t].buffer == a.buffer
    ensures !(a.BeginSend? && a.t == t) ==> s.threads[t] == Apply(s, a).threads[t]
  {}

  lemma {:induction false} CheckedIsTheLatest(run: seq<State>, acts: seq<Action>, t: ThreadId, i: nat)
    requires IsTrace(run, acts) && i <= |acts| && t in run[i].threads && run[i].threads[t].Checked?
    ensures LatestSend(acts, t, i) == Some(run[i].threads[t].buffer)
  {
    if i > 0 {
      TraceStep(run, acts, i - 1);
      CheckedStep(run[i - 1], acts[i - 1], t);
      hide Enabled, Apply, Init;
      if !(acts[i - 1].BeginSend? && acts[i - 1].t == t) { CheckedIsTheLatest(run, acts, t, i - 1); }
    }
  }

  lemma AcceptedStep(s: State, a: Action)
    requires Enabled(s, a)
    ensures a.Queue? ==> s.threads[a.t].Checked? && Apply(s, a).accepted == s.accepted + [s.threads[a.t].buffer]
    ensures !a.Queue? ==> Apply(s, a).accepted == s.accepted
  {}

  /** What a session has accepted is what it was given: every buffer once, and no other. */
  lemma {:induction false} AcceptedIsGiven(run: seq<State>, acts: seq<Action>, i: nat)
    requires IsTrace(run, acts) && i <= |acts|
    ensures i < |run| && run[i].accepted == Given(acts, i)
  {
    if i > 0 {
      TraceStep(run, acts, i - 1);
      AcceptedStep(run[i - 1], acts[i - 1]);
      if acts[i - 1].Queue? { CheckedIsTheLatest(run, acts, acts[i - 1].t, i - 1); }
      hide Enabled, Apply, Init, LatestSend;
      AcceptedIsGiven(run, acts, i - 1);
    }
  }

  /** `RegisterSend` on a connected session makes one batch of everything that is queued by the time it
      has the lock, and offers that batch; on any other session it leaves the queue and the event alone. */
  lemma BatchIsTheQueue(run: seq<State>, acts: seq<Action>, t: ThreadId, k: nat, j: nat)
    requires IsTrace(run, acts) && NextOwn(acts, t, k, j) && acts[k].EnterRegister?
    ensures if run[k].connected
      then acts[j] == GatherBuffers(t) && run[j + 1].event == run[j].queue && run[j + 1].queue == []
      else !acts[j].GatherBuffers? && run[k + 1].queue == run[k].queue && run[k + 1].event == run[k].event
  {
    TraceStep(run, acts, k);
    StaysThere(run, acts, t, k + 1, j);
    TraceStep(run, acts, j);
    TraceInv(run, acts, j);
    hide IsTrace;
    if acts[j].GatherBuffers? {
      GatherFindsNoEvent(run[j], t);
      hide Inv;
      assert [] + run[j].queue == run[j].queue;
    }
  }

  lemma GatherFindsNoEvent(s: State, t: ThreadId)
    requires Inv(s) && t in s.threads && s.threads[t].Gather?
    ensures s.event == []
  {
    assert Duty(s, t);
    assert forall u :: UsesEvent(s, u) ==> Duty(s, u);
    hide Conserved, LockOk;
  }

  /** What a batch ends in: one that WSASend takes is outstanding from then on, and its thread is done; one
      that it refuses is dropped from the event, the session is disconnected if the error says so, and only
      then the registration ends. */
  lemma OfferGoesBy(run: seq<State>, acts: seq<Action>, t: ThreadId, k: nat, j: nat, m: nat)
    requires IsTrace(run, acts) && NextOwn(acts, t, k, j) && NextOwn(acts, t, j, m) && acts[k].WsaSend?
    ensures run[k + 1].offered == run[k].offered + [run[k].event]
    ensures acts[k].taken ==> run[k + 1].outstanding == run[k].outstanding + 1 && acts[j] != StoreUnregistered(t)
    ensures !acts[k].taken ==> acts[j].ClearFailed? && run[k + 1].outstanding == run[k].outstanding
    ensures !acts[k].taken ==> run[j + 1].event == [] && run[j + 1].connected == (run[j].connected && !acts[j].disconnect)
    ensures !acts[k].taken ==> acts[m] == StoreUnregistered(t) && run[m].registered && !run[m + 1].registered
    ensures !acts[k].taken ==> run[m + 1].connected == run[m].connected
  {
    TraceStep(run, acts, k);
    StaysThere(run, acts, t, k + 1, j);
    TraceStep(run, acts, j);
    StaysThere(run, acts, t, j + 1, m);
    TraceStep(run, acts, m);
    TraceInv(run, acts, m);
    hide IsTrace;
    if !acts[k].taken {
      assert Duty(run[m], t);
      hide BuffersOk, Conserved, LockOk;
    }
  }

  /** A completion first gives up the event's buffers.  One of no bytes disconnects the session and ends;
      after any other the thread takes the lock. */
  lemma CompletionGoesBy(run: seq<State>, acts: seq<Action>, t: ThreadId, k: nat, j: nat)
    requires IsTrace(run, acts) && NextOwn(acts, t, k, j) && acts[k].Complete?
    ensures acts[j] == ClearEvent(t) && run[j + 1].event == [] && t in run[j + 1].threads
    ensures acts[k].bytes == 0 ==> !run[j + 1].connected && run[j + 1].threads[t] == Ready
    ensures acts[k].bytes != 0 ==> run[j + 1].connected == run[j].connected && run[j + 1].threads[t] == Locking
  {
    TraceStep(run, acts, k);
    StaysThere(run, acts, t, k + 1, j);
    TraceStep(run, acts, j);
    hide IsTrace;
  }

  /** With the lock: an empty queue ends the registration, any other is registered again under the same
      lock. */
  lemma DecisionGoesBy(run: seq<State>, acts: seq<Action>, t: ThreadId, k: nat, j: nat)
    requires IsTrace(run, acts) && NextOwn(acts, t, k, j) && acts[k].TakeLock?
    ensures acts[j] == Decide(t) && run[j].lockedBy == run[j + 1].lockedBy == Some(t) && t in run[j + 1].threads
    ensures run[j].queue == [] ==> !run[j + 1].registered && run[j + 1].threads[t] == Returning
    ensures run[j].queue != [] ==> run[j + 1].registered && run[j + 1].threads[t] == Must(true)
  {
    TraceStep(run, acts, k);
    StaysThere(run, acts, t, k + 1, j);
    TraceStep(run, acts, j);
    TraceInv(run, acts, j);
    hide IsTrace;
    var s := run[j];
    assert UnderLock(s.threads[t]) && Duty(s, t);
    hide BuffersOk, Conserved;
  }
}
