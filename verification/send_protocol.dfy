/** The sending half of `network/session.cpp` as a transition system: any number of threads call
    `Send` while completions arrive.  One action is one atomic access, one lock-protected section or
    one system call.  `_lock` is recursive, and `ProcessSend` keeps it across `RegisterSend`. */
module SendProtocol {
  import opened Basics

  type ThreadId = nat
  type Buffer = int

  /** `held` tells whether `RegisterSend` was called from `ProcessSend`, under the lock. */
  datatype Pc =
    | Ready
    | Checked(buffer: Buffer)      // Send: saw the session connected
    | Must(held: bool)             // about to enter RegisterSend
    | Gather(held: bool)           // RegisterSend: saw the session connected
    | Calling(held: bool)          // RegisterSend: about to call WSASend
    | Failed(held: bool)           // WSASend refused outright
    | FailedCleared(held: bool)    // ... and the event has been cleared
    | Completing(bytes: nat)       // ProcessSend entered
    | Locking                      // ProcessSend: about to take the lock
    | Deciding                     // ProcessSend: holds the lock
    | Returning                    // ProcessSend: about to release the lock

  /** `accepted`, `offered` and `refused` are histories: buffers in the order `Send` queued them, the
      batches given to WSASend, and which of these it refused. */
  datatype State = State(connected: bool, queue: seq<Buffer>, registered: bool, event: seq<Buffer>,
                         outstanding: nat, lockedBy: Option<ThreadId>, threads: map<ThreadId, Pc>,
                         accepted: seq<Buffer>, offered: seq<seq<Buffer>>, refused: set<nat>)

  datatype Action =
    | BeginSend(t: ThreadId, buffer: Buffer)
    | Queue(t: ThreadId)
    | EnterRegister(t: ThreadId)
    | GatherBuffers(t: ThreadId)
    | WsaSend(t: ThreadId, taken: bool)
    | ClearFailed(t: ThreadId, disconnect: bool)
    | StoreUnregistered(t: ThreadId)
    | Complete(t: ThreadId, bytes: nat)
    | ClearEvent(t: ThreadId)
    | TakeLock(t: ThreadId)
    | Decide(t: ThreadId)
    | ReleaseLock(t: ThreadId)
    | Disconnect(t: ThreadId)

  predicate Enabled(s: State, a: Action) {
    a.t in s.threads &&
    var pc := s.threads[a.t];
    match a
    case BeginSend(_, _) => pc.Ready?
    case Queue(_) => pc.Checked? && s.lockedBy == None
    case EnterRegister(_) => pc.Must?
    case GatherBuffers(t) => pc.Gather? && s.lockedBy == if pc.held then Some(t) else None
    case WsaSend(_, _) => pc.Calling?
    case ClearFailed(_, _) => pc.Failed?
    case StoreUnregistered(_) => pc.FailedCleared?
    case Complete(_, _) => pc.Ready? && s.outstanding > 0
    case ClearEvent(_) => pc.Completing?
    case TakeLock(_) => pc.Locking? && s.lockedBy == None
    case Decide(_) => pc.Deciding?
    case ReleaseLock(_) => pc.Returning?
    case Disconnect(_) => pc.Ready?
  }

  function Done(held: bool): Pc { if held then Returning else Ready }

  function Apply(s: State, a: Action): State
    requires Enabled(s, a)
  {
    var t := a.t;
    var pc := s.threads[t];
    match a
    case BeginSend(_, buffer) =>
      s.(threads := s.threads[t := if s.connected then Checked(buffer) else Ready])
    case Queue(_) =>
      s.(queue := s.queue + [pc.buffer], accepted := s.accepted + [pc.buffer], registered := true,
         threads := s.threads[t := if s.registered then Ready else Must(false)])
    case EnterRegister(_) =>
      s.(threads := s.threads[t := if s.connected then Gather(pc.held) else Done(pc.held)])
    case GatherBuffers(_) =>
      s.(event := s.event + s.queue, queue := [], threads := s.threads[t := Calling(pc.held)])
    case WsaSend(_, taken) =>
      if taken then
        s.(outstanding := s.outstanding + 1, offered := s.offered + [s.event], threads := s.threads[t := Done(pc.held)])
      else
        s.(offered := s.offered + [s.event], refused := s.refused + {|s.offered|}, threads := s.threads[t := Failed(pc.held)])
    case ClearFailed(_, disconnect) =>
      s.(connected := s.connected && !disconnect, event := [], threads := s.threads[t := FailedCleared(pc.held)])
    case StoreUnregistered(_) =>
      s.(registered := false, threads := s.threads[t := Done(pc.held)])
    case Complete(_, bytes) =>
      s.(outstanding := s.outstanding - 1, threads := s.threads[t := Completing(bytes)])
    case ClearEvent(_) =>
      if pc.bytes == 0 then s.(event := [], connected := false, threads := s.threads[t := Ready])
      else s.(event := [], threads := s.threads[t := Locking])
    case TakeLock(_) =>
      s.(lockedBy := Some(t), threads := s.threads[t := Deciding])
    case Decide(_) =>
      if s.queue == [] then s.(registered := false, threads := s.threads[t := Returning])
      else s.(threads := s.threads[t := Must(true)])
    case ReleaseLock(_) =>
      s.(lockedBy := None, threads := s.threads[t := Ready])
    case Disconnect(_) =>
      s.(connected := false)
  }

  ghost predicate Init(s: State) {
    && s.queue == [] && !s.registered && s.event == [] && s.outstanding == 0 && s.lockedBy == None
    && s.accepted == [] && s.offered == [] && s.refused == {}
    && forall t :: t in s.threads ==> s.threads[t] == Ready
  }

  ghost predicate Next(s: State, s': State) {
    exists a :: Enabled(s, a) && s' == Apply(s, a)
  }

  ghost predicate IsRun(run: seq<State>) {
    && run != []
    && Init(run[0])
    && forall i :: 0 <= i < |run| - 1 ==> Next(run[i], run[i + 1])
  }

  // ---------------------------------------------------------------- the invariant

  /** A thread with this point in the code has the duty to keep sends going. */
  predicate OnDuty(pc: Pc) {
    !pc.Ready? && !pc.Checked? && !pc.Returning?
  }

  predicate UnderLock(pc: Pc) {
    || pc.Deciding? || pc.Returning?
    || ((pc.Must? || pc.Gather? || pc.Calling? || pc.Failed? || pc.FailedCleared?) && pc.held)
  }

  predicate Duty(s: State, t: ThreadId) {
    t in s.threads && OnDuty(s.threads[t])
  }

  /** The thread has gathered buffers into the event and is responsible for clearing it. */
  predicate UsesEvent(s: State, t: ThreadId) {
    t in s.threads && var pc := s.threads[t]; pc.Calling? || pc.Failed? || pc.Completing?
  }

  predicate Gathered(s: State, t: ThreadId) {
    t in s.threads && s.threads[t].Calling?
  }

  /** The duty is held by one thread or by the kernel, never twice, and only while registered. */
  ghost predicate OneDuty(s: State) {
    && (forall t, u :: Duty(s, t) && Duty(s, u) ==> t == u)
    && s.outstanding <= 1
    && (forall t :: Duty(s, t) ==> s.outstanding == 0 && s.registered)
    && (s.outstanding == 1 ==> s.registered)
    && (s.registered && s.connected && s.outstanding == 0 ==> exists t :: Duty(s, t))
  }

  ghost predicate LockOk(s: State) {
    forall t :: t in s.threads && UnderLock(s.threads[t]) ==> s.lockedBy == Some(t)
  }

  /** Buffers move from the queue to the event to the kernel without loss or reordering. */
  ghost predicate BuffersOk(s: State) {
    && (s.outstanding == 1 ==> s.offered != [] && s.event == s.offered[|s.offered| - 1] && |s.offered| - 1 !in s.refused)
    && (forall k :: k in s.refused ==> k < |s.offered|)
    && (s.outstanding == 0 && (forall t :: !UsesEvent(s, t)) ==> s.event == [])
    && (forall t :: Duty(s, t) && (s.threads[t].Must? || s.threads[t].Gather?) ==> s.queue != [])
    && (forall t :: Gathered(s, t) ==> s.event != [])
    && (forall i :: 0 <= i < |s.offered| ==> s.offered[i] != [])
    && (s.refused == {} && !s.registered ==> s.queue == [])
    && (forall t :: Duty(s, t) && (s.threads[t].Failed? || s.threads[t].FailedCleared?) ==> s.refused != {})
  }

  /** Every accepted buffer has been offered, is in the batch being gathered, or is queued. */
  ghost predicate Conserved(s: State) {
    && (forall t :: Gathered(s, t) ==> s.accepted == Concat(s.offered) + s.event + s.queue)
    && ((forall t :: !Gathered(s, t)) ==> s.accepted == Concat(s.offered) + s.queue)
  }

  ghost predicate Inv(s: State) {
    OneDuty(s) && LockOk(s) && BuffersOk(s) && Conserved(s)
  }

  lemma DutyStep(s: State, a: Action)
    requires Inv(s) && Enabled(s, a)
    ensures OneDuty(Apply(s, a))
  {
    hide BuffersOk, Conserved, LockOk;
    var s' := Apply(s, a);
    var t := a.t;
    forall u | u != t ensures Duty(s', u) == Duty(s, u) {}
    assert Duty(s, t) == OnDuty(s.threads[t]) && Duty(s', t) == OnDuty(s'.threads[t]);
    assert !a.Queue? || s.registered || s'.threads[t] == Must(false);
  }

  lemma LockStep(s: State, a: Action)
    requires LockOk(s) && Enabled(s, a)
    ensures LockOk(Apply(s, a))
  {
    var s' := Apply(s, a);
    forall u | u in s'.threads && UnderLock(s'.threads[u]) ensures s'.lockedBy == Some(u) {
      if u != a.t { assert s'.threads[u] == s.threads[u]; }
    }
  }

  lemma Frame(s: State, a: Action, u: ThreadId)
    requires Enabled(s, a) && u != a.t
    ensures Duty(Apply(s, a), u) == Duty(s, u)
    ensures UsesEvent(Apply(s, a), u) == UsesEvent(s, u) && Gathered(Apply(s, a), u) == Gathered(s, u)
    ensures Duty(s, u) ==> Apply(s, a).threads[u] == s.threads[u]
  {}

  /** While one thread is on duty no other thread touches the event. */
  lemma NobodyElse(s: State, t: ThreadId, u: ThreadId)
    requires OneDuty(s) && Duty(s, t) && u != t
    ensures !Duty(s, u) && !UsesEvent(s, u) && !Gathered(s, u)
  {}

  /** A step of the thread on duty: nobody else's duty has to be considered. */
  lemma BuffersStepOnDuty(s: State, a: Action)
    requires Inv(s) && Enabled(s, a) && Duty(s, a.t)
    ensures BuffersOk(Apply(s, a))
  {
    var s', t := Apply(s, a), a.t;
    forall u | u != t ensures !Duty(s', u) && !UsesEvent(s', u) && !UsesEvent(s, u) && !Gathered(s', u) {
      Frame(s, a, u);
      NobodyElse(s, t, u);
    }
    assert UsesEvent(s', t) <==> var pc := s'.threads[t]; pc.Calling? || pc.Failed? || pc.Completing?;
    assert UsesEvent(s, t) <==> var pc := s.threads[t]; pc.Calling? || pc.Failed? || pc.Completing?;
    assert a.WsaSend? ==> Gathered(s, t);
  }

  /** A step of any other thread leaves the duty holder's own state alone. */
  lemma BuffersStepOffDuty(s: State, a: Action)
    requires Inv(s) && Enabled(s, a) && !Duty(s, a.t)
    ensures BuffersOk(Apply(s, a))
  {
    var s', t := Apply(s, a), a.t;
    forall u | u != t
      ensures Duty(s', u) == Duty(s, u) && UsesEvent(s', u) == UsesEvent(s, u) && Gathered(s', u) == Gathered(s, u)
      ensures Duty(s, u) ==> s'.threads[u] == s.threads[u]
    {
      Frame(s, a, u);
    }
    assert !UsesEvent(s, t) && (UsesEvent(s', t) <==> a.Complete?);
  }

  lemma ConservedOnDuty(s: State, a: Action)
    requires Inv(s) && Enabled(s, a) && Duty(s, a.t)
    ensures Conserved(Apply(s, a))
  {
    var s', t := Apply(s, a), a.t;
    ConcatSnoc(s.offered, s.event);
    forall u | u != t ensures !Gathered(s', u) && !Gathered(s, u) && !UsesEvent(s, u) {
      Frame(s, a, u);
      NobodyElse(s, t, u);
    }
    assert (Gathered(s', t) <==> s'.threads[t].Calling?) && (Gathered(s, t) <==> s.threads[t].Calling?);
    if a.GatherBuffers? {
      assert !UsesEvent(s, t) && s.event == [] && s'.event == s.queue;
      assert Concat(s.offered) + s.queue + [] == Concat(s.offered) + s.queue;
    }
  }

  lemma ConservedOffDuty(s: State, a: Action)
    requires Inv(s) && Enabled(s, a) && !Duty(s, a.t)
    ensures Conserved(Apply(s, a))
  {
    var s', t := Apply(s, a), a.t;
    forall u ensures Gathered(s', u) == Gathered(s, u) {
      if u != t { Frame(s, a, u); }
    }
    if a.Queue? {
      var x := [s.threads[t].buffer];
      assert Concat(s.offered) + (s.queue + x) == (Concat(s.offered) + s.queue) + x;
      assert Concat(s.offered) + s.event + (s.queue + x) == (Concat(s.offered) + s.event + s.queue) + x;
    }
  }

  lemma InvStep(s: State, a: Action)
    requires Inv(s) && Enabled(s, a)
    ensures Inv(Apply(s, a))
  {
    DutyStep(s, a);
    LockStep(s, a);
    if Duty(s, a.t) {
      BuffersStepOnDuty(s, a);
      ConservedOnDuty(s, a);
    } else {
      BuffersStepOffDuty(s, a);
      ConservedOffDuty(s, a);
    }
    hide OneDuty, LockOk, BuffersOk, Conserved;
  }

  lemma {:induction false} InvAlways(run: seq<State>, i: nat)
    requires IsRun(run) && i < |run|
    ensures Inv(run[i])
  {
    if i > 0 {
      InvAlways(run, i - 1);
      assert Next(run[i - 1], run[i - 1 + 1]);
      hide Inv, Apply, Enabled;
      var a :| Enabled(run[i - 1], a) && run[i] == Apply(run[i - 1], a);
      InvStep(run[i - 1], a);
    }
  }

  // ---------------------------------------------------------------- the guarantees

  /** At most one `WSASend` is outstanding, also after refusals and disconnects, and the buffers it
      is sending stay referenced by the event until it completes. */
  lemma OneOutstanding(run: seq<State>, i: nat)
    requires IsRun(run) && i < |run|
    ensures run[i].outstanding <= 1
    ensures run[i].outstanding == 1 ==>
      run[i].offered != [] && run[i].event == run[i].offered[|run[i].offered| - 1] && |run[i].offered| - 1 !in run[i].refused
    ensures forall a :: Enabled(run[i], a) && a.WsaSend? ==> run[i].outstanding == 0
  {
    InvAlways(run, i);
    forall a | Enabled(run[i], a) && a.WsaSend? ensures run[i].outstanding == 0 { assert Duty(run[i], a.t); }
  }

  /** The buffers gathered for the next call, if a thread is about to make it. */
  ghost function InHand(s: State): seq<Buffer> {
    if exists t :: Gathered(s, t) then s.event else []
  }

  /** Sends are in lock order, also after refusals: the batches offered to WSASend, the batch in hand
      and the queue are the accepted buffers, and no batch is empty.  So the only buffers ever lost are
      those of the batches it refused. */
  lemma SendsInOrder(run: seq<State>, i: nat)
    requires IsRun(run) && i < |run|
    ensures run[i].accepted == Concat(run[i].offered) + InHand(run[i]) + run[i].queue
    ensures forall k :: 0 <= k < |run[i].offered| ==> run[i].offered[k] != []
  {
    InvAlways(run, i);
    var s := run[i];
    if !(exists t :: Gathered(s, t)) {
      assert Concat(s.offered) + [] + s.queue == Concat(s.offered) + s.queue;
    }
  }

  /** No buffer is forgotten: while connected and never refused, a nonempty queue means the session
      is registered and a thread or the kernel has the duty to send it. */
  lemma QueuedMeansDuty(run: seq<State>, i: nat)
    requires IsRun(run) && i < |run|
    requires run[i].connected && run[i].refused == {} && run[i].queue != []
    ensures run[i].registered && (run[i].outstanding == 1 || exists t :: Duty(run[i], t))
  {
    InvAlways(run, i);
  }

  /** The duty is never held twice. */
  lemma DutyIsUnique(run: seq<State>, i: nat, t: ThreadId, u: ThreadId)
    requires IsRun(run) && i < |run| && Duty(run[i], t)
    ensures run[i].outstanding == 0
    ensures Duty(run[i], u) ==> u == t
  {
    InvAlways(run, i);
  }

  /** A buffer is queued on a connected session, and neither a thread nor the kernel has the duty to
      send it. */
  ghost predicate Stranded(s: State) {
    s.connected && s.queue != [] && s.outstanding == 0 && forall t :: !Duty(s, t)
  }

  /** Refusals included: the buffers queued on a connected session are somebody's duty exactly while
      the session is registered. */
  lemma ServedIffRegistered(run: seq<State>, i: nat)
    requires IsRun(run) && i < |run| && run[i].connected && run[i].queue != []
    ensures (run[i].outstanding == 1 || exists t :: Duty(run[i], t)) <==> run[i].registered
  {
    InvAlways(run, i);
  }

  lemma StrandedIffUnregistered(s: State)
    requires Inv(s)
    ensures Stranded(s) <==> s.connected && s.queue != [] && !s.registered
  {
    hide BuffersOk, Conserved, LockOk;
  }

  /** Exactly one step leaves a buffer behind: the store that ends a refused send, on a session that is
      still connected and has been given a buffer since the batch was gathered. */
  lemma StrandedExactlyByRefusal(run: seq<State>, i: nat, a: Action)
    requires IsRun(run) && i < |run| && Enabled(run[i], a) && !Stranded(run[i])
    ensures Stranded(Apply(run[i], a)) <==> a.StoreUnregistered? && run[i].connected && run[i].queue != []
  {
    InvAlways(run, i);
    InvStep(run[i], a);
    StrandedIffUnregistered(run[i]);
    StrandedIffUnregistered(Apply(run[i], a));
    hide Inv, Stranded;
  }

  /** What was left behind stays behind until another buffer is queued or the session disconnects; the
      sender of that buffer then serves both. */
  lemma StrandedUntilNextSend(run: seq<State>, i: nat, a: Action)
    requires IsRun(run) && i < |run| && Enabled(run[i], a) && Stranded(run[i])
    ensures Stranded(Apply(run[i], a)) <==> !a.Queue? && Apply(run[i], a).connected
    ensures a.Queue? ==> Apply(run[i], a).threads[a.t] == Must(false)
  {
    InvAlways(run, i);
    InvStep(run[i], a);
    StrandedIffUnregistered(run[i]);
    StrandedIffUnregistered(Apply(run[i], a));
    assert !Duty(run[i], a.t);
    hide Inv, Stranded;
  }

  lemma Extend(run: seq<State>, a: Action) returns (run': seq<State>)
    requires IsRun(run) && Enabled(run[|run| - 1], a)
    ensures IsRun(run') && run'[|run'| - 1] == Apply(run[|run| - 1], a)
  {
    run' := run + [Apply(run[|run| - 1], a)];
    forall i | 0 <= i < |run'| - 1 ensures Next(run'[i], run'[i + 1]) {
      if i < |run| - 1 { assert Next(run[i], run[i + 1]); }
    }
  }

  /** One sender has gathered buffer 1 and been refused; a second sender has seen the session
      connected. */
  lemma RefusedRun() returns (run: seq<State>)
    ensures IsRun(run)
    ensures run[|run| - 1] == State(true, [], true, [1], 0, None, map[0 := Failed(false), 1 := Checked(2)], [1], [[1]], {0})
  {
    hide Inv;
    var start := State(true, [], false, [], 0, None, map[0 := Ready, 1 := Ready], [], [], {});
    run := [start];
    run := Extend(run, BeginSend(0, 1));
    run := Extend(run, Queue(0));
    assert run[|run| - 1] == start.(queue := [1], registered := true, accepted := [1], threads := map[0 := Must(false), 1 := Ready]);
    run := Extend(run, EnterRegister(0));
    run := Extend(run, GatherBuffers(0));
    assert run[|run| - 1] == State(true, [], true, [1], 0, None, map[0 := Calling(false), 1 := Ready], [1], [], {});
    run := RefusedThenChecked(run);
  }

  lemma RefusedThenChecked(run: seq<State>) returns (run': seq<State>)
    requires IsRun(run)
    requires run[|run| - 1] == State(true, [], true, [1], 0, None, map[0 := Calling(false), 1 := Ready], [1], [], {})
    ensures IsRun(run')
    ensures run'[|run'| - 1] == State(true, [], true, [1], 0, None, map[0 := Failed(false), 1 := Checked(2)], [1], [[1]], {0})
  {
    run' := Extend(run, WsaSend(0, false));
    run' := Extend(run', BeginSend(1, 2));
  }

  /** A run in which that happens: WSASend refuses a batch, and a buffer queued meanwhile by another
      thread is left behind with nobody on duty, although the session is still connected. */
  lemma RefusalStrandsBuffer() returns (run: seq<State>)
    ensures IsRun(run)
    ensures Stranded(run[|run| - 1]) && run[|run| - 1].queue == [2]
  {
    run := RefusedRun();
    run := Extend(run, Queue(1));
    run := Extend(run, ClearFailed(0, false));
    run := Extend(run, StoreUnregistered(0));
    assert run[|run| - 1] == State(true, [2], false, [], 0, None, map[0 := Ready, 1 := Ready], [1, 2], [[1]], {0});
  }
}
