/** Whole runs of the lock-order profiler, and what they say about deadlock.  Locks are taken and
    released by guards (`thread/lock.h`), so a thread always releases the name it took last.  A run
    has no crash in it: a crash ends the process. */
module LockOrder {
  import opened LockGraph
  import opened DeadLockProfilers

  /** Histories: `held` are the names each thread's live guards were given, oldest first, and `taken`
      every acquisition so far, as the name of the thread's innermost guard and the name it took. */
  datatype State = State(profile: Profile, held: map<ThreadId, seq<Name>>, taken: set<(Name, Name)>)

  function Held(s: State, t: ThreadId): seq<Name> {
    if t in s.held then s.held[t] else []
  }

  /** What taking `name` adds to the acquisitions. */
  function Acquired(s: State, t: ThreadId, name: Name): set<(Name, Name)> {
    s.taken + if Held(s, t) == [] then {} else {(Held(s, t)[|Held(s, t)| - 1], name)}
  }

  datatype Action = Lock(t: ThreadId, name: Name) | Unlock(t: ThreadId)

  ghost predicate Enabled(s: State, a: Action) {
    match a
    case Lock(t, name) => !HasCycle(Pushed(s.profile, t, name).history)
    case Unlock(t) => Held(s, t) != [] && Popped(s.profile, t, Held(s, t)[|Held(s, t)| - 1]).0 == NoCrash
  }

  ghost function Apply(s: State, a: Action): State
    requires Enabled(s, a)
  {
    match a
    case Lock(t, name) => State(Pushed(s.profile, t, name), s.held[t := Held(s, t) + [name]], Acquired(s, t, name))
    case Unlock(t) =>
      var names := Held(s, t);
      State(Popped(s.profile, t, names[|names| - 1]).1, s.held[t := names[..|names| - 1]], s.taken)
  }

  ghost predicate Next(s: State, s': State) {
    exists a :: Enabled(s, a) && s' == Apply(s, a)
  }

  ghost predicate IsRun(run: seq<State>) {
    && run != []
    && run[0] == State(Profile(map[], map[], map[], map[]), map[], {})
    && forall i :: 0 <= i < |run| - 1 ==> Next(run[i], run[i + 1])
  }

  // ---------------------------------------------------------------- the invariant

  /** Ids and names determine each other, and ids are 0, 1, 2, ... */
  ghost predicate Paired(names: map<Name, int>, labels: map<int, Name>) {
    && (forall name :: name in names ==> 0 <= names[name] < |names|)
    && (forall name :: name in names ==> names[name] in labels && labels[names[name]] == name)
    && (forall id :: id in labels ==> labels[id] in names && names[labels[id]] == id)
    && (forall id :: 0 <= id < |names| ==> id in labels)
  }

  ghost predicate Bijection(p: Profile) {
    Paired(p.names, p.labels)
  }

  /** The stack of a thread is the ids of its guards, and it follows recorded edges. */
  ghost predicate StackOk(s: State, t: ThreadId) {
    var stack := StackOf(s.profile, t);
    && |stack| == |Held(s, t)|
    && (forall i :: 0 <= i < |stack| ==> Held(s, t)[i] in s.profile.names && stack[i] == s.profile.names[Held(s, t)[i]])
    && (forall i :: 0 <= i < |stack| - 1 ==> stack[i] == stack[i + 1] || Edge(s.profile.history, stack[i], stack[i + 1]))
  }

  /** The names of two ids were taken directly one after the other by some thread. */
  predicate Taken(taken: set<(Name, Name)>, labels: map<int, Name>, u: int, v: int) {
    u != v && u in labels && v in labels && (labels[u], labels[v]) in taken
  }

  /** The history is the acquisitions of different names, no more and no less. */
  ghost predicate Recorded(g: Graph, labels: map<int, Name>, taken: set<(Name, Name)>) {
    forall u, v :: Edge(g, u, v) <==> Taken(taken, labels, u, v)
  }

  ghost predicate TakenKnown(taken: set<(Name, Name)>, names: map<Name, int>) {
    forall m, n :: (m, n) in taken ==> m in names && n in names
  }

  ghost predicate Inv(s: State) {
    && Bijection(s.profile)
    && Recorded(s.profile.history, s.profile.labels, s.taken) && TakenKnown(s.taken, s.profile.names)
    && WellFormed(s.profile.history, |s.profile.names|)
    && !HasCycle(s.profile.history)
    && forall t :: StackOk(s, t)
  }

  lemma NewNameKeepsPairs(names: map<Name, int>, labels: map<int, Name>, name: Name)
    requires Paired(names, labels) && name !in names
    ensures Paired(names[name := |names|], labels[|names| := name])
  {
    assert |names[name := |names|]| == |names| + 1;
    assert |names| !in labels;
  }

  lemma PushKeepsBijection(p: Profile, t: ThreadId, name: Name)
    requires Bijection(p)
    ensures Bijection(Pushed(p, t, name))
  {
    if name in p.names {
      assert p.names[name := p.names[name]] == p.names;
    } else {
      hide Paired, HistoryAfter;
      NewNameKeepsPairs(p.names, p.labels, name);
    }
  }

  lemma PushKeepsWellFormed(s: State, t: ThreadId, name: Name)
    requires Inv(s)
    ensures WellFormed(Pushed(s.profile, t, name).history, |Pushed(s.profile, t, name).names|)
  {
    var p, p' := s.profile, Pushed(s.profile, t, name);
    PushKeepsBijection(p, t, name);
    assert |p'.names| >= |p.names| by {
      if name in p.names { assert p'.names == p.names; }
    }
    assert StackOk(s, t);
    forall u, v | Edge(p'.history, u, v) ensures 0 <= u < |p'.names| && 0 <= v < |p'.names| && u != v {
      if !Edge(p.history, u, v) { assert v == IdOf(p, name) == p'.names[name]; }
    }
  }

  lemma PushKeepsStacks(s: State, t: ThreadId, name: Name, u: ThreadId)
    requires Inv(s) && Enabled(s, Lock(t, name))
    ensures StackOk(Apply(s, Lock(t, name)), u)
  {
    var s' := Apply(s, Lock(t, name));
    assert StackOk(s, u);
    forall x, y | Edge(s.profile.history, x, y) ensures Edge(s'.profile.history, x, y) {}
    forall n | n in s.profile.names ensures s'.profile.names[n] == s.profile.names[n] {}
    var stack, stack' := StackOf(s.profile, u), StackOf(s'.profile, u);
    forall i | 0 <= i < |stack'| - 1 ensures stack'[i] == stack'[i + 1] || Edge(s'.profile.history, stack'[i], stack'[i + 1]) {
      if i + 1 < |stack| {
        assert stack'[i] == stack[i] && stack'[i + 1] == stack[i + 1];
      }
    }
  }

  /** The edge a lock adds to the history is the acquisition it adds to the record. */
  lemma PushKeepsRecord(s: State, t: ThreadId, name: Name)
    requires Inv(s)
    ensures Recorded(Pushed(s.profile, t, name).history, Pushed(s.profile, t, name).labels, Acquired(s, t, name))
    ensures TakenKnown(Acquired(s, t, name), Pushed(s.profile, t, name).names)
  {
    var p, p', taken' := s.profile, Pushed(s.profile, t, name), Acquired(s, t, name);
    PushKeepsBijection(p, t, name);
    assert StackOk(s, t);
    forall u, v ensures Edge(p'.history, u, v) <==> Taken(taken', p'.labels, u, v) {
      assert Edge(p.history, u, v) <==> Taken(s.taken, p.labels, u, v);
    }
  }

  /** Guards never make `PopLock` crash, and popping touches nothing but the stack. */
  lemma GuardedPop(s: State, t: ThreadId)
    requires Inv(s) && Held(s, t) != []
    ensures var names, stack := Held(s, t), StackOf(s.profile, t);
      stack != [] && Popped(s.profile, t, names[|names| - 1]) ==
        (NoCrash, s.profile.(stacks := s.profile.stacks[t := stack[..|stack| - 1]]))
  {
    assert StackOk(s, t);
  }

  lemma InvStep(s: State, a: Action)
    requires Inv(s) && Enabled(s, a)
    ensures Inv(Apply(s, a))
  {
    var s' := Apply(s, a);
    match a
    case Lock(t, name) =>
      PushKeepsBijection(s.profile, t, name);
      PushKeepsWellFormed(s, t, name);
      PushKeepsRecord(s, t, name);
      forall u ensures StackOk(s', u) { PushKeepsStacks(s, t, name, u); }
    case Unlock(t) =>
      GuardedPop(s, t);
      forall u ensures StackOk(s', u) { assert StackOk(s, u); }
  }

  lemma {:induction false} InvAlways(run: seq<State>, i: nat)
    requires IsRun(run) && i < |run|
    ensures Inv(run[i])
  {
    if i == 0 {
      forall u, v ensures !Edge(map[], u, v) {}
      RankedMeansAcyclic(map[], []);
    } else {
      InvAlways(run, i - 1);
      assert Next(run[i - 1], run[i - 1 + 1]);
      var a :| Enabled(run[i - 1], a) && run[i] == Apply(run[i - 1], a);
      InvStep(run[i - 1], a);
    }
  }

  // ---------------------------------------------------------------- the guarantees

  /** Over whole runs ids and names stay a bijection, the history stays acyclic, and no guard's
      release crashes. */
  lemma ProfilerStaysSound(run: seq<State>, i: nat)
    requires IsRun(run) && i < |run|
    ensures Bijection(run[i].profile) && !HasCycle(run[i].profile.history)
    ensures forall t :: Held(run[i], t) != [] ==> Enabled(run[i], Unlock(t))
  {
    InvAlways(run, i);
    forall t | Held(run[i], t) != [] ensures Enabled(run[i], Unlock(t)) { GuardedPop(run[i], t); }
  }

  /** The recorded order is what happened: there is an edge between two ids exactly if some thread took
      the second one's lock when the first one's was the innermost it had. */
  lemma HistoryIsAcquisitions(run: seq<State>, i: nat, u: int, v: int)
    requires IsRun(run) && i < |run|
    ensures Edge(run[i].profile.history, u, v) <==> Taken(run[i].taken, run[i].profile.labels, u, v)
  {
    InvAlways(run, i);
  }

  /** A run together with the actions that made it. */
  ghost predicate IsTrace(run: seq<State>, acts: seq<Action>) {
    && IsRun(run) && |run| == |acts| + 1
    && forall i :: 0 <= i < |acts| ==> Enabled(run[i], acts[i]) && run[i + 1] == Apply(run[i], acts[i])
  }

  /** At step `k` some thread whose innermost recorded lock had id `u` took the lock with id `v`. */
  ghost predicate TakesAt(run: seq<State>, acts: seq<Action>, k: nat, u: int, v: int)
    requires IsTrace(run, acts)
  {
    && k < |acts| && acts[k].Lock?
    && var stack := StackOf(run[k].profile, acts[k].t);
    && stack != [] && stack[|stack| - 1] == u && acts[k].name in run[k + 1].profile.names && run[k + 1].profile.names[acts[k].name] == v
  }

  lemma EdgeStep(p: Profile, t: ThreadId, name: Name, u: int, v: int)
    ensures name in Pushed(p, t, name).names
    ensures Edge(Pushed(p, t, name).history, u, v) <==>
      Edge(p.history, u, v) || (StackOf(p, t) != [] && StackOf(p, t)[|StackOf(p, t)| - 1] == u != v == Pushed(p, t, name).names[name])
  {}

  lemma TraceEdgeStep(run: seq<State>, acts: seq<Action>, i: nat, u: int, v: int)
    requires IsTrace(run, acts) && i < |acts|
    ensures i + 1 < |run|
    ensures Edge(run[i + 1].profile.history, u, v) <==> Edge(run[i].profile.history, u, v) || (u != v && TakesAt(run, acts, i, u, v))
  {
    assert Enabled(run[i], acts[i]) && run[i + 1] == Apply(run[i], acts[i]);
    hide IsTrace, Enabled, Apply, Edge, StackOf;
    StepEdges(run[i], acts[i], u, v);
  }

  lemma StepEdges(s: State, a: Action, u: int, v: int)
    requires Enabled(s, a)
    ensures var before, after, stack := s.profile, Apply(s, a).profile, StackOf(s.profile, a.t);
      if a.Lock? then a.name in after.names
        && (Edge(after.history, u, v) <==>
              Edge(before.history, u, v) || (stack != [] && stack[|stack| - 1] == u != v == after.names[a.name]))
      else Edge(after.history, u, v) <==> Edge(before.history, u, v)
  {
    if a.Lock? {
      EdgeStep(s.profile, a.t, a.name, u, v);
      hide Pushed, Edge, StackOf;
    }
  }

  /** There is an edge exactly if at some earlier step such a thread took another lock. */
  lemma {:induction false} EdgeIsAStep(run: seq<State>, acts: seq<Action>, i: nat, u: int, v: int)
    requires IsTrace(run, acts) && i <= |acts|
    ensures i < |run| && (Edge(run[i].profile.history, u, v) <==> u != v && exists k: nat :: k < i && TakesAt(run, acts, k, u, v))
  {
    if i == 0 {
      hide Enabled, Apply, TakesAt;
    } else {
      hide *;
      EdgeIsAStep(run, acts, i - 1, u, v);
      TraceEdgeStep(run, acts, i - 1, u, v);
    }
  }

  /** Some acquisitions, each of another name than the lock held, lead back to where they began. */
  ghost predicate AcquiredCycle(taken: set<(Name, Name)>) {
    exists ring: seq<Name> :: IsAcquiredCycle(taken, ring)
  }

  ghost predicate IsAcquiredCycle(taken: set<(Name, Name)>, ring: seq<Name>) {
    && |ring| >= 2 && ring[0] == ring[|ring| - 1]
    && forall k :: 0 <= k < |ring| - 1 ==> ring[k] != ring[k + 1] && (ring[k], ring[k + 1]) in taken
  }

  lemma CycleToNames(g: Graph, labels: map<int, Name>, taken: set<(Name, Name)>, names: map<Name, int>, p: seq<int>)
    requires Recorded(g, labels, taken) && Paired(names, labels) && IsCycle(g, p)
    ensures AcquiredCycle(taken)
  {
    assert forall k :: 0 <= k < |p| - 1 ==> Edge(g, p[k], p[k + 1]);
    forall k | 0 <= k < |p| ensures p[k] in labels {
      if k < |p| - 1 {
        assert Taken(taken, labels, p[k], p[k + 1]);
      } else {
        assert Taken(taken, labels, p[k - 1], p[k - 1 + 1]);
      }
    }
    var ring: seq<Name> := seq(|p|, k requires 0 <= k < |p| => labels[p[k]]);
    forall k | 0 <= k < |ring| - 1 ensures ring[k] != ring[k + 1] && (ring[k], ring[k + 1]) in taken {
      assert Taken(taken, labels, p[k], p[k + 1]);
    }
    assert IsAcquiredCycle(taken, ring);
  }

  lemma CycleToIds(g: Graph, labels: map<int, Name>, taken: set<(Name, Name)>, names: map<Name, int>, ring: seq<Name>)
    requires Recorded(g, labels, taken) && Paired(names, labels) && TakenKnown(taken, names) && IsAcquiredCycle(taken, ring)
    ensures HasCycle(g)
  {
    assert forall k :: 0 <= k < |ring| - 1 ==> (ring[k], ring[k + 1]) in taken;
    forall k | 0 <= k < |ring| ensures ring[k] in names {
      if k < |ring| - 1 {
        assert (ring[k], ring[k + 1]) in taken;
      } else {
        assert (ring[k - 1], ring[k - 1 + 1]) in taken;
      }
    }
    var p: seq<int> := seq(|ring|, k requires 0 <= k < |ring| => names[ring[k]]);
    forall k | 0 <= k < |p| - 1 ensures Edge(g, p[k], p[k + 1]) {
      assert ring[k] != ring[k + 1] && (ring[k], ring[k + 1]) in taken;
      assert Taken(taken, labels, p[k], p[k + 1]);
    }
    assert IsCycle(g, p);
  }

  /** So `PushLock` reports a deadlock exactly if the acquisitions that happened, the new one included,
      have a cycle. */
  lemma CrashMeansAcquiredCycle(run: seq<State>, i: nat, t: ThreadId, name: Name)
    requires IsRun(run) && i < |run|
    ensures HasCycle(Pushed(run[i].profile, t, name).history) <==> AcquiredCycle(Acquired(run[i], t, name))
  {
    InvAlways(run, i);
    var s := run[i];
    PushKeepsRecord(s, t, name);
    PushKeepsBijection(s.profile, t, name);
    var p', taken' := Pushed(s.profile, t, name), Acquired(s, t, name);
    hide Inv, Pushed, Acquired, IsAcquiredCycle, IsCycle, Recorded, Paired;
    if HasCycle(p'.history) {
      var p :| IsCycle(p'.history, p);
      CycleToNames(p'.history, p'.labels, taken', p'.names, p);
    }
    if AcquiredCycle(taken') {
      var ring :| IsAcquiredCycle(taken', ring);
      CycleToIds(p'.history, p'.labels, taken', p'.names, ring);
    }
  }

  function Top(s: State, t: ThreadId): Name
    requires Held(s, t) != []
  {
    Held(s, t)[|Held(s, t)| - 1]
  }

  /** The name whose id the release looks up: a name that was never taken is given id 0. */
  function Found(s: State, name: Name): Name
    requires 0 in s.profile.labels
  {
    if name in s.profile.names then name else s.profile.labels[0]
  }

  /** When a release crashes, guarded or not: with nothing held, or with another name than the one taken
      last.  A name that was never taken passes for the first one that was. */
  lemma UnlockCrashesExactly(run: seq<State>, i: nat, t: ThreadId, name: Name)
    requires IsRun(run) && i < |run|
    ensures Popped(run[i].profile, t, name).0 == MultipleUnlock <==> Held(run[i], t) == []
    ensures Held(run[i], t) != [] ==> 0 in run[i].profile.labels
    ensures Held(run[i], t) != [] ==> (Popped(run[i].profile, t, name).0 == InvalidUnlock <==> Top(run[i], t) != Found(run[i], name))
  {
    InvAlways(run, i);
    assert StackOk(run[i], t);
  }

  lemma {:induction false} StackReaches(s: State, t: ThreadId, i: nat, j: nat)
    requires StackOk(s, t) && i <= j < |StackOf(s.profile, t)|
    ensures Reaches(s.profile.history, StackOf(s.profile, t)[i], StackOf(s.profile, t)[j])
    decreases j - i
  {
    var g, stack := s.profile.history, StackOf(s.profile, t);
    if i == j {
      ReachesEdge(g, stack[i], stack[i]);
    } else {
      StackReaches(s, t, i, j - 1);
      assert stack[j - 1] == stack[j - 1 + 1] || Edge(g, stack[j - 1], stack[j - 1 + 1]);
      ReachesEdge(g, stack[j - 1], stack[j]);
      ReachesTransitive(g, stack[i], stack[j - 1], stack[j]);
    }
  }

  /** On a thread's stack, everything between two equal ids has that id too. */
  lemma EqualIdsAreContiguous(run: seq<State>, n: nat, t: ThreadId, i: nat, j: nat, k: nat)
    requires IsRun(run) && n < |run|
    requires i <= j <= k < |StackOf(run[n].profile, t)|
    requires StackOf(run[n].profile, t)[i] == StackOf(run[n].profile, t)[k]
    ensures StackOf(run[n].profile, t)[j] == StackOf(run[n].profile, t)[i]
  {
    InvAlways(run, n);
    assert StackOk(run[n], t);
    StackReaches(run[n], t, i, j);
    StackReaches(run[n], t, j, k);
    MutualReachMeansEqual(run[n].profile.history, StackOf(run[n].profile, t)[i], StackOf(run[n].profile, t)[j]);
  }

  /** `PushLock` records a lock before the thread has it, so a waiting thread waits for the lock on
      top of its stack and holds those below. */
  function Wanted(s: State, t: ThreadId): Name
    requires Held(s, t) != []
  {
    Held(s, t)[|Held(s, t)| - 1]
  }

  ghost predicate Holds(s: State, t: ThreadId, name: Name) {
    Held(s, t) != [] && name in Held(s, t)[..|Held(s, t)| - 1]
  }

  /** Every thread of `ring` wants a lock whose name the next one holds. */
  ghost predicate CircularWait(s: State, ring: seq<ThreadId>) {
    && ring != []
    && (forall k :: 0 <= k < |ring| ==> Held(s, ring[k]) != [])
    && (forall k :: 0 <= k < |ring| - 1 ==> Holds(s, ring[k + 1], Wanted(s, ring[k])))
    && Holds(s, ring[0], Wanted(s, ring[|ring| - 1]))
  }

  function WantedId(s: State, t: ThreadId): int
    requires Held(s, t) != [] && Wanted(s, t) in s.profile.names
  {
    s.profile.names[Wanted(s, t)]
  }

  lemma HeldReachesWanted(s: State, t: ThreadId, name: Name)
    requires Inv(s) && Holds(s, t, name)
    ensures name in s.profile.names && Wanted(s, t) in s.profile.names
    ensures Reaches(s.profile.history, s.profile.names[name], WantedId(s, t))
  {
    assert StackOk(s, t);
    var i :| 0 <= i < |Held(s, t)| - 1 && Held(s, t)[i] == name;
    StackReaches(s, t, i, |Held(s, t)| - 1);
  }

  lemma {:induction false} RingReaches(s: State, ring: seq<ThreadId>, j: nat, k: nat)
    requires Inv(s) && CircularWait(s, ring) && j <= k < |ring|
    ensures Wanted(s, ring[j]) in s.profile.names && Wanted(s, ring[k]) in s.profile.names
    ensures Reaches(s.profile.history, WantedId(s, ring[j]), WantedId(s, ring[k]))
    decreases k - j
  {
    assert StackOk(s, ring[j]);
    if j == k {
      ReachesEdge(s.profile.history, WantedId(s, ring[j]), WantedId(s, ring[j]));
    } else {
      RingReaches(s, ring, j, k - 1);
      assert Holds(s, ring[k - 1 + 1], Wanted(s, ring[k - 1]));
      HeldReachesWanted(s, ring[k], Wanted(s, ring[k - 1]));
      ReachesTransitive(s.profile.history, WantedId(s, ring[j]), WantedId(s, ring[k - 1]), WantedId(s, ring[k]));
    }
  }

  /** The deadlock theorem: in any circular wait between threads, all the locks waited for carry one
      single name.  Locks of different names can never deadlock. */
  lemma CircularWaitHasOneName(run: seq<State>, i: nat, ring: seq<ThreadId>, j: nat, k: nat)
    requires IsRun(run) && i < |run| && CircularWait(run[i], ring) && j <= k < |ring|
    ensures Wanted(run[i], ring[j]) == Wanted(run[i], ring[k])
  {
    InvAlways(run, i);
    var s := run[i];
    var g, last := s.profile.history, |ring| - 1;
    RingReaches(s, ring, j, k);
    RingReaches(s, ring, k, last);
    RingReaches(s, ring, 0, j);
    HeldReachesWanted(s, ring[0], Wanted(s, ring[last]));
    ReachesTransitive(g, WantedId(s, ring[k]), WantedId(s, ring[last]), WantedId(s, ring[0]));
    ReachesTransitive(g, WantedId(s, ring[k]), WantedId(s, ring[0]), WantedId(s, ring[j]));
    MutualReachMeansEqual(g, WantedId(s, ring[j]), WantedId(s, ring[k]));
    assert s.profile.labels[WantedId(s, ring[j])] == Wanted(s, ring[j]);
  }
}
