/** The lock-order profiler of `thread/dead_lock_profiler.cpp`.  Its public methods run under one
    mutex.  A crash is returned as the lines printed before it. */
module DeadLockProfilers {
  import opened LockGraph

  type Name = nat       // the address of a lock's name
  type ThreadId = nat

  // ---------------------------------------------------------------- what the methods compute

  datatype Profile = Profile(names: map<Name, int>, labels: map<int, Name>, history: Graph,
                             stacks: map<ThreadId, seq<int>>)

  datatype Crash = NoCrash | MultipleUnlock | InvalidUnlock

  function StackOf(p: Profile, t: ThreadId): seq<int> {
    if t in p.stacks then p.stacks[t] else []
  }

  function IdOf(p: Profile, name: Name): int {
    if name in p.names then p.names[name] else |p.names|
  }

  function Successors(g: Graph, u: int): set<int> {
    if u in g then g[u] else {}
  }

  /** The edge from the innermost held lock to the new one, unless they have the same id. */
  function HistoryAfter(p: Profile, t: ThreadId, name: Name): Graph {
    var stack, id := StackOf(p, t), IdOf(p, name);
    if stack == [] || stack[|stack| - 1] == id then p.history
    else var prev := stack[|stack| - 1]; p.history[prev := Successors(p.history, prev) + {id}]
  }

  function Pushed(p: Profile, t: ThreadId, name: Name): Profile {
    var id := IdOf(p, name);
    Profile(p.names[name := id], if name in p.names then p.labels else p.labels[id := name],
            HistoryAfter(p, t, name), p.stacks[t := StackOf(p, t) + [id]])
  }

  /** An unknown name is given id 0 by the lookup itself. */
  function Popped(p: Profile, t: ThreadId, name: Name): (Crash, Profile) {
    var stack := StackOf(p, t);
    if stack == [] then (MultipleUnlock, p) else
    var p' := if name in p.names then p else p.(names := p.names[name := 0]);
    if stack[|stack| - 1] != p'.names[name] then (InvalidUnlock, p')
    else (NoCrash, p'.(stacks := p'.stacks[t := stack[..|stack| - 1]]))
  }

  class DeadLockProfiler {
    var nameToId: map<Name, int>
    var idToName: map<int, Name>
    var history: Graph
    var stacks: map<ThreadId, seq<int>>   // the thread-local LLockStack of every thread

    var discoveredOrder: seq<int>
    var discoveredCount: int
    var finished: seq<bool>
    var parent: seq<int>
    ghost var rank: seq<int>              // finishing times
    ghost var finishedCount: int

    constructor ()
      ensures nameToId == map[] && idToName == map[] && history == map[] && stacks == map[]
    {
      nameToId, idToName, history, stacks := map[], map[], map[], map[];
      discoveredOrder, discoveredCount, finished, parent := [], 0, [], [];
      rank, finishedCount := [], 0;
    }

    // -------------------------------------------------------------- the search

    ghost function Undiscovered(): set<int>
      reads this
    {
      set v | 0 <= v < |discoveredOrder| && discoveredOrder[v] == -1
    }

    /** The search in progress: the discovered but unfinished locks are exactly the ancestors on
        `path`, in order of discovery and linked by `parent`; finished locks only lead to locks
        finished earlier. */
    ghost predicate Searching(path: seq<int>)
      reads this
    {
      var n := |discoveredOrder|;
      && |finished| == n && |parent| == n && |rank| == n
      && WellFormed(history, n)
      && (forall v :: 0 <= v < n ==> -1 <= discoveredOrder[v] < discoveredCount && rank[v] < finishedCount)
      && (forall v :: 0 <= v < n ==> (v in path <==> discoveredOrder[v] != -1 && !finished[v]))
      && (forall i :: 0 <= i < |path| ==> 0 <= path[i] < n)
      && (forall i, j :: 0 <= i < j < |path| ==> discoveredOrder[path[i]] < discoveredOrder[path[j]])
      && (forall i :: 0 <= i < |path| - 1 ==> Edge(history, path[i], path[i + 1]) && parent[path[i + 1]] == path[i])
      && (forall v :: 0 <= v < n && finished[v] ==> discoveredOrder[v] != -1)
      && (forall u, v :: Edge(history, u, v) && finished[u] ==> finished[v] && rank[v] < rank[u])
    }

    /** What a search leaves alone: locks already discovered keep their order and their parent, and
        locks already finished stay finished. */
    ghost predicate Extends(order: seq<int>, done: seq<bool>, up: seq<int>)
      reads this
    {
      && |finished| == |discoveredOrder| == |parent| == |order| == |done| == |up|
      && (forall v :: 0 <= v < |order| && order[v] != -1 ==> discoveredOrder[v] == order[v] && parent[v] == up[v])
      && (forall v :: 0 <= v < |done| && done[v] ==> finished[v])
    }

    method Dfs(here: int, ghost path: seq<int>) returns (lines: seq<(int, int)>)
      requires Searching(path) && 0 <= here < |discoveredOrder|
      requires path != [] ==> discoveredOrder[here] == -1 && Edge(history, path[|path| - 1], here) && parent[here] == path[|path| - 1]
      modifies this`discoveredOrder, this`discoveredCount, this`finished, this`parent, this`rank, this`finishedCount
      ensures lines == [] ==> Searching(path) && Extends(old(discoveredOrder), old(finished), old(parent)) && finished[here]
      ensures lines == [] ==> Undiscovered() <= old(Undiscovered())
      ensures lines != [] ==> SpellsCycle(history, lines)
      decreases Undiscovered(), 0
    {
      hide SpellsCycle, WellFormed;
      lines := [];
      if discoveredOrder[here] != -1 {
        assert here !in path;
        return;
      }
      Discover(here, path);
      if here in history {
        lines := Scan(here, path + [here]);
        if lines != [] { return; }
      }
      Finish(here, path);
    }

    /** The search's loop over the recorded successors of `here`, the last ancestor. */
    method Scan(here: int, ghost path: seq<int>) returns (lines: seq<(int, int)>)
      requires Searching(path) && path != [] && path[|path| - 1] == here && here in history
      modifies this`discoveredOrder, this`discoveredCount, this`finished, this`parent, this`rank, this`finishedCount
      ensures lines == [] ==> Searching(path) && Extends(old(discoveredOrder), old(finished), old(parent))
      ensures lines == [] ==> forall v :: v in history[here] ==> 0 <= v < |finished| && finished[v]
      ensures lines == [] ==> Undiscovered() <= old(Undiscovered())
      ensures lines != [] ==> SpellsCycle(history, lines)
      decreases Undiscovered(), 2
    {
      hide SpellsCycle, WellFormed;
      lines := [];
      var todo := history[here];
      while todo != {}
        invariant Searching(path) && Extends(old(discoveredOrder), old(finished), old(parent))
        invariant todo <= history[here]
        invariant forall v :: v in history[here] && v !in todo ==> 0 <= v < |finished| && finished[v]
        invariant lines == [] && Undiscovered() <= old(Undiscovered())
        decreases todo
      {
        var there := Front(todo);
        todo := todo - {there};
        lines := Follow(here, there, path);
        if lines != [] { return; }
      }
    }

    /** `std::set` is walked in ascending order. */
    method Front(todo: set<int>) returns (x: int)
      requires todo != {}
      ensures x in todo && forall y :: y in todo ==> x <= y
    {
      LeastExists(todo);
      x :| x in todo && forall y :: y in todo ==> x <= y;
    }

    /** One turn of the search's loop: the edge from `here` to `there`. */
    method Follow(here: int, there: int, ghost path: seq<int>) returns (lines: seq<(int, int)>)
      requires Searching(path) && path != [] && path[|path| - 1] == here && Edge(history, here, there)
      modifies this`discoveredOrder, this`discoveredCount, this`finished, this`parent, this`rank, this`finishedCount
      ensures lines == [] ==> Searching(path) && Extends(old(discoveredOrder), old(finished), old(parent))
      ensures lines == [] ==> 0 <= there < |finished| && finished[there]
      ensures lines == [] ==> Undiscovered() <= old(Undiscovered())
      ensures lines != [] ==> SpellsCycle(history, lines)
      decreases Undiscovered(), 1
    {
      lines := [];
      if discoveredOrder[there] == -1 {
        SetParent(there, here, path);
        lines := Dfs(there, path);
      } else if discoveredOrder[here] < discoveredOrder[there] {
        assert there !in path;
      } else if !finished[there] {
        lines := ReportCycle(here, there, path);
      }
    }

    method SetParent(there: int, here: int, ghost path: seq<int>)
      requires Searching(path) && 0 <= there < |discoveredOrder| && |parent| == |discoveredOrder|
      requires discoveredOrder[there] == -1
      modifies this`parent
      ensures Searching(path) && parent == old(parent)[there := here]
    {
      parent := parent[there := here];
      assert there !in path;
    }

    /** Marks `here` discovered: it becomes the last ancestor. */
    method Discover(here: int, ghost path: seq<int>)
      requires Searching(path) && 0 <= here < |discoveredOrder| && discoveredOrder[here] == -1 && here < |finished|
      requires path != [] ==> Edge(history, path[|path| - 1], here) && here < |parent| && parent[here] == path[|path| - 1]
      modifies this`discoveredOrder, this`discoveredCount
      ensures Searching(path + [here]) && Extends(old(discoveredOrder), old(finished), old(parent)) && Undiscovered() < old(Undiscovered())
      ensures discoveredOrder == old(discoveredOrder)[here := old(discoveredCount)]
    {
      ghost var path' := path + [here];
      assert here !in path;
      discoveredOrder := discoveredOrder[here := discoveredCount];
      discoveredCount := discoveredCount + 1;
      assert here in old(Undiscovered()) && here !in Undiscovered();
      forall i | 0 <= i < |path'| - 1 ensures Edge(history, path'[i], path'[i + 1]) && parent[path'[i + 1]] == path'[i] {
        if i < |path| - 1 { assert Edge(history, path[i], path[i + 1]) && parent[path[i + 1]] == path[i]; }
      }
      forall v | 0 <= v < |discoveredOrder| ensures v in path' <==> discoveredOrder[v] != -1 && !finished[v] {
        assert v in path' <==> v in path || v == here;
      }
    }

    /** Marks `here` finished; its successors are all finished already. */
    method Finish(here: int, ghost path: seq<int>)
      requires Searching(path + [here]) && 0 <= here < |finished| && WellFormed(history, |finished|)
      requires forall v :: Edge(history, here, v) ==> finished[v]
      modifies this`finished, this`rank, this`finishedCount
      ensures Searching(path) && finished == old(finished)[here := true]
    {
      ghost var path' := path + [here];
      assert here == path'[|path|] && here in path';
      finished := finished[here := true];
      rank := rank[here := finishedCount];
      finishedCount := finishedCount + 1;
      forall v | 0 <= v < |discoveredOrder| ensures v in path <==> discoveredOrder[v] != -1 && !finished[v] {
        assert v in path' <==> v in path || v == here;
        if here in path { var i :| 0 <= i < |path| && path[i] == here; assert path'[i] == here; }
      }
      forall i | 0 <= i < |path| ensures 0 <= path[i] < |discoveredOrder| { assert path'[i] == path[i]; }
      forall i, j | 0 <= i < j < |path| ensures discoveredOrder[path[i]] < discoveredOrder[path[j]] {
        assert path'[i] == path[i] && path'[j] == path[j];
      }
      forall i | 0 <= i < |path| - 1 ensures Edge(history, path[i], path[i + 1]) && parent[path[i + 1]] == path[i] {
        assert path'[i] == path[i] && path'[i + 1] == path[i + 1];
      }
    }

    /** The walk from `here` up the parents: it meets `there` because `there` is an ancestor. */
    method ReportCycle(here: int, there: int, ghost path: seq<int>) returns (lines: seq<(int, int)>)
      requires Searching(path) && path != [] && path[|path| - 1] == here
      requires Edge(history, here, there) && discoveredOrder[there] != -1 && !finished[there]
      ensures SpellsCycle(history, lines)
    {
      lines := [(here, there)];
      var now := here;
      assert there in path && there != here;
      ghost var k := |path| - 1;
      ghost var j :| 0 <= j < |path| && path[j] == there;
      while true
        invariant j < k < |path| && now == path[k]
        invariant |lines| == |path| - k && lines[0].1 == there && lines[|lines| - 1].0 == now
        invariant forall i :: 0 <= i < |lines| ==> Edge(history, lines[i].0, lines[i].1)
        invariant forall i :: 0 <= i < |lines| - 1 ==> lines[i + 1].1 == lines[i].0
        decreases k
      {
        assert Edge(history, path[k - 1], path[k - 1 + 1]) && parent[path[k - 1 + 1]] == path[k - 1];
        lines := lines + [(parent[now], now)];
        now := parent[now];
        k := k - 1;
        if now == there { break; }
        assert k != j;
      }
    }

    method Reset(lockCount: nat)
      requires WellFormed(history, lockCount)
      modifies this`discoveredOrder, this`discoveredCount, this`finished, this`parent, this`rank, this`finishedCount
      ensures Searching([]) && |discoveredOrder| == |finished| == lockCount
    {
      discoveredOrder := seq(lockCount, _ => -1);
      discoveredCount := 0;
      finished := seq(lockCount, _ => false);
      parent := seq(lockCount, _ => -1);
      rank, finishedCount := seq(lockCount, _ => -1), 0;
    }

    lemma AllFinishedMeansAcyclic()
      requires Searching([]) && forall v :: 0 <= v < |finished| ==> finished[v]
      ensures !HasCycle(history)
    {
      assert Ranked(history, rank);
      RankedMeansAcyclic(history, rank);
    }

    /** Reaches its crash exactly when the history has a cycle, having printed that cycle. */
    method CheckCycle() returns (lines: seq<(int, int)>)
      requires WellFormed(history, |nameToId|)
      modifies this`discoveredOrder, this`discoveredCount, this`finished, this`parent, this`rank, this`finishedCount
      ensures lines != [] <==> HasCycle(history)
      ensures lines != [] ==> SpellsCycle(history, lines)
    {
      hide Searching, HasCycle, SpellsCycle;
      var lockCount := |nameToId|;
      Reset(lockCount);
      lines := [];
      for lockId := 0 to lockCount
        invariant lines == [] && Searching([]) && |discoveredOrder| == |finished| == lockCount
        invariant forall v :: 0 <= v < lockId ==> finished[v]
      {
        lines := Dfs(lockId, []);
        if lines != [] {
          SpelledCycle(history, lines);
          return;
        }
      }
      AllFinishedMeansAcyclic();
      discoveredOrder, finished, parent := [], [], [];
    }

    // -------------------------------------------------------------- the public methods

    ghost function Snapshot(): Profile
      reads this
    {
      Profile(nameToId, idToName, history, stacks)
    }

    method PushLock(t: ThreadId, name: Name) returns (lines: seq<(int, int)>)
      requires WellFormed(HistoryAfter(Snapshot(), t, name), |Pushed(Snapshot(), t, name).names|)
      requires !HasCycle(history)
      modifies this
      ensures lines != [] <==> HasCycle(Pushed(old(Snapshot()), t, name).history)
      ensures lines != [] ==> SpellsCycle(Pushed(old(Snapshot()), t, name).history, lines)
      ensures lines == [] ==> Snapshot() == Pushed(old(Snapshot()), t, name)
    {
      lines := [];
      var lockId;
      if name !in nameToId {
        lockId := |nameToId|;
        nameToId := nameToId[name := lockId];
        idToName := idToName[lockId := name];
      } else {
        lockId := nameToId[name];
        assert nameToId[name := lockId] == nameToId;
      }
      var stack := if t in stacks then stacks[t] else [];
      if stack != [] {
        var prevId := stack[|stack| - 1];
        if lockId != prevId {
          var next := if prevId in history then history[prevId] else {};
          if lockId !in next {
            history := history[prevId := next + {lockId}];
            lines := CheckCycle();
            if lines != [] { return; }
          } else {
            assert history[prevId := next + {lockId}] == history by { assert next + {lockId} == next; }
          }
        }
      }
      stacks := stacks[t := stack + [lockId]];
    }

    method PopLock(t: ThreadId, name: Name) returns (crash: Crash)
      modifies this`nameToId, this`stacks
      ensures (crash, Snapshot()) == Popped(old(Snapshot()), t, name)
    {
      var stack := if t in stacks then stacks[t] else [];
      if stack == [] {
        return MultipleUnlock;
      }
      if name !in nameToId {
        nameToId := nameToId[name := 0];
      }
      if stack[|stack| - 1] != nameToId[name] {
        return InvalidUnlock;
      }
      stacks := stacks[t := stack[..|stack| - 1]];
      crash := NoCrash;
    }
  }
}
