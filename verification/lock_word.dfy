/** The recursive reader/writer spin lock of `thread/lock.cpp`: one 32-bit word holding the writer's
    thread id in its high half and the number of read holds in its low half, plus a plain 16-bit
    write counter.  One action is one load, compare-exchange, add, store or counter update; the
    actions of different threads interleave freely.  Guards make every thread release its holds in
    the reverse order of acquisition. */
module LockWord {

  type ThreadId = t: int | 1 <= t < 0x1_0000 witness 1

  const HALF := 0x1_0000
  const WORD := 0x1_0000_0000

  datatype Hold = Read | Write

  /** The point reached inside a lock operation. */
  datatype Pc =
    | Ready
    | WriteNested          // saw its own id, about to increment the write counter
    | WriteSpin            // about to try the compare-exchange from the empty word
    | WriteWon             // exchanged its id in, about to increment the write counter
    | UnlockCount          // saw no read holds, about to decrement the write counter
    | UnlockStore          // decremented to zero, about to store the empty word
    | ReadNested           // saw its own id, about to add one
    | ReadPeek             // about to load the read count it expects
    | ReadSwap(expected: int)

  datatype Thread = Thread(pc: Pc, holds: seq<Hold>)

  datatype Crash = NoCrash | InvalidUnlockOrder | MultipleUnlock

  /** `readers` is a history: one entry per read hold, by the thread that holds it. */
  datatype State = State(flag: int, writeCount: int, threads: map<ThreadId, Thread>,
                         readers: multiset<ThreadId>, crash: Crash)

  datatype Action =
    | LoadForWrite(t: ThreadId)
    | CountNested(t: ThreadId)
    | SwapForWrite(t: ThreadId)
    | CountFirst(t: ThreadId)
    | LoadForWriteUnlock(t: ThreadId)
    | Uncount(t: ThreadId)
    | StoreEmpty(t: ThreadId)
    | LoadForRead(t: ThreadId)
    | AddNested(t: ThreadId)
    | LoadExpected(t: ThreadId)
    | SwapForRead(t: ThreadId)
    | SubForReadUnlock(t: ThreadId)

  function Owner(flag: int): int { flag / HALF }
  function ReadCount(flag: int): int { flag % HALF }

  /** Adding or subtracting one modulo `size`: `WORD` for the flag, `HALF` for the counter. */
  function Inc(x: int, size: int): int { if x == size - 1 then 0 else x + 1 }
  function Dec(x: int, size: int): int { if x == 0 then size - 1 else x - 1 }

  predicate Top(th: Thread, h: Hold) {
    th.holds != [] && th.holds[|th.holds| - 1] == h
  }

  /** The two limits on callers: at most 65535 read holds and fewer than 65536 nested writes. */
  predicate Enabled(s: State, a: Action) {
    s.crash == NoCrash && a.t in s.threads &&
    var th := s.threads[a.t];
    match a
    case LoadForWrite(_) => th.pc.Ready?
    case CountNested(_) => th.pc.WriteNested? && s.writeCount + 1 < HALF
    case SwapForWrite(_) => th.pc.WriteSpin?
    case CountFirst(_) => th.pc.WriteWon?
    case LoadForWriteUnlock(_) => th.pc.Ready? && Top(th, Write)
    case Uncount(_) => th.pc.UnlockCount?
    case StoreEmpty(_) => th.pc.UnlockStore?
    case LoadForRead(_) => th.pc.Ready?
    case AddNested(_) => th.pc.ReadNested? && |s.readers| + 1 < HALF
    case LoadExpected(_) => th.pc.ReadPeek?
    case SwapForRead(_) => th.pc.ReadSwap? && |s.readers| + 1 < HALF
    case SubForReadUnlock(_) => th.pc.Ready? && Top(th, Read)
  }

  function At(th: Thread, pc: Pc): Thread { th.(pc := pc) }
  function Took(th: Thread, h: Hold): Thread { Thread(Ready, th.holds + [h]) }
  function Dropped(th: Thread): Thread
    requires th.holds != []
  {
    Thread(Ready, th.holds[..|th.holds| - 1])
  }

  /** Arithmetic on the word and on the 16-bit counter wraps as in the source. */
  function Apply(s: State, a: Action): State
    requires Enabled(s, a)
  {
    var t := a.t;
    var th := s.threads[t];
    match a
    case LoadForWrite(_) =>
      s.(threads := s.threads[t := At(th, if Owner(s.flag) == t then WriteNested else WriteSpin)])
    case CountNested(_) =>
      s.(writeCount := Inc(s.writeCount, HALF), threads := s.threads[t := Took(th, Write)])
    case SwapForWrite(_) =>
      if s.flag == 0 then s.(flag := t * HALF, threads := s.threads[t := At(th, WriteWon)]) else s
    case CountFirst(_) =>
      s.(writeCount := Inc(s.writeCount, HALF), threads := s.threads[t := Took(th, Write)])
    case LoadForWriteUnlock(_) =>
      if ReadCount(s.flag) != 0 then s.(crash := InvalidUnlockOrder)
      else s.(threads := s.threads[t := At(th, UnlockCount)])
    case Uncount(_) =>
      var left := Dec(s.writeCount, HALF);
      s.(writeCount := left,
         threads := s.threads[t := if left == 0 then At(th, UnlockStore)
                                   else if th.holds != [] then Dropped(th) else At(th, Ready)])
    case StoreEmpty(_) =>
      s.(flag := 0, threads := s.threads[t := if th.holds != [] then Dropped(th) else At(th, Ready)])
    case LoadForRead(_) =>
      s.(threads := s.threads[t := At(th, if Owner(s.flag) == t then ReadNested else ReadPeek)])
    case AddNested(_) =>
      s.(flag := Inc(s.flag, WORD), readers := s.readers + multiset{t}, threads := s.threads[t := Took(th, Read)])
    case LoadExpected(_) =>
      s.(threads := s.threads[t := At(th, ReadSwap(ReadCount(s.flag)))])
    case SwapForRead(_) =>
      if s.flag == th.pc.expected then
        s.(flag := Inc(th.pc.expected, WORD), readers := s.readers + multiset{t}, threads := s.threads[t := Took(th, Read)])
      else s.(threads := s.threads[t := At(th, ReadPeek)])
    case SubForReadUnlock(_) =>
      s.(flag := Dec(s.flag, WORD), readers := s.readers - multiset{t},
         crash := if ReadCount(s.flag) == 0 then MultipleUnlock else NoCrash,
         threads := s.threads[t := Dropped(th)])
  }

  ghost predicate Init(s: State) {
    && s.flag == 0 && s.writeCount == 0 && s.readers == multiset{} && s.crash == NoCrash
    && forall t :: t in s.threads ==> s.threads[t] == Thread(Ready, [])
  }

  ghost predicate Next(s: State, s': State) {
    exists a :: Enabled(s, a) && s' == Apply(s, a)
  }

  ghost predicate IsRun(run: seq<State>) {
    && run != []
    && Init(run[0])
    && forall i :: 0 <= i < |run| - 1 ==> Next(run[i], run[i + 1])
  }

  // ---------------------------------------------------------------- the invariant

  function Reads(th: Thread): nat { multiset(th.holds)[Read] }
  function Writes(th: Thread): nat { multiset(th.holds)[Write] }

  /** A thread owns the word from its successful exchange to its store of the empty word. */
  predicate Owns(th: Thread) {
    Writes(th) > 0 || th.pc.WriteWon?
  }

  /** How the thread's own state and the word agree on write ownership. */
  predicate ThreadOk(s: State, t: ThreadId)
    requires t in s.threads
  {
    var th := s.threads[t];
    && s.readers[t] == Reads(th)
    && (Owns(th) <==> Owner(s.flag) == t)
    && (th.pc.WriteNested? || th.pc.ReadNested? ==> Writes(th) > 0)
    && (th.pc.WriteSpin? || th.pc.ReadPeek? || th.pc.ReadSwap? || th.pc.WriteWon? ==> Writes(th) == 0)
    && (th.pc.WriteWon? ==> Reads(th) == 0 && ReadCount(s.flag) == 0 && s.writeCount == 0)
    && (th.pc.ReadSwap? ==> 0 <= th.pc.expected < HALF)
    && (th.pc.UnlockCount? || th.pc.UnlockStore? ==> Top(th, Write) && ReadCount(s.flag) == 0)
    && (Writes(th) > 0 && !th.pc.UnlockStore? ==> s.writeCount == Writes(th))
    && (th.pc.UnlockStore? ==> s.writeCount == 0 && Writes(th) == 1)
  }

  ghost predicate Inv(s: State) {
    && 0 <= s.flag < WORD && 0 <= s.writeCount < HALF
    && ReadCount(s.flag) == |s.readers|
    && (forall t :: t in s.readers ==> t in s.threads)
    && (forall t :: t in s.threads ==> ThreadOk(s, t))
    && (Owner(s.flag) != 0 ==> exists t :: t in s.threads && t == Owner(s.flag))
    && (Owner(s.flag) == 0 ==> s.writeCount == 0)
    && (Owner(s.flag) != 0 ==> forall t :: t in s.readers ==> t == Owner(s.flag))
    && s.crash != MultipleUnlock
  }

  lemma WordArithmetic(flag: int)
    requires 0 <= flag < WORD
    ensures ReadCount(flag) + 1 < HALF ==>
      Owner(Inc(flag, WORD)) == Owner(flag) && ReadCount(Inc(flag, WORD)) == ReadCount(flag) + 1 && 0 <= Inc(flag, WORD) < WORD
    ensures ReadCount(flag) > 0 ==>
      Owner(Dec(flag, WORD)) == Owner(flag) && ReadCount(Dec(flag, WORD)) == ReadCount(flag) - 1 && 0 <= Dec(flag, WORD) < WORD
    ensures flag == Owner(flag) * HALF + ReadCount(flag)
  {}

  lemma OwnedWord(t: ThreadId)
    ensures Owner(t * HALF) == t && ReadCount(t * HALF) == 0 && 0 <= t * HALF < WORD
  {}

  lemma HoldsTook(th: Thread, h: Hold)
    ensures Reads(Took(th, h)) == Reads(th) + if h == Read then 1 else 0
    ensures Writes(Took(th, h)) == Writes(th) + if h == Write then 1 else 0
  {}

  lemma HoldsDropped(th: Thread, h: Hold)
    requires Top(th, h)
    ensures Reads(th) == Reads(Dropped(th)) + if h == Read then 1 else 0
    ensures Writes(th) == Writes(Dropped(th)) + if h == Write then 1 else 0
  {
    assert th.holds == Dropped(th).holds + [h];
  }

  lemma SomeHold(holds: seq<Hold>)
    requires holds != []
    ensures multiset(holds)[Read] > 0 || multiset(holds)[Write] > 0
  {
    match holds[0]
    case Read => assert Read in holds;
    case Write => assert Write in holds;
  }

  /** While one thread owns the word, every other thread holds nothing. */
  lemma OthersEmpty(s: State, t: ThreadId, u: ThreadId)
    requires Inv(s) && t in s.threads && u in s.threads && u != t && Owns(s.threads[t])
    ensures Reads(s.threads[u]) == 0 && !Owns(s.threads[u])
  {
    assert ThreadOk(s, t) && ThreadOk(s, u);
  }

  /** A step by one thread changes nothing another thread relies on. */
  ghost predicate Local(s: State, s': State, t: ThreadId) {
    && t in s.threads && t in s'.threads && s'.threads == s.threads[t := s'.threads[t]]
    && (forall u: ThreadId :: u != t ==> s'.readers[u] == s.readers[u])
    && (Owner(s'.flag) == Owner(s.flag) || (Owner(s.flag) in {0, t as int} && Owner(s'.flag) in {0, t as int} && s'.readers == multiset{}))
    && (Owner(s.flag) != 0 && Owner(s.flag) != t ==> s'.flag == s.flag && s'.writeCount == s.writeCount && s'.readers == s.readers)
  }

  lemma FrameOk(s: State, s': State, t: ThreadId, u: ThreadId)
    requires Inv(s) && Local(s, s', t) && u in s.threads && u != t
    ensures ThreadOk(s', u)
  {
    assert ThreadOk(s, u);
  }

  /** The word-level part of the invariant. */
  ghost predicate WordOk(s: State) {
    && 0 <= s.flag < WORD && 0 <= s.writeCount < HALF
    && ReadCount(s.flag) == |s.readers|
    && (Owner(s.flag) == 0 ==> s.writeCount == 0)
    && s.crash != MultipleUnlock
  }

  /** The part of a step's proof that concerns the acting thread. */
  ghost predicate StepOk(s: State, s': State, t: ThreadId) {
    Local(s, s', t) && ThreadOk(s', t) && WordOk(s')
  }

  /** Loads, and exchanges that fail, move only the thread's own point in the code. */
  lemma LoadSteps(s: State, a: Action)
    requires Inv(s) && Enabled(s, a)
    requires a.LoadForWrite? || a.LoadForWriteUnlock? || a.LoadForRead? || a.LoadExpected?
    ensures StepOk(s, Apply(s, a), a.t)
  {
    assert ThreadOk(s, a.t);
    if Top(s.threads[a.t], Write) { HoldsDropped(s.threads[a.t], Write); }
  }

  lemma AcquireWriteSteps(s: State, a: Action)
    requires Inv(s) && Enabled(s, a) && (a.SwapForWrite? || a.CountNested? || a.CountFirst?)
    ensures StepOk(s, Apply(s, a), a.t)
  {
    assert ThreadOk(s, a.t);
    OwnedWord(a.t);
    HoldsTook(s.threads[a.t], Write);
  }

  lemma ReleaseWriteSteps(s: State, a: Action)
    requires Inv(s) && Enabled(s, a) && (a.Uncount? || a.StoreEmpty?)
    ensures StepOk(s, Apply(s, a), a.t)
  {
    assert ThreadOk(s, a.t);
    HoldsDropped(s.threads[a.t], Write);
  }

  lemma NestedReadStep(s: State, a: Action)
    requires Inv(s) && Enabled(s, a) && a.AddNested?
    ensures StepOk(s, Apply(s, a), a.t)
  {
    assert ThreadOk(s, a.t);
    WordArithmetic(s.flag);
    HoldsTook(s.threads[a.t], Read);
  }

  lemma SwapForReadStep(s: State, a: Action)
    requires Inv(s) && Enabled(s, a) && a.SwapForRead?
    ensures StepOk(s, Apply(s, a), a.t)
  {
    assert ThreadOk(s, a.t);
    WordArithmetic(s.flag);
    HoldsTook(s.threads[a.t], Read);
  }

  lemma ReleaseReadStep(s: State, a: Action)
    requires Inv(s) && Enabled(s, a) && a.SubForReadUnlock?
    ensures StepOk(s, Apply(s, a), a.t)
  {
    assert ThreadOk(s, a.t);
    WordArithmetic(s.flag);
    HoldsDropped(s.threads[a.t], Read);
  }

  lemma ActingThreadOk(s: State, a: Action)
    requires Inv(s) && Enabled(s, a)
    ensures StepOk(s, Apply(s, a), a.t)
  {
    if a.LoadForWrite? || a.LoadForWriteUnlock? || a.LoadForRead? || a.LoadExpected? { LoadSteps(s, a); }
    if a.SwapForWrite? || a.CountNested? || a.CountFirst? { AcquireWriteSteps(s, a); }
    if a.Uncount? || a.StoreEmpty? { ReleaseWriteSteps(s, a); }
    if a.AddNested? { NestedReadStep(s, a); }
    if a.SwapForRead? { SwapForReadStep(s, a); }
    if a.SubForReadUnlock? { ReleaseReadStep(s, a); }
  }

  /** Nobody but the owner holds a read while the word is owned. */
  lemma ReadersStayOwners(s: State, s': State, t: ThreadId)
    requires Inv(s) && StepOk(s, s', t)
    requires forall u :: u in s'.threads ==> ThreadOk(s', u)
    ensures forall u :: u in s'.readers ==> u in s'.threads
    ensures Owner(s'.flag) != 0 ==> forall u :: u in s'.readers ==> u == Owner(s'.flag)
  {
    assert ThreadOk(s, t);
    forall u | u in s'.readers
      ensures u in s'.threads && (Owner(s'.flag) != 0 ==> u == Owner(s'.flag))
    {
      if u != t { assert u in s.readers && ThreadOk(s, u); }
    }
  }

  lemma InvStep(s: State, a: Action)
    requires Inv(s) && Enabled(s, a)
    ensures Inv(Apply(s, a))
  {
    var s' := Apply(s, a);
    ActingThreadOk(s, a);
    forall u | u in s'.threads ensures ThreadOk(s', u) {
      if u != a.t { FrameOk(s, s', a.t, u); }
    }
    ReadersStayOwners(s, s', a.t);
    if Owner(s'.flag) != 0 {
      var w: ThreadId := Owner(s'.flag);
      assert w in s'.threads by {
        if w != a.t { var o: ThreadId :| o in s.threads && o == Owner(s.flag); }
      }
    }
  }

  lemma {:induction false} InvAlways(run: seq<State>, i: nat)
    requires IsRun(run) && i < |run|
    ensures Inv(run[i])
  {
    if i > 0 {
      InvAlways(run, i - 1);
      assert Next(run[i - 1], run[i - 1 + 1]);
      var a :| Enabled(run[i - 1], a) && run[i] == Apply(run[i - 1], a);
      InvStep(run[i - 1], a);
    }
  }

  // ---------------------------------------------------------------- the guarantees

  /** Exclusion: while a thread holds the lock for writing, no other thread holds it at all. */
  lemma WriterExcludesAll(run: seq<State>, i: nat, t: ThreadId, u: ThreadId)
    requires IsRun(run) && i < |run| && t in run[i].threads && u in run[i].threads && u != t
    requires Write in run[i].threads[t].holds
    ensures run[i].threads[u].holds == []
  {
    InvAlways(run, i);
    OthersEmpty(run[i], t, u);
    if run[i].threads[u].holds != [] { SomeHold(run[i].threads[u].holds); }
  }

  /** The word decodes to the holds: its low half counts the read holds of all threads, its high
      half names the one thread that owns it, and any reads under an owner are the owner's own. */
  lemma WordDecodes(run: seq<State>, i: nat)
    requires IsRun(run) && i < |run|
    ensures var s := run[i];
      && ReadCount(s.flag) == |s.readers|
      && (forall t :: t in s.threads ==> s.readers[t] == Reads(s.threads[t]))
      && (forall t :: t in s.threads ==> (Owns(s.threads[t]) <==> Owner(s.flag) == t))
      && (Owner(s.flag) != 0 ==> exists t :: t in s.threads && t == Owner(s.flag) && s.readers == Repeat(t, Reads(s.threads[t])))
  {
    InvAlways(run, i);
    var s := run[i];
    forall t | t in s.threads ensures s.readers[t] == Reads(s.threads[t]) && (Owns(s.threads[t]) <==> Owner(s.flag) == t) {
      assert ThreadOk(s, t);
    }
    if Owner(s.flag) != 0 {
      var t :| t in s.threads && t == Owner(s.flag);
      assert s.readers == Repeat(t, Reads(s.threads[t]));
    }
  }

  function Repeat(t: ThreadId, n: nat): multiset<ThreadId> {
    multiset{}[t := n]
  }

  /** From winning the exchange to storing the empty word, no step of another thread changes the
      word, the write counter or the owner: no exchange of another thread can succeed. */
  lemma OwnerIsUndisturbed(run: seq<State>, i: nat, t: ThreadId, a: Action)
    requires IsRun(run) && i < |run| && t in run[i].threads && Owns(run[i].threads[t])
    requires Enabled(run[i], a) && a.t != t
    ensures var s, s' := run[i], Apply(run[i], a);
      s'.flag == s.flag && s'.writeCount == s.writeCount && s'.readers == s.readers && s'.threads[t] == s.threads[t]
  {
    InvAlways(run, i);
    var s := run[i];
    assert ThreadOk(s, t) && ThreadOk(s, a.t);
    if a.SubForReadUnlock? { HoldsDropped(s.threads[a.t], Read); }
    if Top(s.threads[a.t], Write) { HoldsDropped(s.threads[a.t], Write); }
  }

  /** Between operations the plain counter is the owner's nesting depth. */
  lemma CounterIsDepth(run: seq<State>, i: nat, t: ThreadId)
    requires IsRun(run) && i < |run| && t in run[i].threads
    requires run[i].threads[t].pc.Ready? && Write in run[i].threads[t].holds
    ensures run[i].writeCount == multiset(run[i].threads[t].holds)[Write]
  {
    InvAlways(run, i);
    assert ThreadOk(run[i], t);
  }

  /** The unlocking store finds exactly the owner's id in the word, so it erases no hold but its
      own last one. */
  lemma StoreErasesOwnHoldOnly(run: seq<State>, i: nat, t: ThreadId)
    requires IsRun(run) && i < |run| && t in run[i].threads && run[i].threads[t].pc.UnlockStore?
    ensures run[i].flag == t * HALF && run[i].threads[t].holds == [Write]
    ensures forall u :: u in run[i].threads && u != t ==> run[i].threads[u].holds == []
  {
    InvAlways(run, i);
    var s := run[i];
    var th := s.threads[t];
    assert ThreadOk(s, t);
    WordArithmetic(s.flag);
    HoldsDropped(th, Write);
    assert |s.readers| == 0 && t !in s.readers;
    if Dropped(th).holds != [] { SomeHold(Dropped(th).holds); }
    assert th.holds == Dropped(th).holds + [Write];
    forall u | u in s.threads && u != t ensures s.threads[u].holds == [] {
      WriterExcludesAll(run, i, t, u);
    }
  }

  /** `WriteUnlock` crashes with an order error exactly when the thread still holds a read, which it
      took between two of its own writes; `ReadUnlock` never crashes. */
  lemma CrashExactly(run: seq<State>, i: nat, a: Action)
    requires IsRun(run) && i < |run| && Enabled(run[i], a)
    ensures Apply(run[i], a).crash == InvalidUnlockOrder <==> a.LoadForWriteUnlock? && Read in run[i].threads[a.t].holds
    ensures Apply(run[i], a).crash != MultipleUnlock
  {
    InvAlways(run, i);
    var s := run[i];
    assert ThreadOk(s, a.t);
    if a.LoadForWriteUnlock? {
      HoldsDropped(s.threads[a.t], Write);
      if ReadCount(s.flag) > 0 {
        var u :| u in s.readers;
        assert ThreadOk(s, u) && a.t in s.readers;
      }
    }
  }

  /** When every thread is outside the lock and holds nothing, the word is empty again. */
  lemma AllReleasedMeansEmpty(run: seq<State>, i: nat)
    requires IsRun(run) && i < |run|
    requires forall t :: t in run[i].threads ==> run[i].threads[t] == Thread(Ready, [])
    ensures run[i].flag == 0 && run[i].writeCount == 0
  {
    InvAlways(run, i);
    var s := run[i];
    forall t | t in s.threads ensures t !in s.readers && Owner(s.flag) != t { assert ThreadOk(s, t); }
    WordArithmetic(s.flag);
    assert s.readers == multiset{};
  }

  /** No thread owns the word. */
  predicate Unowned(s: State) {
    forall t :: t in s.threads ==> !Owns(s.threads[t])
  }

  lemma UnownedWord(s: State)
    requires Inv(s)
    ensures Unowned(s) <==> Owner(s.flag) == 0
  {
    forall t | t in s.threads ensures Owns(s.threads[t]) <==> Owner(s.flag) == t { assert ThreadOk(s, t); }
    if Owner(s.flag) != 0 {
      var t :| t in s.threads && t == Owner(s.flag);
    }
  }

  /** A reader's exchange succeeds exactly if no thread owns the word and as many reads are held as it
      expects; however many these are, readers share.  It adds one read hold and touches nothing else,
      and one that fails touches nothing but where its thread is. */
  lemma ReadTakenExactly(run: seq<State>, i: nat, t: ThreadId)
    requires IsRun(run) && i < |run| && Enabled(run[i], SwapForRead(t))
    ensures var s, s', th := run[i], Apply(run[i], SwapForRead(t)), run[i].threads[t];
      if Unowned(s) && th.pc.expected == |s.readers|
      then s' == s.(flag := s.flag + 1, readers := s.readers + multiset{t}, threads := s.threads[t := Thread(Ready, th.holds + [Read])])
      else s' == s.(threads := s.threads[t := Thread(ReadPeek, th.holds)])
  {
    InvAlways(run, i);
    UnownedWord(run[i]);
    assert ThreadOk(run[i], t);
    hide Inv, IsRun, Unowned, ThreadOk;
    WordArithmetic(run[i].flag);
  }

  /** A writer's exchange succeeds exactly if no thread owns the word and no read is held; then its thread
      owns the word, and otherwise nothing changes. */
  lemma WriteTakenExactly(run: seq<State>, i: nat, t: ThreadId)
    requires IsRun(run) && i < |run| && Enabled(run[i], SwapForWrite(t))
    ensures var s, s', th := run[i], Apply(run[i], SwapForWrite(t)), run[i].threads[t];
      if Unowned(s) && s.readers == multiset{}
      then s' == s.(flag := 0x1_0000 * t, threads := s.threads[t := Thread(WriteWon, th.holds)])
      else s' == s
  {
    InvAlways(run, i);
    UnownedWord(run[i]);
    hide Inv, IsRun, Unowned;
    WordArithmetic(run[i].flag);
  }

  /** A reader that loads and exchanges with nothing in between succeeds whenever no thread owns the
      word. */
  lemma UndisturbedReadSucceeds(run: seq<State>, i: nat, t: ThreadId)
    requires IsRun(run) && i + 2 < |run|
    requires Enabled(run[i], LoadExpected(t)) && run[i + 1] == Apply(run[i], LoadExpected(t))
    requires Enabled(run[i + 1], SwapForRead(t)) && run[i + 2] == Apply(run[i + 1], SwapForRead(t))
    ensures if Unowned(run[i]) then run[i + 2].threads[t] == Thread(Ready, run[i].threads[t].holds + [Read])
            else run[i + 2].threads[t] == Thread(ReadPeek, run[i].threads[t].holds)
  {
    WordDecodes(run, i);
    PeekIs(run[i], t);
    ReadTakenExactly(run, i + 1, t);
    hide IsRun, Enabled, Apply, Unowned, Owns;
  }

  lemma PeekIs(s: State, t: ThreadId)
    requires Enabled(s, LoadExpected(t))
    ensures var s' := Apply(s, LoadExpected(t));
      && s' == s.(threads := s.threads[t := Thread(ReadSwap(ReadCount(s.flag)), s.threads[t].holds)])
      && (Unowned(s') <==> Unowned(s))
  {
    var s' := Apply(s, LoadExpected(t));
    assert Owns(s.threads[t]) == Owns(s'.threads[t]);
    assert forall u :: u in s.threads <==> u in s'.threads;
    assert forall u :: u in s.threads ==> Owns(s'.threads[u]) == Owns(s.threads[u]);
  }

  /** The limit on readers is needed: the 65536th read taken by exchange carries into the owner half
      and names thread 1 as writer. */
  lemma ReaderLimitIsSharp(expected: int)
    requires 0 <= expected < HALF
    ensures Owner(Inc(expected, WORD)) == 0 && ReadCount(Inc(expected, WORD)) == expected + 1 <==> expected + 1 < HALF
    ensures expected + 1 == HALF ==> Owner(Inc(expected, WORD)) == 1
  {}
}
