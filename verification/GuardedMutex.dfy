/** The guarded mutex over a one-bit gate (veakrnl/ks/gmutex.c, KsiAcquireGuardedMutex in wait.c, gate.c)
    as a transition system: every interlocked operation, every Owner write and every gate call is one step,
    and the steps of any number of threads interleave freely. Release is the Unsafe pair's; the other one comes last. */
module GuardedMutex {
  // The word: GM_LOCK_BIT = 1 (set when free), GM_LOCK_WAITER_WOKEN = 2, GM_LOCK_WAITER_INC = 4.
  const LOCK := 1
  const WOKEN := 2
  const INC := 4

  type Thread = nat

  import opened Wrappers

  datatype Pc =
    | Idle
    | SlowRead(woken: bool)              // about to read Count; woken: came back from the gate
    | SlowTry(woken: bool, seen: int)    // about to compare-and-exchange against `seen`
    | AtGate                             // registered, about to call KsWaitForGate
    | Waiting                            // queued on the gate
    | Acquired                           // lock bit taken, Owner not written yet
    | Holding
    | Releasing                          // Owner cleared, lock bit not given back yet
    | Handing(expected: int)             // about to try to hand a wake-up over
    | Signalling                         // about to call KsSignalGate

  datatype State = State(count: int, owner: Option<Thread>, open: bool, queue: seq<Thread>, pc: map<Thread, Pc>)

  datatype Action =
    | Acquire(t: Thread)      // KsAcquireGuardedMutexUnsafe: bit test and reset
    | TryOnce(t: Thread)      // KsTryToAcquireGuardedMutex
    | Read(t: Thread)
    | Exchange(t: Thread)
    | WaitGate(t: Thread)     // KsWaitForGate
    | SetOwner(t: Thread)
    | ClearOwner(t: Thread)
    | GiveBack(t: Thread)     // InterlockedExchangeAdd
    | Hand(t: Thread)         // the compare-and-exchange of the release
    | Signal(t: Thread)       // KsSignalGate

  predicate LockBit(c: int) { c % 2 == 1 }

  predicate WokenBit(c: int) { c / 2 % 2 == 1 }

  /** OldValue ^ BitsToRemove, for a value whose lock bit is set. */
  function Remove(c: int, woken: bool): int
  {
    c - LOCK + (if !woken then 0 else if WokenBit(c) then -WOKEN else WOKEN)
  }

  predicate Enabled(s: State, a: Action)
  {
    a.t in s.pc &&
    match a
    case Acquire(t) => s.pc[t].Idle?
    case TryOnce(t) => s.pc[t].Idle?
    case Read(t) => s.pc[t].SlowRead?
    case Exchange(t) => s.pc[t].SlowTry?
    case WaitGate(t) => s.pc[t].AtGate?
    case SetOwner(t) => s.pc[t].Acquired?
    case ClearOwner(t) => s.pc[t].Holding?
    case GiveBack(t) => s.pc[t].Releasing?
    case Hand(t) => s.pc[t].Handing?
    case Signal(t) => s.pc[t].Signalling? && (s.queue != [] ==> s.queue[0] in s.pc)
  }

  function Goto(s: State, t: Thread, p: Pc): State
  {
    s.(pc := s.pc[t := p])
  }

  function Step(s: State, a: Action): State
    requires Enabled(s, a)
  {
    var c := s.count;
    match a
    case Acquire(t) =>
      if LockBit(c) then Goto(s.(count := c - LOCK), t, Acquired) else Goto(s, t, SlowRead(false))
    case TryOnce(t) =>
      if LockBit(c) then Goto(s.(count := c - LOCK), t, Acquired) else s
    case Read(t) =>
      Goto(s, t, SlowTry(s.pc[t].woken, c))
    case Exchange(t) =>
      var SlowTry(woken, seen) := s.pc[t];
      if c != seen then
        Goto(s, t, SlowTry(woken, c))
      else if LockBit(seen) then
        Goto(s.(count := Remove(seen, woken)), t, Acquired)
      else
        Goto(s.(count := seen + (if woken then WOKEN else INC)), t, AtGate)
    case WaitGate(t) =>
      if s.open then Goto(s.(open := false), t, SlowRead(true)) else Goto(s.(queue := s.queue + [t]), t, Waiting)
    case SetOwner(t) => Goto(s.(owner := Some(t)), t, Holding)
    case ClearOwner(t) => Goto(s.(owner := None), t, Releasing)
    case GiveBack(t) =>
      Goto(s.(count := c + LOCK), t, if c != 0 && !WokenBit(c) then Handing(c + LOCK) else Idle)
    case Hand(t) =>
      var e := s.pc[t].expected;
      if c == e then Goto(s.(count := e + WOKEN - INC), t, Signalling) else Goto(s, t, Idle)
    case Signal(t) =>
      if s.queue != [] then
        Goto(Goto(s.(queue := s.queue[1..]), s.queue[0], SlowRead(true)), t, Idle)
      else
        Goto(s.(open := true), t, Idle)
  }

  /** KsInitializeGuardedMutex, with every thread of `threads` outside. */
  function Init(threads: set<Thread>): State
  {
    State(LOCK, None, false, [], map t | t in threads :: Idle)
  }

  // ---------------------------------------------------------------- what the word counts

  datatype Kind = Locker | AtTheGate | Woken | Signaller | Other

  function KindOf(p: Pc): Kind
  {
    match p
    case Acquired => Locker
    case Holding => Locker
    case Releasing => Locker
    case AtGate => AtTheGate
    case Waiting => AtTheGate
    case SlowRead(w) => if w then Woken else Other
    case SlowTry(w, _) => if w then Woken else Other
    case Signalling => Signaller
    case _ => Other
  }

  /** The threads of one kind. */
  function Who(pc: map<Thread, Pc>, k: Kind): set<Thread>
  {
    set t | t in pc && KindOf(pc[t]) == k
  }

  function One(b: bool): nat { if b then 1 else 0 }

  /** Moving one thread changes the census of two kinds by one. */
  lemma Move(pc: map<Thread, Pc>, t: Thread, p: Pc, k: Kind)
    requires t in pc
    ensures |Who(pc[t := p], k)| == |Who(pc, k)| - One(KindOf(pc[t]) == k) + One(KindOf(p) == k)
  {
    var rest := Who(pc, k) - {t};
    assert Who(pc[t := p], k) == if KindOf(p) == k then rest + {t} else rest;
    assert Who(pc, k) == if KindOf(pc[t]) == k then rest + {t} else rest;
  }

  /** The lock bit is clear iff one thread has it. */
  ghost predicate LockerOK(s: State)
  {
    |Who(s.pc, Locker)| + One(LockBit(s.count)) == 1
  }

  /** The lock bit is clear iff one thread has it; waiter count plus woken bit count the registered threads;
      the woken bit counts the wake credits: pending signals, the open gate, and woken threads. */
  ghost predicate Census(s: State)
  {
    && s.count >= 0
    && LockerOK(s)
    && |Who(s.pc, AtTheGate)| + |Who(s.pc, Woken)| == s.count / INC + One(WokenBit(s.count))
    && |Who(s.pc, Signaller)| + One(s.open) + |Who(s.pc, Woken)| == One(WokenBit(s.count))
  }

  /** The gate queue holds exactly the waiting threads, once each; an open gate has an empty queue. */
  ghost predicate GateOK(s: State)
  {
    && (forall t :: t in s.queue <==> t in s.pc && s.pc[t].Waiting?)
    && (forall i, j :: 0 <= i < j < |s.queue| ==> s.queue[i] != s.queue[j])
    && (s.open ==> s.queue == [])
  }

  ghost predicate OwnerOK(s: State)
  {
    && (forall t :: t in s.pc && s.pc[t].Holding? ==> s.owner == Some(t))
    && (s.owner.Some? ==> s.owner.value in s.pc && s.pc[s.owner.value].Holding?)
  }

  /** What mutual exclusion rests on. */
  ghost predicate Excludes(s: State)
  {
    LockerOK(s) && GateOK(s) && OwnerOK(s)
  }

  /** A releaser expects a free word with a waiter and no wake-up on the way. */
  ghost predicate HandsOK(s: State)
  {
    forall t :: t in s.pc && s.pc[t].Handing? ==> s.pc[t].expected % 4 == 1 && s.pc[t].expected >= LOCK + INC
  }

  /** No lost wake-up: a free mutex with waiters has a wake-up under way, or a releaser whose
      compare-and-exchange is going to succeed if it runs next. */
  ghost predicate WakeUnderWay(s: State)
  {
    LockBit(s.count) && s.count / INC > 0 && !WokenBit(s.count) ==>
      exists t :: t in s.pc && s.pc[t] == Handing(s.count)
  }

  ghost predicate Inv(s: State)
  {
    Census(s) && GateOK(s) && OwnerOK(s) && HandsOK(s) && WakeUnderWay(s)
  }

  lemma InitInv(threads: set<Thread>)
    ensures Inv(Init(threads))
  {
    var s := Init(threads);
    forall k: Kind | k != Other ensures Who(s.pc, k) == {} {
    }
    assert Who(s.pc, Locker) == {} && Who(s.pc, AtTheGate) == {} && Who(s.pc, Woken) == {} && Who(s.pc, Signaller) == {};
  }

  lemma MoveAll(pc: map<Thread, Pc>, t: Thread, p: Pc)
    requires t in pc
    ensures forall k: Kind :: |Who(pc[t := p], k)| == |Who(pc, k)| - One(KindOf(pc[t]) == k) + One(KindOf(p) == k)
  {
    forall k: Kind ensures |Who(pc[t := p], k)| == |Who(pc, k)| - One(KindOf(pc[t]) == k) + One(KindOf(p) == k) {
      Move(pc, t, p, k);
    }
  }

  /** A kind with a member is not empty. */
  lemma Member(pc: map<Thread, Pc>, t: Thread)
    requires t in pc
    ensures |Who(pc, KindOf(pc[t]))| >= 1
  {
    assert t in Who(pc, KindOf(pc[t]));
  }

  /** The three fields of a word and what the protocol's additions and subtractions do to them. */
  lemma Fields(c: int)
    requires c >= 0
    ensures c == One(LockBit(c)) + WOKEN * One(WokenBit(c)) + INC * (c / INC)
  {
  }

  lemma FieldsUnique(c: int, l: bool, w: bool, n: nat)
    requires c == One(l) + WOKEN * One(w) + INC * n
    ensures LockBit(c) == l && WokenBit(c) == w && c / INC == n
  {
  }

  lemma CensusWake(s: State, t: Thread)
    requires Census(s) && GateOK(s) && Enabled(s, Signal(t)) && s.queue != []
    ensures Census(Step(s, Signal(t)))
  {
    Member(s.pc, t);
    var w := s.queue[0];
    assert w in s.queue;
    MoveAll(s.pc, w, SlowRead(true));
    MoveAll(s.pc[w := SlowRead(true)], t, Idle);
  }

  lemma CensusSignal(s: State, t: Thread)
    requires Census(s) && GateOK(s) && Enabled(s, Signal(t))
    ensures Census(Step(s, Signal(t)))
  {
    Member(s.pc, t);
    if s.queue != [] {
      CensusWake(s, t);
    } else {
      MoveAll(s.pc, t, Idle);
    }
  }

  /** What a compare-and-exchange that succeeds makes of the word. */
  lemma ExchangedWord(c: int, woken: bool)
    requires c >= 0
    ensures LockBit(c) && (woken ==> WokenBit(c)) ==> var c' := Remove(c, woken);
      c' >= 0 && !LockBit(c') && (WokenBit(c') <==> WokenBit(c) && !woken) && c' / INC == c / INC
    ensures !LockBit(c) && woken && WokenBit(c) ==> !LockBit(c + WOKEN) && !WokenBit(c + WOKEN) && (c + WOKEN) / INC == c / INC + 1
    ensures !LockBit(c) ==> !LockBit(c + INC) && (WokenBit(c + INC) <==> WokenBit(c)) && (c + INC) / INC == c / INC + 1
  {
    Fields(c);
    var w, n := WokenBit(c), c / INC;
    if LockBit(c) && (woken ==> w) {
      FieldsUnique(Remove(c, woken), false, w && !woken, n);
    } else if !LockBit(c) {
      if woken && w { FieldsUnique(c + WOKEN, false, false, n + 1); }
      FieldsUnique(c + INC, false, w, n + 1);
    }
  }

  /** One thread changes its kind, the lock bit, the woken bit, the waiter count and the gate change with it. */
  lemma CensusMove(s: State, t: Thread, p: Pc, c: int)
    requires Census(s) && t in s.pc && c >= 0 && KindOf(s.pc[t]) != Signaller && KindOf(p) != Signaller
    requires One(KindOf(p) == Locker) + One(LockBit(c)) == One(KindOf(s.pc[t]) == Locker) + One(LockBit(s.count))
    requires One(KindOf(p) == AtTheGate) + One(KindOf(p) == Woken) - One(KindOf(s.pc[t]) == AtTheGate) - One(KindOf(s.pc[t]) == Woken)
          == c / INC + One(WokenBit(c)) - s.count / INC - One(WokenBit(s.count))
    requires One(KindOf(p) == Woken) - One(KindOf(s.pc[t]) == Woken) == One(WokenBit(c)) - One(WokenBit(s.count))
    ensures Census(Goto(s.(count := c), t, p))
  {
    Move(s.pc, t, p, Locker);
    Move(s.pc, t, p, AtTheGate);
    Move(s.pc, t, p, Woken);
    Move(s.pc, t, p, Signaller);
  }

  lemma CensusExchange(s: State, t: Thread)
    requires Census(s) && Enabled(s, Exchange(t))
    ensures Census(Step(s, Exchange(t)))
  {
    if s.count != s.pc[t].seen {
      CensusMove(s, t, Step(s, Exchange(t)).pc[t], s.count);
    } else {
      CensusExchanged(s, t);
    }
  }

  lemma CensusExchanged(s: State, t: Thread)
    requires Census(s) && Enabled(s, Exchange(t)) && s.count == s.pc[t].seen
    ensures Census(Step(s, Exchange(t)))
  {
    var s' := Step(s, Exchange(t));
    Member(s.pc, t);
    ExchangedWord(s.count, s.pc[t].woken);
    CensusMove(s, t, s'.pc[t], s'.count);
  }

  lemma CensusHand(s: State, t: Thread)
    requires Census(s) && HandsOK(s) && Enabled(s, Hand(t))
    ensures Census(Step(s, Hand(t)))
  {
    var s' := Step(s, Hand(t));
    MoveAll(s.pc, t, s'.pc[t]);
    Fields(s.count);
    if s.count == s.pc[t].expected { FieldsUnique(s'.count, true, true, s.count / INC - 1); }
  }

  /** The three steps that flip the lock bit and nothing else in the word. */
  lemma CensusFlip(s: State, a: Action)
    requires Census(s) && Enabled(s, a) && (a.Acquire? || a.TryOnce? || a.GiveBack?)
    ensures Census(Step(s, a))
  {
    var s' := Step(s, a);
    Member(s.pc, a.t);
    Fields(s.count);
    MoveAll(s.pc, a.t, s'.pc[a.t]);
    if s'.count != s.count { FieldsUnique(s'.count, !LockBit(s.count), WokenBit(s.count), s.count / INC); }
  }

  /** The steps that leave the word alone. */
  lemma CensusQuiet(s: State, a: Action)
    requires Census(s) && Enabled(s, a) && (a.Read? || a.WaitGate? || a.SetOwner? || a.ClearOwner?)
    ensures Census(Step(s, a))
  {
    MoveAll(s.pc, a.t, Step(s, a).pc[a.t]);
  }

  lemma CensusStep(s: State, a: Action)
    requires Census(s) && GateOK(s) && HandsOK(s) && Enabled(s, a)
    ensures Census(Step(s, a))
  {
    match a
    case Signal(t) => CensusSignal(s, t);
    case Exchange(t) => CensusExchange(s, t);
    case Hand(t) => CensusHand(s, t);
    case Acquire(_) => CensusFlip(s, a);
    case TryOnce(_) => CensusFlip(s, a);
    case GiveBack(_) => CensusFlip(s, a);
    case _ => CensusQuiet(s, a);
  }

  lemma GateSignal(s: State, t: Thread)
    requires GateOK(s) && Enabled(s, Signal(t))
    ensures GateOK(Step(s, Signal(t)))
  {
    if s.queue != [] {
      assert s.queue == [s.queue[0]] + s.queue[1..];
      assert s.queue[0] in s.queue;
    }
  }

  lemma GateWait(s: State, t: Thread)
    requires GateOK(s) && Enabled(s, WaitGate(t))
    ensures GateOK(Step(s, WaitGate(t)))
  {
  }

  lemma GateStep(s: State, a: Action)
    requires GateOK(s) && Enabled(s, a)
    ensures GateOK(Step(s, a))
  {
    match a
    case Signal(t) => GateSignal(s, t);
    case WaitGate(t) => GateWait(s, t);
    case _ =>
  }

  /** Two threads never both have the lock bit. */
  lemma OneLocker(s: State, t: Thread, u: Thread)
    requires LockerOK(s) && t in s.pc && u in s.pc && KindOf(s.pc[t]) == Locker && KindOf(s.pc[u]) == Locker
    ensures t == u
  {
    var ls := Who(s.pc, Locker);
    assert t in ls && u in ls;
    assert |ls - {t}| == 0;
  }

  lemma OwnerStep(s: State, a: Action)
    requires Excludes(s) && Enabled(s, a)
    ensures OwnerOK(Step(s, a))
  {
    if a.SetOwner? {
      forall u | u in s.pc && s.pc[u].Holding? ensures u == a.t {
        OneLocker(s, a.t, u);
      }
    }
    if a.Signal? && s.queue != [] { assert s.queue[0] in s.queue; }
  }

  /** The word of a mutex given back with waiters and no wake-up on the way. */
  lemma FreedWord(c: int)
    requires c > 0 && !LockBit(c) && !WokenBit(c)
    ensures (c + LOCK) % 4 == 1 && c + LOCK >= LOCK + INC
  {
    Fields(c);
  }

  lemma HandsGiveBack(s: State, t: Thread)
    requires Census(s) && HandsOK(s) && Enabled(s, GiveBack(t))
    ensures HandsOK(Step(s, GiveBack(t)))
  {
    assert !LockBit(s.count) by { Member(s.pc, t); }
    var s' := Step(s, GiveBack(t));
    if s.count != 0 && !WokenBit(s.count) { FreedWord(s.count); }
    forall u | u in s'.pc && s'.pc[u].Handing? ensures s'.pc[u].expected % 4 == 1 && s'.pc[u].expected >= LOCK + INC {
      if u != t { assert s'.pc[u] == s.pc[u]; }
    }
  }

  lemma HandsStep(s: State, a: Action)
    requires Census(s) && GateOK(s) && HandsOK(s) && Enabled(s, a)
    ensures HandsOK(Step(s, a))
  {
    if a.GiveBack? { HandsGiveBack(s, a.t); }
  }

  /** A step that leaves the word alone leaves the releaser who expects it alone. */
  lemma WakeStays(s: State, a: Action)
    requires WakeUnderWay(s) && GateOK(s) && Enabled(s, a) && Step(s, a).count == s.count && !a.Exchange? && !a.GiveBack?
    ensures WakeUnderWay(Step(s, a))
  {
    var s' := Step(s, a);
    assert s.queue != [] ==> s.queue[0] in s.queue;
    if LockBit(s.count) && s.count / INC > 0 && !WokenBit(s.count) {
      var u :| u in s.pc && s.pc[u] == Handing(s.count);
      assert s'.pc[u] == Handing(s'.count);
    }
  }

  lemma WakeExchange(s: State, t: Thread)
    requires Census(s) && WakeUnderWay(s) && Enabled(s, Exchange(t))
    ensures WakeUnderWay(Step(s, Exchange(t)))
  {
    var s' := Step(s, Exchange(t));
    Member(s.pc, t);
    ExchangedWord(s.count, s.pc[t].woken);
    if s'.count == s.count && LockBit(s.count) && s.count / INC > 0 && !WokenBit(s.count) {
      var u :| u in s.pc && s.pc[u] == Handing(s.count);
      assert s'.pc[u] == Handing(s'.count);
    }
  }

  lemma WakeGiveBack(s: State, t: Thread)
    requires Census(s) && Enabled(s, GiveBack(t))
    ensures WakeUnderWay(Step(s, GiveBack(t)))
  {
    var s' := Step(s, GiveBack(t));
    Member(s.pc, t);
    Fields(s.count);
    if s.count != 0 && !WokenBit(s.count) { assert s'.pc[t] == Handing(s'.count); }
  }

  lemma WakeStep(s: State, a: Action)
    requires Census(s) && GateOK(s) && HandsOK(s) && WakeUnderWay(s) && Enabled(s, a)
    ensures WakeUnderWay(Step(s, a))
  {
    if a.GiveBack? {
      WakeGiveBack(s, a.t);
    } else if a.Exchange? {
      WakeExchange(s, a.t);
    } else if Step(s, a).count == s.count {
      WakeStays(s, a);
    } else {
      Fields(s.count);
    }
  }

  lemma InvStep(s: State, a: Action)
    requires Inv(s) && Enabled(s, a)
    ensures Inv(Step(s, a))
  {
    CensusStep(s, a);
    GateStep(s, a);
    OwnerStep(s, a);
    HandsStep(s, a);
    WakeStep(s, a);
  }

  // ---------------------------------------------------------------- runs

  ghost predicate StepAt(ss: seq<State>, acts: seq<Action>, i: nat)
  {
    i < |acts| && i + 1 < |ss| && Enabled(ss[i], acts[i]) && ss[i + 1] == Step(ss[i], acts[i])
  }

  /** A finite run: each state follows from the one before by an enabled step. */
  ghost predicate IsRun(ss: seq<State>, acts: seq<Action>)
  {
    |ss| == |acts| + 1 && forall i {:trigger StepAt(ss, acts, i)} :: 0 <= i < |acts| ==> StepAt(ss, acts, i)
  }

  ghost predicate RunsTo(threads: set<Thread>, ss: seq<State>, acts: seq<Action>, s: State)
  {
    IsRun(ss, acts) && ss[0] == Init(threads) && ss[|acts|] == s
  }

  ghost predicate Reachable(s: State)
  {
    exists threads, ss, acts :: RunsTo(threads, ss, acts, s)
  }

  lemma {:induction false} RunInv(ss: seq<State>, acts: seq<Action>, threads: set<Thread>)
    requires IsRun(ss, acts) && ss[0] == Init(threads)
    ensures Inv(ss[|acts|])
    decreases |acts|
  {
    if acts == [] {
      InitInv(threads);
    } else {
      var n := |acts| - 1;
      assert StepAt(ss, acts, n);
      var ss', acts' := ss[..n + 1], acts[..n];
      forall i | 0 <= i < n ensures StepAt(ss', acts', i) {
        assert StepAt(ss, acts, i);
      }
      RunInv(ss', acts', threads);
      InvStep(ss[n], acts[n]);
    }
  }

  lemma ReachableInv(s: State)
    requires Reachable(s)
    ensures Inv(s)
  {
    var threads, ss, acts :| RunsTo(threads, ss, acts, s);
    RunInv(ss, acts, threads);
  }

  /** Mutual exclusion: never two threads between taking the lock bit and giving it back; the lock bit is
      clear exactly while there is one; and a thread that holds the mutex is its recorded owner. */
  lemma MutualExclusion(s: State)
    requires Reachable(s)
    ensures Exclusive(s)
    ensures forall t, u ::
      (t in s.pc && (s.pc[t].Acquired? || s.pc[t].Holding? || s.pc[t].Releasing?)
       && u in s.pc && (s.pc[u].Acquired? || s.pc[u].Holding? || s.pc[u].Releasing?)) ==> t == u
    ensures forall t :: t in s.pc && s.pc[t].Holding? ==> s.owner == Some(t)
  {
    ReachableInv(s);
    ExcludesIsExclusive(s);
    forall t | t in s.pc && (s.pc[t].Acquired? || s.pc[t].Holding? || s.pc[t].Releasing?) ensures KindOf(s.pc[t]) == Locker {}
  }

  /** A thread outside that tries gets the mutex exactly when nobody has it; the one that does not insist is outside again
      otherwise, with nothing changed, and the one that does goes on to register as a waiter. */
  lemma TakenWhenFree(s: State, t: Thread)
    requires Reachable(s) && t in s.pc && s.pc[t].Idle?
    ensures Enabled(s, TryOnce(t)) && Enabled(s, Acquire(t))
    ensures var free := forall u :: u in s.pc ==> !s.pc[u].Acquired? && !s.pc[u].Holding? && !s.pc[u].Releasing?;
      && Step(s, TryOnce(t)) == (if free then s.(count := s.count - 1, pc := s.pc[t := Acquired]) else s)
      && Step(s, Acquire(t)) == if free then s.(count := s.count - 1, pc := s.pc[t := Acquired])
                                else s.(pc := s.pc[t := SlowRead(false)])
  {
    LockBitIs(s);
  }

  lemma LockBitIs(s: State)
    requires Reachable(s)
    ensures LockBit(s.count) <==> forall u :: u in s.pc ==> !s.pc[u].Acquired? && !s.pc[u].Holding? && !s.pc[u].Releasing?
  {
    ReachableInv(s);
    ExcludesIsExclusive(s);
    forall u | u in s.pc ensures KindOf(s.pc[u]) == Locker <==> s.pc[u].Acquired? || s.pc[u].Holding? || s.pc[u].Releasing? {}
  }

  /** A release by the holder gives the lock bit back in two steps, and takes none but its own. */
  lemma FreeAgain(s: State, t: Thread)
    requires Reachable(s) && t in s.pc && s.pc[t].Releasing?
    ensures Enabled(s, GiveBack(t)) && Step(s, GiveBack(t)).count == s.count + 1
    ensures forall u :: u in s.pc ==>
      var p := Step(s, GiveBack(t)).pc[u];
      !p.Acquired? && !p.Holding? && !p.Releasing?
  {
    MutualExclusion(s);
  }

  ghost predicate Exclusive(s: State)
  {
    && (forall t, u :: t in s.pc && u in s.pc && KindOf(s.pc[t]) == Locker && KindOf(s.pc[u]) == Locker ==> t == u)
    && (!LockBit(s.count) <==> exists t :: t in s.pc && KindOf(s.pc[t]) == Locker)
    && (forall t :: t in s.pc && s.pc[t].Holding? ==> s.owner == Some(t))
  }

  lemma ExcludesIsExclusive(s: State)
    requires Excludes(s)
    ensures Exclusive(s)
  {
    forall t, u | t in s.pc && u in s.pc && KindOf(s.pc[t]) == Locker && KindOf(s.pc[u]) == Locker ensures t == u {
      OneLocker(s, t, u);
    }
    if t :| t in s.pc && KindOf(s.pc[t]) == Locker {
      Member(s.pc, t);
    }
    if !LockBit(s.count) {
      assert Who(s.pc, Locker) != {};
      var t :| t in Who(s.pc, Locker);
    }
  }

  /** KsSignalGate never finds the gate open, and no second signal is under way: wake-ups never merge. */
  lemma SignalsNeverMerge(s: State, t: Thread)
    requires Reachable(s) && t in s.pc && s.pc[t].Signalling?
    ensures !s.open
    ensures forall u :: u in s.pc && s.pc[u].Signalling? ==> u == t
  {
    ReachableInv(s);
    Member(s.pc, t);
    var ss := Who(s.pc, Signaller);
    forall u | u in s.pc && s.pc[u].Signalling? ensures u == t {
      assert t in ss && u in ss;
      assert |ss - {t}| == 0;
    }
  }

  /** No thread is left behind: when some thread waits on the gate, some other thread is still inside the
      protocol, neither outside it nor asleep. */
  lemma NoStuckWaiter(s: State, w: Thread) returns (u: Thread)
    requires Reachable(s) && w in s.pc && s.pc[w].Waiting?
    ensures u in s.pc && !s.pc[u].Idle? && !s.pc[u].Waiting?
  {
    ReachableInv(s);
    Member(s.pc, w);
    Fields(s.count);
    assert w in s.queue;
    if !LockBit(s.count) {
      assert Who(s.pc, Locker) != {};
      u :| u in Who(s.pc, Locker);
    } else if WokenBit(s.count) {
      assert Who(s.pc, Signaller) + Who(s.pc, Woken) != {};
      u :| u in Who(s.pc, Signaller) + Who(s.pc, Woken);
    } else {
      u :| u in s.pc && s.pc[u] == Handing(s.count);
    }
  }

  /** Such a thread can always take its next step: the protocol itself never blocks. */
  lemma NeverBlocked(s: State, u: Thread) returns (a: Action)
    requires Reachable(s) && u in s.pc && !s.pc[u].Waiting?
    ensures a.t == u && Enabled(s, a)
  {
    ReachableInv(s);
    a := match s.pc[u]
      case Idle => Acquire(u)
      case SlowRead(_) => Read(u)
      case SlowTry(_, _) => Exchange(u)
      case AtGate => WaitGate(u)
      case Acquired => SetOwner(u)
      case Holding => ClearOwner(u)
      case Releasing => GiveBack(u)
      case Handing(_) => Hand(u)
      case Signalling => Signal(u);
    if a.Signal? && s.queue != [] { assert s.queue[0] in s.queue; }
  }

  // ---------------------------------------------------------------- the other release

  /** KsReleaseGuardedMutex signals whenever the value it found is not zero, exchanged or not. */
  function LooseHand(s: State, t: Thread): State
    requires Enabled(s, Hand(t))
  {
    var e := s.pc[t].expected;
    var s1 := if s.count == e then s.(count := e + WOKEN - INC) else s;
    Goto(s1, t, if s.count != 0 then Signalling else Idle)
  }

  /** That step keeps the protocol's invariant exactly when the word is the expected one or zero. */
  lemma LooseHandSafe(s: State, t: Thread)
    requires Inv(s) && Enabled(s, Hand(t))
    ensures Inv(LooseHand(s, t)) <==> s.count == s.pc[t].expected || s.count == 0
  {
    if s.count == s.pc[t].expected || s.count == 0 {
      assert LooseHand(s, t) == Step(s, Hand(t));
      InvStep(s, Hand(t));
    } else {
      MoveAll(s.pc, t, Signalling);
    }
  }

  lemma Extend(s: State, a: Action) returns (s': State)
    requires Reachable(s) && Enabled(s, a)
    ensures s' == Step(s, a) && Reachable(s')
  {
    s' := Step(s, a);
    var threads, ss, acts :| RunsTo(threads, ss, acts, s);
    var ss', acts' := ss + [s'], acts + [a];
    forall i | 0 <= i < |acts'| ensures StepAt(ss', acts', i) {
      if i < |acts| { assert StepAt(ss, acts, i); }
    }
    assert RunsTo(threads, ss', acts', s');
  }

  lemma Start(threads: set<Thread>)
    ensures Reachable(Init(threads))
  {
    assert RunsTo(threads, [Init(threads)], [], Init(threads));
  }

  lemma Taken() returns (s: State)
    ensures Reachable(s) && s == State(0, None, false, [], map[1 := Acquired, 2 := Idle, 3 := Idle])
  {
    Start({1, 2, 3});
    s := Init({1, 2, 3});
    assert s.pc == map[1 := Idle, 2 := Idle, 3 := Idle];
    s := Extend(s, Acquire(1));
    assert s.pc == map[1 := Acquired, 2 := Idle, 3 := Idle];
  }

  lemma Held() returns (s: State)
    ensures Reachable(s) && s == State(0, Some(1), false, [], map[1 := Holding, 2 := Idle, 3 := Idle])
  {
    s := Taken();
    s := Extend(s, SetOwner(1));
    assert s.pc == map[1 := Holding, 2 := Idle, 3 := Idle];
  }

  /** Thread 1 holds the mutex and thread 2 has registered as a waiter. */
  lemma Contended() returns (s: State)
    ensures Reachable(s) && s == State(4, Some(1), false, [], map[1 := Holding, 2 := AtGate, 3 := Idle])
  {
    s := Held();
    s := Extend(s, Acquire(2));
    assert s.pc == map[1 := Holding, 2 := SlowRead(false), 3 := Idle];
    s := Extend(s, Read(2));
    assert s.pc == map[1 := Holding, 2 := SlowTry(false, 0), 3 := Idle];
    s := Extend(s, Exchange(2));
  }

  /** A run that breaks it: thread 1 gives the lock bit back while thread 2 is registered, thread 3 takes
      the bit before thread 1's exchange, and the exchange fails on a word that is not zero. */
  lemma LooseHandBreaks() returns (s: State)
    ensures Reachable(s) && Enabled(s, Hand(1)) && !Inv(LooseHand(s, 1))
    ensures s == State(4, None, false, [], map[1 := Handing(5), 2 := AtGate, 3 := Acquired])
  {
    s := HandedLate();
    ReachableInv(s);
    LooseHandSafe(s, 1);
  }

  lemma GivenBack() returns (s: State)
    ensures Reachable(s) && s == State(5, None, false, [], map[1 := Handing(5), 2 := AtGate, 3 := Idle])
  {
    s := Contended();
    s := Extend(s, ClearOwner(1));
    assert s.pc == map[1 := Releasing, 2 := AtGate, 3 := Idle];
    s := Extend(s, GiveBack(1));
    assert s.pc == map[1 := Handing(5), 2 := AtGate, 3 := Idle];
  }

  lemma HandedLate() returns (s: State)
    ensures Reachable(s) && s == State(4, None, false, [], map[1 := Handing(5), 2 := AtGate, 3 := Acquired])
  {
    s := GivenBack();
    s := Extend(s, Acquire(3));
    assert s.pc == map[1 := Handing(5), 2 := AtGate, 3 := Acquired];
  }

  // ---------------------------------------------------------------- both releases together

  /** A step of the protocol, or the last step of KsReleaseGuardedMutex in the place of Hand. */
  datatype MixedAction = Strict(a: Action) | Loose(t: Thread)

  function Mover(a: MixedAction): Thread
  {
    match a case Strict(b) => b.t case Loose(t) => t
  }

  predicate MixedEnabled(s: State, a: MixedAction)
  {
    Enabled(s, if a.Strict? then a.a else Hand(a.t))
  }

  function MixedStep(s: State, a: MixedAction): State
    requires MixedEnabled(s, a)
  {
    if a.Strict? then Step(s, a.a) else LooseHand(s, a.t)
  }

  ghost predicate MixedStepAt(ss: seq<State>, acts: seq<MixedAction>, i: nat)
  {
    i < |acts| && i + 1 < |ss| && MixedEnabled(ss[i], acts[i]) && ss[i + 1] == MixedStep(ss[i], acts[i])
  }

  ghost predicate IsMixedRun(ss: seq<State>, acts: seq<MixedAction>)
  {
    |ss| == |acts| + 1 && forall i {:trigger MixedStepAt(ss, acts, i)} :: 0 <= i < |acts| ==> MixedStepAt(ss, acts, i)
  }

  ghost predicate MixedRunsTo(threads: set<Thread>, ss: seq<State>, acts: seq<MixedAction>, s: State)
  {
    IsMixedRun(ss, acts) && ss[0] == Init(threads) && ss[|acts|] == s
  }

  ghost predicate MixedReachable(s: State)
  {
    exists threads, ss, acts :: MixedRunsTo(threads, ss, acts, s)
  }

  /** Every run of the protocol is one of the mixed system. */
  lemma StrictIsMixed(s: State)
    requires Reachable(s)
    ensures MixedReachable(s)
  {
    var threads, ss, acts :| RunsTo(threads, ss, acts, s);
    var mixed := seq(|acts|, i requires 0 <= i < |acts| => Strict(acts[i]));
    forall i | 0 <= i < |mixed| ensures MixedStepAt(ss, mixed, i) {
      assert StepAt(ss, acts, i);
    }
    assert MixedRunsTo(threads, ss, mixed, s);
  }

  lemma MixedExtend(s: State, a: MixedAction) returns (s': State)
    requires MixedReachable(s) && MixedEnabled(s, a)
    ensures s' == MixedStep(s, a) && MixedReachable(s')
  {
    s' := MixedStep(s, a);
    var threads, ss, acts :| MixedRunsTo(threads, ss, acts, s);
    var ss', acts' := ss + [s'], acts + [a];
    forall i | 0 <= i < |acts'| ensures MixedStepAt(ss', acts', i) {
      if i < |acts| { assert MixedStepAt(ss, acts, i); }
    }
    assert MixedRunsTo(threads, ss', acts', s');
  }

  /** Every compare-and-exchange that succeeds keeps the lock bit or hands it to the thread. */
  ghost predicate HandsOdd(s: State)
  {
    forall t :: t in s.pc && s.pc[t].Handing? ==> LockBit(s.pc[t].expected)
  }

  lemma LockerSignal(s: State, t: Thread)
    requires Excludes(s) && Enabled(s, Signal(t))
    ensures LockerOK(Step(s, Signal(t)))
  {
    if s.queue != [] {
      var w := s.queue[0];
      assert w in s.queue;
      Move(s.pc, w, SlowRead(true), Locker);
      Move(s.pc[w := SlowRead(true)], t, Idle, Locker);
    } else {
      Move(s.pc, t, Idle, Locker);
    }
  }

  /** The steps that can change the lock bit. */
  lemma LockerWord(s: State, a: Action)
    requires LockerOK(s) && Enabled(s, a) && (a.Acquire? || a.TryOnce? || a.GiveBack?)
    ensures LockerOK(Step(s, a))
  {
    Member(s.pc, a.t);
    Move(s.pc, a.t, Step(s, a).pc[a.t], Locker);
  }

  lemma LockerExchange(s: State, a: Action)
    requires LockerOK(s) && Enabled(s, a) && a.Exchange?
    ensures LockerOK(Step(s, a))
  {
    Member(s.pc, a.t);
    Move(s.pc, a.t, Step(s, a).pc[a.t], Locker);
  }

  lemma LockerQuiet(s: State, a: Action)
    requires LockerOK(s) && HandsOdd(s) && Enabled(s, a) && (a.Read? || a.WaitGate? || a.SetOwner? || a.ClearOwner? || a.Hand?)
    ensures LockerOK(Step(s, a))
  {
    Move(s.pc, a.t, Step(s, a).pc[a.t], Locker);
  }

  lemma LockerStep(s: State, a: MixedAction)
    requires Excludes(s) && HandsOdd(s) && MixedEnabled(s, a)
    ensures LockerOK(MixedStep(s, a))
  {
    match a
    case Loose(t) => Move(s.pc, t, LooseHand(s, t).pc[t], Locker);
    case Strict(Signal(t)) => LockerSignal(s, t);
    case Strict(Acquire(_)) => LockerWord(s, a.a);
    case Strict(TryOnce(_)) => LockerWord(s, a.a);
    case Strict(GiveBack(_)) => LockerWord(s, a.a);
    case Strict(Exchange(_)) => LockerExchange(s, a.a);
    case Strict(_) => LockerQuiet(s, a.a);
  }

  lemma ExcludesStep(s: State, a: MixedAction)
    requires Excludes(s) && HandsOdd(s) && MixedEnabled(s, a)
    ensures Excludes(MixedStep(s, a)) && HandsOdd(MixedStep(s, a))
  {
    LockerStep(s, a);
    if a.Strict? {
      GateStep(s, a.a);
      OwnerStep(s, a.a);
      HandsOddStep(s, a.a);
    }
  }

  lemma HandsOddStep(s: State, a: Action)
    requires Excludes(s) && HandsOdd(s) && Enabled(s, a)
    ensures HandsOdd(Step(s, a))
  {
    Member(s.pc, a.t);
  }

  lemma {:induction false} MixedRunExcludes(ss: seq<State>, acts: seq<MixedAction>, threads: set<Thread>)
    requires IsMixedRun(ss, acts) && ss[0] == Init(threads)
    ensures Excludes(ss[|acts|]) && HandsOdd(ss[|acts|])
    decreases |acts|
  {
    if acts == [] {
      InitInv(threads);
    } else {
      var n := |acts| - 1;
      assert MixedStepAt(ss, acts, n);
      var ss', acts' := ss[..n + 1], acts[..n];
      forall i | 0 <= i < n ensures MixedStepAt(ss', acts', i) {
        assert MixedStepAt(ss, acts, i);
      }
      MixedRunExcludes(ss', acts', threads);
      ExcludesStep(ss[n], acts[n]);
    }
  }

  /** Mutual exclusion does not depend on which release is used. */
  lemma MixedExclusion(s: State)
    requires MixedReachable(s)
    ensures Exclusive(s)
  {
    var threads, ss, acts :| MixedRunsTo(threads, ss, acts, s);
    MixedRunExcludes(ss, acts, threads);
    ExcludesIsExclusive(s);
  }

  /** The signal of LooseHandBreaks opens the gate for thread 2, which finds the mutex taken, marks itself and sleeps. */
  lemma WakenForNothing() returns (s: State)
    ensures MixedReachable(s) && s == State(6, None, false, [2], map[1 := Idle, 2 := Waiting, 3 := Acquired])
  {
    s := WokenEarly();
    s := MixedExtend(s, Strict(Read(2)));
    assert s.pc == map[1 := Idle, 2 := SlowTry(true, 4), 3 := Acquired];
    s := MixedExtend(s, Strict(Exchange(2)));
    assert s.pc == map[1 := Idle, 2 := AtGate, 3 := Acquired];
    s := MixedExtend(s, Strict(WaitGate(2)));
  }

  lemma WokenEarly() returns (s: State)
    ensures MixedReachable(s) && s == State(4, None, false, [], map[1 := Idle, 2 := SlowRead(true), 3 := Acquired])
  {
    s := OpenedEarly();
    s := MixedExtend(s, Strict(WaitGate(2)));
    assert s.pc == map[1 := Idle, 2 := SlowRead(true), 3 := Acquired];
  }

  lemma OpenedEarly() returns (s: State)
    ensures MixedReachable(s) && s == State(4, None, true, [], map[1 := Idle, 2 := AtGate, 3 := Acquired])
  {
    s := SignalledWrongly();
    s := MixedExtend(s, Strict(Signal(1)));
    assert s.pc == map[1 := Idle, 2 := AtGate, 3 := Acquired];
  }

  lemma SignalledWrongly() returns (s: State)
    ensures MixedReachable(s) && s == State(4, None, false, [], map[1 := Signalling, 2 := AtGate, 3 := Acquired])
  {
    s := LooseHandBreaks();
    StrictIsMixed(s);
    s := MixedExtend(s, Loose(1));
    assert s.pc == map[1 := Signalling, 2 := AtGate, 3 := Acquired];
  }

  lemma Deserted() returns (s: State)
    ensures MixedReachable(s) && s == State(7, None, false, [2], map[1 := Idle, 2 := Waiting, 3 := Idle])
  {
    s := WakenForNothing();
    s := MixedExtend(s, Strict(SetOwner(3)));
    assert s.pc == map[1 := Idle, 2 := Waiting, 3 := Holding];
    s := MixedExtend(s, Strict(ClearOwner(3)));
    assert s.pc == map[1 := Idle, 2 := Waiting, 3 := Releasing];
    s := MixedExtend(s, Strict(GiveBack(3)));
    assert s.pc == map[1 := Idle, 2 := Waiting, 3 := Idle];
  }

  /** The lost wake-up: with the compare-less release a run ends with the mutex free, one thread asleep on its gate, and
      nobody inside the protocol to wake it. */
  lemma LooseLosesWakeup() returns (s: State)
    ensures MixedReachable(s) && LockBit(s.count) && 2 in s.pc && s.pc[2].Waiting?
    ensures forall u :: u in s.pc ==> s.pc[u].Idle? || s.pc[u].Waiting?
    ensures Lost(s, 2)
  {
    s := Deserted();
    var threads, ss, acts :| MixedRunsTo(threads, ss, acts, s);
    MixedRunExcludes(ss, acts, threads);
  }

  /** The word says that a wake-up is under way, and none is. */
  ghost predicate Lost(s: State, w: Thread)
  {
    Excludes(s) && w in s.pc && s.pc[w].Waiting? && WokenBit(s.count) && !s.open && NoWaker(s.pc)
  }

  ghost predicate NoWaker(pc: map<Thread, Pc>)
  {
    forall t :: t in pc ==> KindOf(pc[t]) != Woken && KindOf(pc[t]) != Signaller && !pc[t].Handing?
  }

  lemma LostStep(s: State, a: MixedAction, w: Thread)
    requires Lost(s, w) && MixedEnabled(s, a)
    ensures Lost(MixedStep(s, a), w)
  {
    ExcludesStep(s, a);
    LostWord(s, a);
    NoWakerStep(s, a, w);
  }

  lemma NoWakerStep(s: State, a: MixedAction, w: Thread)
    requires Lost(s, w) && MixedEnabled(s, a) && a.Strict? && !a.a.Signal? && !a.a.Hand?
    ensures var s' := MixedStep(s, a); NoWaker(s'.pc) && !s'.open && w in s'.pc && s'.pc[w].Waiting?
  {
  }

  /** The word keeps its woken bit: no woken thread takes it off, and nobody hands a wake-up over. */
  lemma LostWord(s: State, a: MixedAction)
    requires MixedEnabled(s, a) && Excludes(s) && WokenBit(s.count) && !s.open && NoWaker(s.pc)
    ensures WokenBit(MixedStep(s, a).count) && a.Strict? && !a.a.Signal? && !a.a.Hand?
  {
    Member(s.pc, Mover(a));
  }

  /** From then on nobody wakes the thread, whatever the threads do and however often they take the mutex. */
  lemma {:induction false} LostForever(ss: seq<State>, acts: seq<MixedAction>, w: Thread)
    requires IsMixedRun(ss, acts) && Lost(ss[0], w)
    ensures Lost(ss[|acts|], w)
    decreases |acts|
  {
    if acts != [] {
      var n := |acts| - 1;
      assert MixedStepAt(ss, acts, n);
      var ss', acts' := ss[..n + 1], acts[..n];
      forall i | 0 <= i < n ensures MixedStepAt(ss', acts', i) {
        assert MixedStepAt(ss, acts, i);
      }
      LostForever(ss', acts', w);
      LostStep(ss[n], acts[n], w);
    }
  }
}
