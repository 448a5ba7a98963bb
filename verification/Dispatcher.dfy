/** The dispatcher operations (veakrnl/ks/wait.c, event.c, semaphore.c, mutant.c, and the signalling of a
    timer in time.c). Each public method is one critical section under the dispatcher lock. */
module Dispatcher {
  import opened DispatcherState
  import opened DispatcherKinds
  import opened Wrappers

  datatype WaitResult = InvalidParameter | Satisfied(index: nat) | Blocked

  datatype ReleaseResult = Released(previous: int) | BugCheck | AccessDenied

  const LONG_MAX := 0x7FFF_FFFF
  const LONG_MIN := -0x8000_0000

  /** Addition of LONGs, wrapping to 32 bits. */
  function AddLong(a: int, b: int): int
  {
    (a + b + 0x8000_0000) % 0x1_0000_0000 - 0x8000_0000
  }

  ghost predicate Balanced(objs: map<Id, Object>, initial: map<Id, int>, released: map<Id, int>, paid: map<Id, int>, s: Id)
  {
    && s in objs && s in initial && s in released && s in paid
    && (objs[s].kind.Semaphore? ==> objs[s].signal == initial[s] + released[s] - paid[s])
  }

  /** Every semaphore's count is what it started with, plus what was released, minus the waits it satisfied. */
  ghost predicate BooksOK(objs: map<Id, Object>, initial: map<Id, int>, released: map<Id, int>, paid: map<Id, int>)
  {
    forall s {:trigger Balanced(objs, initial, released, paid, s)} :: s in objs ==> Balanced(objs, initial, released, paid, s)
  }

  ghost function PayOne(paid: map<Id, int>, used: seq<Id>): map<Id, int>
  {
    map s | s in paid :: if s in used then paid[s] + 1 else paid[s]
  }

  lemma TakeBooks(d: Disp, t: Thread, used: seq<Id>, initial: map<Id, int>, released: map<Id, int>, paid: map<Id, int>)
    requires BooksOK(d.objs, initial, released, paid)
    ensures BooksOK(Grant(d, t, used, used).objs, initial, released, PayOne(paid, used))
  {
    var objs' := Grant(d, t, used, used).objs;
    forall s | s in objs' ensures Balanced(objs', initial, released, PayOne(paid, used), s) {
      assert Balanced(d.objs, initial, released, paid, s);
    }
  }

  /** Every object is charged with the waits that ended between d and d' and used its signal up; they ended because of
      `o`. */
  ghost function Charged(paid: map<Id, int>, d: Disp, d': Disp, o: Id): map<Id, int>
  {
    map s | s in paid :: paid[s] + |Took(d, d', o, s)|
  }

  /** The charge sees only the waits. */
  lemma ChargedSame(paid: map<Id, int>, d: Disp, d1: Disp, d': Disp, o: Id)
    requires d1.waits == d.waits
    ensures Charged(paid, d1, d', o) == Charged(paid, d, d', o)
    ensures d'.waits == d.waits ==> Charged(paid, d, d', o) == paid
  {
    forall s | s in paid ensures Took(d1, d', o, s) == Took(d, d', o, s) && (d'.waits == d.waits ==> Took(d, d', o, s) == {}) {
    }
  }

  lemma PassBooks(d: Disp, o: Id, initial: map<Id, int>, released: map<Id, int>, paid: map<Id, int>)
    requires Inv(d) && Signalled(d, o) && BooksOK(d.objs, initial, released, paid)
    ensures BooksOK(WaitTest(d, o, 0).objs, initial, released, Charged(paid, d, WaitTest(d, o, 0), o))
  {
    var objs', paid' := WaitTest(d, o, 0).objs, Charged(paid, d, WaitTest(d, o, 0), o);
    forall s | s in objs' ensures Balanced(objs', initial, released, paid', s) {
      if s in d.objs && d.objs[s].kind.Semaphore? {
        WaitTestConserves(d, o, 0, s);
      } else {
        WaitTestFollows(d, o, 0);
      }
      assert Balanced(d.objs, initial, released, paid, s);
    }
  }

  // ---------------------------------------------------------------- signalling an object

  /** The header of `o` replaced. */
  function With(d: Disp, o: Id, x: Object): Disp
  {
    d.(objs := d.objs[o := x])
  }

  lemma RaiseInv(d: Disp, o: Id, v: int)
    requires Inv(d) && o in d.objs && !d.objs[o].kind.Mutant? && ObjectOK(d.objs[o].(signal := v))
    ensures Inv(With(d, o, d.objs[o].(signal := v)))
  {
    var d' := With(d, o, d.objs[o].(signal := v));
    forall u | u in d'.waits ensures WaitOK(d'.objs, d'.waits[u]) {
      assert WaitOK(d.objs, d.waits[u]);
    }
    forall x | x in d'.objs ensures QueueOK(d', x) {
      assert QueueOK(d, x);
    }
    forall u ensures HeldOK(d', u) {
      assert HeldOK(d, u);
    }
  }

  /** Signalling one object of a quiet dispatcher can only make its own waiters satisfiable. */
  lemma RaisePending(d: Disp, d': Disp, o: Id)
    requires Inv(d) && Quiet(d) && o in d.objs && o in d'.objs
    requires d'.queue == d.queue && d'.waits == d.waits && forall x :: x != o ==> (Signalled(d', x) <==> Signalled(d, x))
    ensures Pending(d', o, 0)
    ensures (Signalled(d', o) ==> Signalled(d, o)) ==> Quiet(d')
  {
    assert QueueOK(d, o);
    assert d.queue[o][0..] == d.queue[o];
    forall t | t in d'.waits
      ensures !Satisfiable(Zeroed(d', o), d'.waits[t])
      ensures Satisfiable(d', d'.waits[t]) ==> t in d'.queue[o][0..]
      ensures (Signalled(d', o) ==> Signalled(d, o)) ==> !Satisfiable(d', d'.waits[t])
    {
      assert !Satisfiable(d, d.waits[t]);
      Fewer(d, Zeroed(d', o), d.waits[t]);
    }
  }

  lemma RaiseBooks(objs: map<Id, Object>, o: Id, v: int, initial: map<Id, int>, released: map<Id, int>, paid: map<Id, int>)
    requires BooksOK(objs, initial, released, paid) && o in objs && !objs[o].kind.Semaphore?
    ensures BooksOK(objs[o := objs[o].(signal := v)], initial, released, paid)
  {
    var objs' := objs[o := objs[o].(signal := v)];
    forall s | s in objs' ensures Balanced(objs', initial, released, paid, s) {
      assert Balanced(objs, initial, released, paid, s);
    }
  }

  lemma GiveBooks(objs: map<Id, Object>, o: Id, n: int, initial: map<Id, int>, released: map<Id, int>, paid: map<Id, int>)
    requires BooksOK(objs, initial, released, paid) && o in objs && o in released
    ensures BooksOK(objs[o := objs[o].(signal := objs[o].signal + n)], initial, released[o := released[o] + n], paid)
  {
    var objs', released' := objs[o := objs[o].(signal := objs[o].signal + n)], released[o := released[o] + n];
    forall s | s in objs' ensures Balanced(objs', initial, released', paid, s) {
      assert Balanced(objs, initial, released, paid, s);
    }
  }

  /** A mutant given up by its owner, before anyone else is considered. */
  function Abandon(d: Disp, t: Thread, m: Id): Disp
    requires m in d.objs
  {
    d.(objs := d.objs[m := d.objs[m].(owner := None, signal := 1)], held := d.held[t := Without(Held(d, t), m)])
  }

  lemma AbandonInv(d: Disp, t: Thread, m: Id)
    requires Inv(d) && m in d.objs && d.objs[m].kind.Mutant? && d.objs[m].owner == Some(t)
    ensures Inv(Abandon(d, t, m))
  {
    var d' := Abandon(d, t, m);
    forall u | u in d'.waits ensures WaitOK(d'.objs, d'.waits[u]) {
      assert WaitOK(d.objs, d.waits[u]);
    }
    forall x | x in d'.objs ensures QueueOK(d', x) {
      assert QueueOK(d, x);
    }
    forall u ensures HeldOK(d', u) {
      assert HeldOK(d, u) && HeldOK(d, t);
      WithoutMembers(Held(d, t), m);
    }
  }

  lemma AbandonBooks(d: Disp, t: Thread, m: Id, initial: map<Id, int>, released: map<Id, int>, paid: map<Id, int>)
    requires BooksOK(d.objs, initial, released, paid) && m in d.objs && d.objs[m].kind.Mutant?
    ensures BooksOK(Abandon(d, t, m).objs, initial, released, paid)
  {
    var objs' := Abandon(d, t, m).objs;
    forall s | s in objs' ensures Balanced(objs', initial, released, paid, s) {
      assert Balanced(d.objs, initial, released, paid, s);
    }
  }

  /** The two comparisons of KsReleaseSemaphore decide on the unwrapped sum. */
  lemma AddLongTests(a: int, b: int, limit: int)
    requires 0 <= a <= limit <= LONG_MAX && LONG_MIN <= b <= LONG_MAX
    ensures limit < AddLong(a, b) || a > AddLong(a, b) <==> b < 0 || a + b > limit
    ensures b >= 0 && a + b <= limit ==> AddLong(a, b) == a + b
  {
  }

  /** A release of nothing on an empty semaphore with a wait-any waiter. */
  ghost predicate Overdraws(d: Disp, s: Id, n: int)
  {
    n == 0 && s in d.objs && d.objs[s].signal == 0 && !NoAnyWaiter(d, s)
  }

  ghost predicate Releasable(d: Disp, s: Id, n: int)
  {
    Inv(d) && Quiet(d) && s in d.objs && d.objs[s].kind.Semaphore? && 0 <= n <= d.objs[s].limit - d.objs[s].signal
  }

  lemma AddedInv(d: Disp, s: Id, n: int)
    requires Releasable(d, s, n)
    ensures Inv(Added(d, s, n)) && (n > 0 ==> Signalled(Added(d, s, n), s))
  {
    assert ObjectOK(d.objs[s]);
    RaiseInv(d, s, d.objs[s].signal + n);
  }

  lemma AddedPending(d: Disp, s: Id, n: int)
    requires Releasable(d, s, n)
    ensures Pending(Added(d, s, n), s, 0)
    ensures d.objs[s].signal > 0 || n == 0 ==> Quiet(Added(d, s, n))
  {
    RaisePending(d, Added(d, s, n), s);
  }

  lemma ReleaseFirst(d: Disp, s: Id, n: int)
    requires Releasable(d, s, n) && n > 0 && d.objs[s].signal == 0
    ensures Inv(Added(d, s, n)) && Signalled(Added(d, s, n), s) && Release(d, s, n) == WaitTest(Added(d, s, n), s, 0)
    ensures Inv(Release(d, s, n)) && Quiet(Release(d, s, n))
  {
    AddedInv(d, s, n);
    AddedPending(d, s, n);
    SweepIsWaitTest(Added(d, s, n), s, 0);
    WaitTestQuiet(Added(d, s, n), s, 0);
  }

  lemma ReleaseKeeps(d: Disp, s: Id, n: int)
    requires Releasable(d, s, n)
    ensures Inv(Release(d, s, n)) <==> !Overdraws(d, s, n)
    ensures !Overdraws(d, s, n) ==> Quiet(Release(d, s, n))
    ensures n > 0 ==> Inv(Added(d, s, n)) && Signalled(Added(d, s, n), s)
                      && Release(d, s, n) == if d.objs[s].signal == 0 then WaitTest(Added(d, s, n), s, 0) else Added(d, s, n)
  {
    if n == 0 {
      assert ObjectOK(d.objs[s]);
      ZeroReleaseBreaks(d, s);
    } else if d.objs[s].signal == 0 {
      ReleaseFirst(d, s, n);
    } else {
      AddedInv(d, s, n);
      AddedPending(d, s, n);
      assert ObjectOK(d.objs[s]);
    }
  }

  lemma ReleaseBooks(d: Disp, s: Id, n: int, initial: map<Id, int>, released: map<Id, int>, paid: map<Id, int>)
    requires Releasable(d, s, n) && !Overdraws(d, s, n) && BooksOK(d.objs, initial, released, paid) && s in released
    ensures BooksOK(Release(d, s, n).objs, initial, released[s := released[s] + n], Charged(paid, d, Release(d, s, n), s))
  {
    GiveBooks(d.objs, s, n, initial, released, paid);
    ChargedSame(paid, d, Added(d, s, n), Release(d, s, n), s);
    if n == 0 {
      assert ObjectOK(d.objs[s]);
      ZeroReleaseBreaks(d, s);
      assert released[s := released[s] + 0] == released;
    } else if d.objs[s].signal == 0 {
      ReleaseFirst(d, s, n);
      PassBooks(Added(d, s, n), s, initial, released[s := released[s] + n], paid);
    } else {
      assert ObjectOK(d.objs[s]);
    }
  }

  class KernelDispatcher {
    var objs: map<Id, Object>
    var queue: map<Id, seq<Thread>>
    var waits: map<Thread, Wait>
    var held: map<Thread, seq<Id>>
    // the ledger of each semaphore: tokens it started with, was given, and paid out to satisfied waits
    ghost var initial: map<Id, int>
    ghost var released: map<Id, int>
    ghost var paid: map<Id, int>

    function Now(): Disp
      reads this
    {
      Disp(objs, queue, waits, held)
    }

    ghost predicate Books()
      reads this
    {
      BooksOK(objs, initial, released, paid)
    }

    ghost predicate Valid()
      reads this
    {
      Inv(Now()) && Quiet(Now()) && Books()
    }

    constructor (objects: map<Id, Object>)
      requires forall o :: o in objects ==> ObjectOK(objects[o]) && objects[o].owner.None?
      ensures Valid() && objs == objects && waits == map[]
      ensures initial == (map o | o in objects :: objects[o].signal) && released == paid == (map o | o in objects :: 0)
    {
      objs := objects;
      queue := map o | o in objects :: [];
      waits, held := map[], map[];
      initial := map o | o in objects :: objects[o].signal;
      released := map o | o in objects :: 0;
      paid := map o | o in objects :: 0;
    }

    // -------------------------------------------------------------- the loops of wait.c

    /** KsiConsumeObjectSignals. */
    method ConsumeSignals(os: seq<Id>)
      requires Distinct(os) && forall o :: o in os ==> o in objs
      modifies `objs
      ensures objs == Consume(old(objs), os)
    {
      var k := 0;
      while k < |os|
        invariant k <= |os| && objs == Consume(old(objs), os[..k])
      {
        assert os[k] in os && os[k] !in os[..k];
        assert os[..k + 1] == os[..k] + [os[k]];
        if !IsNotification(objs[os[k]].kind) {
          objs := objs[os[k] := objs[os[k]].(signal := objs[os[k]].signal - 1)];
        }
        k := k + 1;
      }
      assert os[..k] == os;
    }

    /** KsiAssignMutantOwner. */
    method AssignOwner(t: Thread, o: Id)
      requires o in objs && t in held
      modifies `objs, `held
      ensures objs == if old(objs)[o].kind.Mutant? then old(objs)[o := old(objs)[o].(owner := Some(t))] else old(objs)
      ensures held == if old(objs)[o].kind.Mutant? then old(held)[t := old(held)[t] + [o]] else old(held)
    {
      if objs[o].kind.Mutant? {
        objs := objs[o := objs[o].(owner := Some(t))];
        held := held[t := held[t] + [o]];
      }
    }

    /** KsiAssignMutantOwner over a list of objects. */
    method AssignOwners(t: Thread, os: seq<Id>)
      requires Distinct(os) && forall o :: o in os ==> o in objs
      modifies `objs, `held
      ensures objs == Assign(old(objs), os, t)
      ensures held == old(held)[t := Held(old(Now()), t) + Mutants(old(objs), os)]
    {
      ghost var d := Now();
      StartList(t);
      var k := 0;
      AssignNone(d, t);
      assert os[..0] == [];
      while k < |os|
        invariant k <= |os| && objs == Assign(d.objs, os[..k], t) && held == d.held[t := Holding(d, t, os[..k])]
      {
        assert os[k] in os;
        AssignNext(t, os, k, d);
        k := k + 1;
      }
      assert os[..k] == os;
    }

    /** InitializeListHead at the creation of the thread. */
    method StartList(t: Thread)
      modifies `held
      ensures t in held && held == old(held)[t := Held(old(Now()), t)]
    {
      if t !in held { held := held[t := []]; }
    }

    method AssignNext(t: Thread, os: seq<Id>, k: nat, ghost d: Disp)
      requires k < |os| && os[k] in d.objs && os[k] in objs && t in held
      requires objs == Assign(d.objs, os[..k], t) && held == d.held[t := Holding(d, t, os[..k])]
      modifies `objs, `held
      ensures objs == Assign(d.objs, os[..k + 1], t) && held == d.held[t := Holding(d, t, os[..k + 1])]
    {
      AssignStep(d.objs, os, k, t);
      HoldingStep(d, t, os, k);
      AssignOwner(t, os[k]);
    }

    /** KsiRemoveThreadWaitBlocks, and the thread leaves state Waiting. */
    method RemoveBlocks(t: Thread)
      requires t in waits && Distinct(waits[t].objs) && forall o :: o in waits[t].objs ==> o in queue
      modifies `queue, `waits
      ensures Now() == Unblock(old(Now()), t)
    {
      var os := waits[t].objs;
      var k := 0;
      ghost var queue0 := queue;
      while k < |os|
        invariant k <= |os| && waits == old(waits) && queue == Left(queue0, os[..k], t)
      {
        assert os[k] in os;
        LeftStep(queue0, os, k, t);
        queue := queue[os[k] := Without(queue[os[k]], t)];
        k := k + 1;
      }
      assert os[..k] == os;
      waits := waits - {t};
    }

    /** KsiSatisfyThreadWait. */
    method SatisfyThread(t: Thread, o: Id)
      requires Inv(Now()) && t in waits && o in waits[t].objs && Test(Now(), waits[t], o)
      modifies `objs, `queue, `waits, `held
      ensures Now() == Satisfy(old(Now()), t, o)
    {
      var w := waits[t];
      assert WaitOK(objs, w);
      ConsumeAndAssign(t, if w.any then [o] else w.objs, w.objs);
      RemoveBlocks(t);
    }

    /** KsiConsumeObjectSignals, then KsiAssignMutantOwner. */
    method ConsumeAndAssign(t: Thread, consumed: seq<Id>, taken: seq<Id>)
      requires Distinct(consumed) && Distinct(taken) && forall o :: o in consumed || o in taken ==> o in objs
      modifies `objs, `held
      ensures Now() == Grant(old(Now()), t, consumed, taken)
    {
      MutantsConsume(objs, consumed, taken);
      ConsumeSignals(consumed);
      AssignOwners(t, taken);
    }

    /** KsWaitTest. */
    method RunWaitTest(o: Id)
      requires Sweepable(Now(), o)
      modifies `objs, `queue, `waits, `held
      ensures Now() == Sweep(old(Now()), o, 0)
    {
      ghost var d := Now();
      var i: nat, done := 0, false;
      while i < |queue[o]|
        invariant Sweepable(Now(), o) && i <= |queue[o]| && Sweep(d, o, 0) == Sweep(Now(), o, i)
        decreases |queue[o]| - i
      {
        i, done := TestEntry(o, i);
        if done { return; }
      }
    }

    /** One turn of the loop: the thread at position i is tested, and released when its wait is satisfied. */
    method TestEntry(o: Id, i: nat) returns (next: nat, done: bool)
      requires Sweepable(Now(), o) && i < |queue[o]|
      modifies `objs, `queue, `waits, `held
      ensures done ==> Now() == Sweep(old(Now()), o, i)
      ensures !done ==> Sweepable(Now(), o) && next <= |queue[o]| && |queue[o]| - next < |old(queue)[o]| - i
      ensures !done ==> Sweep(old(Now()), o, i) == Sweep(Now(), o, next)
    {
      var t := queue[o][i];
      SweepNext(Now(), o, i);
      next, done := i, false;
      if Test(Now(), waits[t], o) {
        SatisfyThread(t, o);
        done := !IsNotification(objs[o].kind) && objs[o].signal <= 0;
      } else {
        next := i + 1;
      }
    }

    // -------------------------------------------------------------- waiting

    /** KsWaitForMultipleObjects up to the yield: take the signals at once, or register and block. The dispatcher stays
        valid unless the thread blocks for any of several objects with a mutant among them. */
    method Wait(t: Thread, os: seq<Id>, any: bool) returns (r: WaitResult)
      requires Valid() && t !in waits && Distinct(os) && forall o :: o in os ==> o in objs
      modifies `objs, `queue, `waits, `held, `paid
      ensures Valid() <==> !(r.Blocked? && any && |os| > 1 && exists o :: o in os && old(objs)[o].kind.Mutant?)
      ensures r.InvalidParameter? <==> |os| == 0 || |os| > 3
      ensures r.InvalidParameter? ==> Now() == old(Now())
      // taken at once exactly when satisfiable: the first signalled object of a wait-any, all of a wait-all
      ensures r.Satisfied? <==> 1 <= |os| <= WAIT_OBJECTS && Satisfiable(old(Now()), DispatcherState.Wait(any, os))
      ensures !r.InvalidParameter? ==>
        (r.Satisfied? <==> if any then exists o :: o in os && old(objs)[o].signal > 0
                           else forall o :: o in os ==> old(objs)[o].signal > 0)
      ensures r.Satisfied? ==> r.index < |os| && Signalled(old(Now()), os[r.index])
      ensures r.Satisfied? ==> if any then forall i :: 0 <= i < r.index ==> !Signalled(old(Now()), os[i]) else r.index == 0
      ensures r.Satisfied? ==> var used := if any then [os[r.index]] else os;
                               Now() == Grant(old(Now()), t, used, used)
      ensures r.Blocked? ==> objs == old(objs) && held == old(held) && waits == old(waits)[t := DispatcherState.Wait(any, os)]
      ensures r.Blocked? ==> queue == Joined(old(queue), os, t)
      ensures r.Blocked? ==> forall o :: o in old(queue) ==>
        o in queue && queue[o] == if o in os then old(queue)[o] + [t] else old(queue)[o]
      // kind by kind: what is used up, and whose the mutants are
      ensures r.Satisfied? ==> forall o :: o in old(objs) ==>
        && o in objs && objs[o].kind == old(objs)[o].kind
        && (objs[o].kind in {NotificationEvent, ThreadObject, ProcessObject} ==> objs[o].signal == old(objs)[o].signal)
        && (objs[o].kind in {SynchronizationEvent, Timer, Semaphore, Mutant} ==>
              objs[o].signal == old(objs)[o].signal - if (if any then o == os[r.index] else o in os) then 1 else 0)
        && (objs[o].kind.Mutant? ==>
              objs[o].owner == if (if any then o == os[r.index] else o in os) then Some(t) else old(objs)[o].owner)
      // the ledger: a wait that is satisfied at once is charged to what it takes
      ensures paid == if r.Satisfied? then PayOne(old(paid), if any then [os[r.index]] else os) else old(paid)
    {
      ghost var d := Now();
      r := TryWait(t, os, any);
      SatisfiableIs(d, os, any);
      if r.Satisfied? { TakenByKind(d, Now(), t, os, any, r.index); }
    }

    method TryWait(t: Thread, os: seq<Id>, any: bool) returns (r: WaitResult)
      requires Valid() && t !in waits && Distinct(os) && forall o :: o in os ==> o in objs
      modifies `objs, `queue, `waits, `held, `paid
      ensures Valid() <==> !(r.Blocked? && any && |os| > 1 && exists o :: o in os && old(objs)[o].kind.Mutant?)
      ensures r.InvalidParameter? <==> |os| == 0 || |os| > WAIT_OBJECTS
      ensures r.InvalidParameter? ==> Now() == old(Now())
      ensures r.Satisfied? <==> 1 <= |os| <= WAIT_OBJECTS && Satisfiable(old(Now()), DispatcherState.Wait(any, os))
      ensures r.Satisfied? ==> r.index < |os| && Signalled(old(Now()), os[r.index])
      ensures r.Satisfied? ==> if any then forall i :: 0 <= i < r.index ==> !Signalled(old(Now()), os[i]) else r.index == 0
      ensures r.Satisfied? ==> var used := if any then [os[r.index]] else os;
                               Now() == Grant(old(Now()), t, used, used)
      ensures r.Blocked? ==> objs == old(objs) && held == old(held) && waits == old(waits)[t := DispatcherState.Wait(any, os)]
      ensures r.Blocked? ==> queue == Joined(old(queue), os, t)
      ensures paid == if r.Satisfied? then PayOne(old(paid), if any then [os[r.index]] else os) else old(paid)
    {
      if |os| == 0 || |os| > WAIT_OBJECTS { return InvalidParameter; }
      var ready, index := FindSignalled(os, any);
      if ready {
        Take(t, if any then [os[index]] else os);
        return Satisfied(index);
      }
      Register(t, os, any);
      return Blocked;
    }

    /** The fast path: consume and assign. */
    method Take(t: Thread, used: seq<Id>)
      requires Inv(Now()) && Quiet(Now()) && Books() && Distinct(used) && AllSignalled(Now(), used)
      modifies `objs, `held, `paid
      ensures Inv(Now()) && Quiet(Now()) && Books() && Now() == Grant(old(Now()), t, used, used)
      ensures paid == PayOne(old(paid), used)
    {
      EnterTaken(t, used);
      ConsumeAndAssign(t, used, used);
    }

    /** The ledger of a wait that is satisfied at once. */
    ghost method EnterTaken(t: Thread, used: seq<Id>)
      requires Inv(Now()) && Quiet(Now()) && Books() && Distinct(used) && AllSignalled(Now(), used)
      modifies `paid
      ensures var d1 := Grant(Now(), t, used, used); Inv(d1) && Quiet(d1) && BooksOK(d1.objs, initial, released, paid)
      ensures paid == PayOne(old(paid), used) && forall o :: o in used ==> o in objs
    {
      TakeKeeps(Now(), t, used, initial, released, paid);
      paid := PayOne(paid, used);
    }

    /** The slow path: one wait block on each object's list, and state Waiting. */
    method Register(t: Thread, os: seq<Id>, any: bool)
      requires Valid() && t !in waits && Named(objs, DispatcherState.Wait(any, os))
      requires !Satisfiable(Now(), DispatcherState.Wait(any, os))
      modifies `queue, `waits
      ensures Valid() <==> NoMutantAmong(objs, DispatcherState.Wait(any, os))
      ensures waits == old(waits)[t := DispatcherState.Wait(any, os)]
      ensures queue == Joined(old(queue), os, t)
    {
      var w := DispatcherState.Wait(any, os);
      if NoMutantAmong(objs, w) { BlockInv(Now(), t, w); }
      JoinQueues(t, os);
      waits := waits[t := w];
      assert Inv(Now()) ==> WaitOK(objs, waits[t]);
    }

    method JoinQueues(t: Thread, os: seq<Id>)
      requires Distinct(os) && forall o :: o in os ==> o in queue
      modifies `queue
      ensures queue == Joined(old(queue), os, t)
    {
      var k := 0;
      while k < |os|
        invariant k <= |os| && queue == Joined(old(queue), os[..k], t)
      {
        assert os[k] in os;
        JoinStep(old(queue), os, k, t);
        queue := queue[os[k] := queue[os[k]] + [t]];
        k := k + 1;
      }
      assert os[..k] == os;
    }

    // -------------------------------------------------------------- signalling

    /** Run KsWaitTest on a freshly signalled object and enter the satisfied waits in the books. */
    method Pass(o: Id)
      requires Inv(Now()) && Signalled(Now(), o) && Pending(Now(), o, 0) && Books()
      modifies `objs, `queue, `waits, `held, `paid
      ensures Valid() && Now() == WaitTest(old(Now()), o, 0) && paid == Charged(old(paid), old(Now()), Now(), o)
    {
      ghost var d := Now();
      SweepIsWaitTest(d, o, 0);
      PassBooks(d, o, initial, released, paid);
      WaitTestQuiet(d, o, 0);
      paid := Charged(paid, d, WaitTest(d, o, 0), o);
      RunWaitTest(o);
    }

    /** KsSetEvent without a following wait. A notification event stays signalled, and everybody who waits for it goes on,
        but those who wait for all and lack another object; a synchronization event lets at most one thread go, and is
        signalled afterwards exactly when it let none go. */
    method SetEvent(e: Id) returns (previous: int)
      requires Valid() && e in objs && (objs[e].kind.NotificationEvent? || objs[e].kind.SynchronizationEvent?)
      modifies `objs, `queue, `waits, `held, `paid
      ensures Valid() && previous == old(objs)[e].signal
      ensures var d1 := With(old(Now()), e, old(objs)[e].(signal := 1));
              Inv(d1) && Now() == if previous == 0 then WaitTest(d1, e, 0) else d1
      ensures paid == Charged(old(paid), old(Now()), Now(), e)
      ensures e in objs && objs[e].kind == old(objs)[e].kind
      ensures old(objs)[e].kind.NotificationEvent? ==> objs[e].signal == 1
      ensures old(objs)[e].kind.SynchronizationEvent? ==>
        var ended := old(waits).Keys - waits.Keys;
        |ended| <= 1 && objs[e].signal == 1 - |ended|
      // nobody goes on whose wait is not satisfied, nobody stays whose wait is, and one alone is the first that can go
      ensures OnlySatisfiedGo(old(objs), old(waits), waits, e)
      ensures objs[e].signal > 0 ==> OthersLack(objs, waits, e)
      ensures e in old(queue)
      ensures old(objs)[e].kind.SynchronizationEvent? ==> FirstGoes(old(objs), old(queue)[e], old(waits), waits, e)
    {
      ghost var d := Now();
      previous := Signal(e);
      SetOutcome(d, e, Now());
    }

    /** The body of KsSetEvent. */
    method Signal(e: Id) returns (previous: int)
      requires Valid() && e in objs && (objs[e].kind.NotificationEvent? || objs[e].kind.SynchronizationEvent?)
      modifies `objs, `queue, `waits, `held, `paid
      ensures Valid() && previous == old(objs)[e].signal
      ensures var d1 := With(old(Now()), e, old(objs)[e].(signal := 1));
              Inv(d1) && Now() == if previous == 0 then WaitTest(d1, e, 0) else d1
      ensures paid == Charged(old(paid), old(Now()), Now(), e)
    {
      ghost var d := Now();
      previous := objs[e].signal;
      assert ObjectOK(objs[e]) && QueueOK(d, e);
      RaiseInv(d, e, 1);
      ghost var p := paid;
      ChargedSame(p, d, d, With(d, e, objs[e].(signal := 1)), e);
      if objs[e].kind.NotificationEvent? && previous == 1 {
        assert With(d, e, objs[e].(signal := 1)) == d;
        return;
      }
      RaisePending(d, With(d, e, objs[e].(signal := 1)), e);
      RaiseBooks(objs, e, 1, initial, released, paid);
      objs := objs[e := objs[e].(signal := 1)];
      if previous == 0 && queue[e] != [] {
        ghost var d1 := Now();
        Pass(e);
        ChargedSame(p, d, d1, Now(), e);
      } else if queue[e] == [] {
        PendingDone(Now(), e, 0);
      }
    }

    /** KsResetEvent, and KsClearEvent. */
    method ResetEvent(e: Id) returns (previous: int)
      requires Valid() && e in objs && (objs[e].kind.NotificationEvent? || objs[e].kind.SynchronizationEvent?)
      modifies `objs
      ensures Valid() && previous == old(objs)[e].signal && objs == old(objs)[e := old(objs)[e].(signal := 0)]
    {
      ghost var d := Now();
      previous := objs[e].signal;
      assert ObjectOK(objs[e]);
      RaiseInv(d, e, 0);
      RaisePending(d, With(d, e, objs[e].(signal := 0)), e);
      RaiseBooks(objs, e, 0, initial, released, paid);
      objs := objs[e := objs[e].(signal := 0)];
    }

    /** KsiCheckTimerExpiration on one due timer: here the pass does not depend on the previous state. At most one thread is
        let go, and the timer is signalled afterwards exactly when none was. */
    method SignalTimer(e: Id)
      requires Valid() && e in objs && objs[e].kind.Timer?
      modifies `objs, `queue, `waits, `held, `paid
      ensures Valid()
      ensures var d1 := With(old(Now()), e, old(objs)[e].(signal := 1)); Inv(d1) && Now() == WaitTest(d1, e, 0)
      ensures paid == Charged(old(paid), old(Now()), Now(), e)
      ensures var ended := old(waits).Keys - waits.Keys;
        e in objs && |ended| <= 1 && objs[e].signal == 1 - |ended|
      ensures OnlySatisfiedGo(old(objs), old(waits), waits, e)
      ensures objs[e].signal > 0 ==> OthersLack(objs, waits, e)
      ensures e in old(queue)
      ensures FirstGoes(old(objs), old(queue)[e], old(waits), waits, e)
    {
      ghost var d := Now();
      assert QueueOK(d, e);
      GoOff(e);
      WhoGoes(d, With(d, e, d.objs[e].(signal := 1)), e, Now());
      TimerOutcome(d, e, Now());
      WhoStays(Now(), e);
    }

    method GoOff(e: Id)
      requires Valid() && e in objs && objs[e].kind.Timer?
      modifies `objs, `queue, `waits, `held, `paid
      ensures Valid()
      ensures var d1 := With(old(Now()), e, old(objs)[e].(signal := 1)); Inv(d1) && Now() == WaitTest(d1, e, 0)
      ensures paid == Charged(old(paid), old(Now()), Now(), e)
    {
      ghost var d, p := Now(), paid;
      ChargedSame(p, d, d, With(d, e, objs[e].(signal := 1)), e);
      assert ObjectOK(objs[e]) && QueueOK(d, e);
      RaiseInv(d, e, 1);
      RaisePending(d, With(d, e, objs[e].(signal := 1)), e);
      RaiseBooks(objs, e, 1, initial, released, paid);
      objs := objs[e := objs[e].(signal := 1)];
      if queue[e] != [] {
        ghost var d1 := Now();
        Pass(e);
        ChargedSame(p, d, d1, Now(), e);
      } else {
        PendingDone(Now(), e, 0);
      }
    }

    /** KsReleaseSemaphore without a following wait. The system stops when the count would pass the limit or
        the LONG sum would not grow. The dispatcher stays valid unless nothing is added to an empty semaphore on which
        some thread waits for any. */
    method ReleaseSemaphore(s: Id, adjustment: int) returns (r: ReleaseResult)
      requires Valid() && s in objs && objs[s].kind.Semaphore? && objs[s].limit <= 0x7FFF_FFFF
      requires -0x8000_0000 <= adjustment <= 0x7FFF_FFFF
      modifies `objs, `queue, `waits, `held, `released, `paid
      ensures Valid() <==> !Overdraws(old(Now()), s, adjustment)
      ensures r.BugCheck? <==> adjustment < 0 || old(objs)[s].signal + adjustment > old(objs)[s].limit
      ensures !r.AccessDenied? && (r.BugCheck? ==> Now() == old(Now()))
      ensures r.Released? ==> r.previous == old(objs)[s].signal && Now() == Release(old(Now()), s, adjustment)
      ensures r.Released? ==> s in old(released) && released == old(released)[s := old(released)[s] + adjustment]
      ensures r.BugCheck? ==> released == old(released)
      ensures paid == Charged(old(paid), old(Now()), Now(), s)
      ensures r.Released? && adjustment > 0 ==>
                var d1 := Added(old(Now()), s, adjustment);
                Inv(d1) && Signalled(d1, s) && Now() == if r.previous == 0 then WaitTest(d1, s, 0) else d1
      // one unit for each thread that is let go; nobody goes on whose wait is not satisfied, nobody stays whose wait is
      ensures r.Released? && adjustment > 0 ==>
        s in objs && objs[s].signal == old(objs)[s].signal + adjustment - |old(waits).Keys - waits.Keys|
      ensures r.Released? && adjustment > 0 ==> OnlySatisfiedGo(old(objs), old(waits), waits, s)
      ensures r.Released? && adjustment > 0 && objs[s].signal > 0 ==> OthersLack(objs, waits, s)
    {
      ghost var d := Now();
      r := TryRelease(s, adjustment);
      if r.Released? && adjustment > 0 {
        SemaphoreOutcome(d, s, adjustment, Now());
      }
    }

    method TryRelease(s: Id, adjustment: int) returns (r: ReleaseResult)
      requires Valid() && s in objs && objs[s].kind.Semaphore? && objs[s].limit <= LONG_MAX
      requires LONG_MIN <= adjustment <= LONG_MAX
      modifies `objs, `queue, `waits, `held, `released, `paid
      ensures Valid() <==> !Overdraws(old(Now()), s, adjustment)
      ensures r.BugCheck? <==> adjustment < 0 || old(objs)[s].signal + adjustment > old(objs)[s].limit
      ensures !r.AccessDenied? && (r.BugCheck? ==> Now() == old(Now()))
      ensures r.Released? ==> r.previous == old(objs)[s].signal && Now() == Release(old(Now()), s, adjustment)
      ensures r.Released? ==> s in old(released) && released == old(released)[s := old(released)[s] + adjustment]
      ensures r.BugCheck? ==> released == old(released)
      ensures paid == Charged(old(paid), old(Now()), Now(), s)
      ensures r.Released? && adjustment > 0 ==>
                var d1 := Added(old(Now()), s, adjustment);
                Inv(d1) && Signalled(d1, s) && Now() == if r.previous == 0 then WaitTest(d1, s, 0) else d1
    {
      var previous := objs[s].signal;
      assert ObjectOK(objs[s]);
      var state, fits := LongSum(previous, adjustment, objs[s].limit);
      ChargedSame(paid, Now(), Now(), Now(), s);
      if !fits { return BugCheck; }
      ReleaseKeeps(Now(), s, adjustment);
      Give(s, state, adjustment);
      return Released(previous);
    }

    /** The part of KsReleaseSemaphore after its range check. */
    method Give(s: Id, state: int, ghost n: int)
      requires Valid() && Releasable(Now(), s, n) && state == objs[s].signal + n
      modifies `objs, `queue, `waits, `held, `released, `paid
      ensures Now() == Release(old(Now()), s, n) && (Valid() <==> !Overdraws(old(Now()), s, n))
      ensures s in old(released) && released == old(released)[s := old(released)[s] + n]
      ensures paid == Charged(old(paid), old(Now()), Now(), s)
    {
      ghost var d := Now();
      Enter(s, n);
      Raise(s, state, n);
      ReleaseKeeps(d, s, n);
      assert Now() == Release(d, s, n);
      assert Books() || Overdraws(d, s, n);
    }

    /** The new count, and the waiters tested when it was zero. */
    method Raise(s: Id, state: int, ghost n: int)
      requires Releasable(Now(), s, n) && state == objs[s].signal + n
      modifies `objs, `queue, `waits, `held
      ensures Now() == Release(old(Now()), s, n)
    {
      var previous := objs[s].signal;
      assert ObjectOK(objs[s]);
      RaiseInv(Now(), s, state);
      SetSignal(s, state);
      TestWaiters(s, previous);
    }

    /** The ledger of a release. */
    ghost method Enter(s: Id, n: int)
      requires Releasable(Now(), s, n) && Books()
      modifies `released, `paid
      ensures s in old(released) && released == old(released)[s := old(released)[s] + n]
      ensures paid == Charged(old(paid), Now(), Release(Now(), s, n), s)
      ensures !Overdraws(Now(), s, n) ==> BooksOK(Release(Now(), s, n).objs, initial, released, paid)
    {
      assert Balanced(objs, initial, released, paid, s);
      if !Overdraws(Now(), s, n) { ReleaseBooks(Now(), s, n, initial, released, paid); }
      released, paid := released[s := released[s] + n], Charged(paid, Now(), Release(Now(), s, n), s);
    }

    method SetSignal(s: Id, state: int)
      requires s in objs
      modifies `objs
      ensures Now() == With(old(Now()), s, old(objs)[s].(signal := state))
    {
      objs := objs[s := objs[s].(signal := state)];
    }

    /** A semaphore whose count was zero has its waiters tested. */
    method TestWaiters(s: Id, previous: int)
      requires Inv(Now()) && s in objs && objs[s].kind.Semaphore?
      modifies `objs, `queue, `waits, `held
      ensures Now() == if previous == 0 then Sweep(old(Now()), s, 0) else old(Now())
    {
      if previous == 0 && queue[s] != [] {
        RunWaitTest(s);
      }
    }

    /** The sum in 32 bits and the two comparisons. */
    static method LongSum(previous: int, adjustment: int, limit: int) returns (state: int, fits: bool)
      requires 0 <= previous <= limit <= LONG_MAX && LONG_MIN <= adjustment <= LONG_MAX
      ensures fits <==> adjustment >= 0 && previous + adjustment <= limit
      ensures fits ==> state == previous + adjustment
    {
      AddLongTests(previous, adjustment, limit);
      state := AddLong(previous, adjustment);
      fits := !(limit < state || previous > state);
    }

    /** KsiReleaseMutant without a following wait. The mutant goes to the one thread that is let go, if any; else it is
        free. */
    method ReleaseMutant(t: Thread, m: Id) returns (r: ReleaseResult)
      requires Valid() && m in objs && objs[m].kind.Mutant?
      modifies `objs, `queue, `waits, `held, `paid
      ensures Valid() && !r.BugCheck?
      ensures r.AccessDenied? <==> old(objs)[m].owner != Some(t)
      ensures r.AccessDenied? ==> Now() == old(Now())
      ensures r.Released? ==> r.previous == 0 && var d1 := Abandon(old(Now()), t, m); Inv(d1) && Now() == WaitTest(d1, m, 0)
      ensures paid == Charged(old(paid), old(Now()), Now(), m)
      ensures r.Released? ==>
        var ended := old(waits).Keys - waits.Keys;
        && m in objs && |ended| <= 1 && objs[m].signal == 1 - |ended|
        && (ended == {} ==> objs[m].owner == None) && forall u :: u in ended ==> objs[m].owner == Some(u)
      ensures r.Released? ==> OnlySatisfiedGo(old(objs), old(waits), waits, m)
      ensures m in objs && objs[m].signal > 0 ==> OthersLack(objs, waits, m)
      ensures m in old(queue)
      ensures r.Released? ==> FirstGoes(old(objs), old(queue)[m], old(waits), waits, m)
    {
      ghost var d := Now();
      assert QueueOK(d, m);
      r := GiveUp(t, m);
      if r.Released? { MutantOutcome(d, t, m, Now()); }
      WhoStays(Now(), m);
    }

    method GiveUp(t: Thread, m: Id) returns (r: ReleaseResult)
      requires Valid() && m in objs && objs[m].kind.Mutant?
      modifies `objs, `queue, `waits, `held, `paid
      ensures Valid() && !r.BugCheck?
      ensures r.AccessDenied? <==> old(objs)[m].owner != Some(t)
      ensures r.AccessDenied? ==> Now() == old(Now())
      ensures r.Released? ==> r.previous == 0 && var d1 := Abandon(old(Now()), t, m); Inv(d1) && Now() == WaitTest(d1, m, 0)
      ensures paid == Charged(old(paid), old(Now()), Now(), m)
    {
      ghost var d, p := Now(), paid;
      ChargedSame(p, d, d, d, m);
      assert ObjectOK(objs[m]) && QueueOK(d, m) && HeldOK(d, t);
      if objs[m].owner != Some(t) { return AccessDenied; }
      assert m in Held(d, t);
      var previous := objs[m].signal;
      AbandonInv(d, t, m);
      RaisePending(d, Abandon(d, t, m), m);
      AbandonBooks(d, t, m, initial, released, paid);
      held := held[t := Without(held[t], m)];
      objs := objs[m := objs[m].(owner := None, signal := 1)];
      ChargedSame(p, d, d, Now(), m);
      if queue[m] != [] {
        ghost var d1 := Now();
        Pass(m);
        ChargedSame(p, d, d1, Now(), m);
      } else {
        PendingDone(Now(), m, 0);
      }
      return Released(previous);
    }

    /** KsiAreObjectsSignaled. */
    method FindSignalled(os: seq<Id>, any: bool) returns (ready: bool, index: nat)
      requires |os| > 0 && forall o :: o in os ==> o in objs
      ensures ready <==> Satisfiable(Now(), DispatcherState.Wait(any, os))
      ensures ready ==> index < |os| && Signalled(Now(), os[index])
      ensures ready ==> if any then forall i :: 0 <= i < index ==> !Signalled(Now(), os[i]) else index == 0
    {
      index := 0;
      if any {
        while index < |os|
          invariant index <= |os| && forall i :: 0 <= i < index ==> !Signalled(Now(), os[i])
        {
          assert os[index] in os;
          if objs[os[index]].signal > 0 { return true, index; }
          index := index + 1;
        }
        return false, 0;
      }
      var k := 0;
      while k < |os|
        invariant k <= |os| && forall i :: 0 <= i < k ==> Signalled(Now(), os[i])
      {
        assert os[k] in os;
        if objs[os[k]].signal <= 0 { return false, 0; }
        k := k + 1;
      }
      return true, 0;
    }
  }

  /** The wait lists after a thread has left those of `os`. */
  function Left(queue: map<Id, seq<Thread>>, os: seq<Id>, t: Thread): map<Id, seq<Thread>>
  {
    map o | o in queue :: if o in os then Without(queue[o], t) else queue[o]
  }

  lemma LeftStep(queue: map<Id, seq<Thread>>, os: seq<Id>, k: nat, t: Thread)
    requires Distinct(os) && k < |os| && os[k] in queue
    ensures var q := Left(queue, os[..k], t);
      os[k] in q && q[os[k] := Without(q[os[k]], t)] == Left(queue, os[..k + 1], t)
  {
    assert os[k] !in os[..k];
    assert os[..k + 1] == os[..k] + [os[k]];
  }

  /** A thread's mutants after those among `os` have been appended. */
  function Holding(d: Disp, t: Thread, os: seq<Id>): seq<Id>
  {
    Held(d, t) + Mutants(d.objs, os)
  }

  lemma AssignNone(d: Disp, t: Thread)
    ensures Assign(d.objs, [], t) == d.objs && Holding(d, t, []) == Held(d, t)
  {
  }

  lemma HoldingStep(d: Disp, t: Thread, os: seq<Id>, k: nat)
    requires k < |os| && os[k] in d.objs
    ensures var before := d.held[t := Holding(d, t, os[..k])];
      d.held[t := Holding(d, t, os[..k + 1])] == if d.objs[os[k]].kind.Mutant? then before[t := before[t] + [os[k]]] else before
  {
    AssignStep(d.objs, os, k, t);
    assert Held(d, t) + Mutants(d.objs, os[..k]) + [os[k]] == Held(d, t) + (Mutants(d.objs, os[..k]) + [os[k]]);
    assert Mutants(d.objs, os[..k]) + [] == Mutants(d.objs, os[..k]);
  }

  lemma AssignStep(objs: map<Id, Object>, os: seq<Id>, k: nat, t: Thread)
    requires k < |os| && os[k] in objs
    ensures Assign(objs, os[..k + 1], t) ==
              if objs[os[k]].kind.Mutant? then
                var m := Assign(objs, os[..k], t); m[os[k] := m[os[k]].(owner := Some(t))]
              else Assign(objs, os[..k], t)
    ensures Mutants(objs, os[..k + 1]) == Mutants(objs, os[..k]) + (if objs[os[k]].kind.Mutant? then [os[k]] else [])
    ensures Assign(objs, os[..k], t)[os[k]].kind == objs[os[k]].kind
  {
    assert os[..k + 1] == os[..k] + [os[k]] && os[..k + 1][..k] == os[..k];
  }

  /** The wait lists after a thread has joined those of `os`. */
  function Joined(queue: map<Id, seq<Thread>>, os: seq<Id>, t: Thread): map<Id, seq<Thread>>
  {
    map o | o in queue :: if o in os then queue[o] + [t] else queue[o]
  }

  lemma JoinStep(queue: map<Id, seq<Thread>>, os: seq<Id>, k: nat, t: Thread)
    requires k < |os| && Distinct(os) && os[k] in queue
    ensures var q := Joined(queue, os[..k], t); Joined(queue, os[..k + 1], t) == q[os[k] := q[os[k]] + [t]]
  {
    assert os[..k + 1] == os[..k] + [os[k]];
    assert os[k] !in os[..k];
  }

  lemma {:induction false} MutantsConsume(objs: map<Id, Object>, consumed: seq<Id>, os: seq<Id>)
    ensures Mutants(Consume(objs, consumed), os) == Mutants(objs, os)
  {
    if os != [] {
      MutantsConsume(objs, consumed, os[..|os| - 1]);
    }
  }

  /** Taking signals cannot make a blocked wait satisfiable. */
  lemma GrantQuiet(d: Disp, t: Thread, consumed: seq<Id>, taken: seq<Id>)
    requires Quiet(d)
    ensures Quiet(Grant(d, t, consumed, taken))
  {
    var d' := Grant(d, t, consumed, taken);
    forall u | u in d'.waits ensures !Satisfiable(d', d'.waits[u]) {
      assert d'.waits[u] == d.waits[u];
      Fewer(d, d', d.waits[u]);
    }
  }

  /** What setting an event comes to, by its kind. */
  lemma SetOutcome(d: Disp, e: Id, d': Disp)
    requires Inv(d) && e in d.objs && (d.objs[e].kind.NotificationEvent? || d.objs[e].kind.SynchronizationEvent?)
    requires var d1 := With(d, e, d.objs[e].(signal := 1)); Inv(d1) && d' == if d.objs[e].signal == 0 then WaitTest(d1, e, 0) else d1
    requires Inv(d') && Quiet(d')
    ensures e in d'.objs && d'.objs[e].kind == d.objs[e].kind
    ensures d.objs[e].kind.NotificationEvent? ==> d'.objs[e].signal == 1
    ensures d.objs[e].kind.SynchronizationEvent? ==>
      var ended := Ended(d.waits, d'.waits); |ended| <= 1 && d'.objs[e].signal == 1 - |ended|
    ensures OnlySatisfiedGo(d.objs, d.waits, d'.waits, e)
    ensures d'.objs[e].signal > 0 ==> OthersLack(d'.objs, d'.waits, e)
    ensures e in d.queue && (d.objs[e].kind.SynchronizationEvent? ==> FirstGoes(d.objs, d.queue[e], d.waits, d'.waits, e))
  {
    var d1 := With(d, e, d.objs[e].(signal := 1));
    assert QueueOK(d, e);
    if d.objs[e].signal == 0 {
      WaitTestFollows(d1, e, 0);
      WhoGoes(d, d1, e, d');
      if d.objs[e].kind.NotificationEvent? { PassKeepsSignal(d1, e, 0, e); } else { PassLetsOneGo(d1, e); }
    } else {
      NobodyGoes(d, e);
    }
    WhoStays(d', e);
  }

  lemma NobodyGoes(d: Disp, e: Id)
    requires Inv(d) && e in d.objs
    ensures Ended(d.waits, d.waits) == {} && OnlySatisfiedGo(d.objs, d.waits, d.waits, e)
    ensures e in d.queue && FirstGoes(d.objs, d.queue[e], d.waits, d.waits, e)
  {
    assert QueueOK(d, e);
    forall k | 0 <= k < |d.queue[e]| ensures d.queue[e][k] in d.waits { assert d.queue[e][k] in d.queue[e]; }
  }

  /** Every thread that is let go waited for e; it waited for any, or all its other objects were signalled. */
  ghost predicate OnlySatisfiedGo(objs: map<Id, Object>, waits: map<Thread, Wait>, waits': map<Thread, Wait>, e: Id) {
    forall t :: t in waits && t !in waits' ==>
      && e in waits[t].objs
      && (waits[t].any || forall x :: x in waits[t].objs && x != e ==> x in objs && objs[x].signal > 0)
  }

  /** In front of a thread that is let go there are only threads that wait for all and lack another object. */
  ghost predicate FirstGoes(objs: map<Id, Object>, q: seq<Thread>, waits: map<Thread, Wait>, waits': map<Thread, Wait>, e: Id) {
    forall c, k :: 0 <= c < k < |q| && q[k] !in waits' ==>
      && q[c] in waits && !waits[q[c]].any
      && exists x :: x in waits[q[c]].objs && x in objs && x != e && objs[x].signal <= 0
  }

  /** Whoever waits for e waits for all and lacks another object. */
  ghost predicate OthersLack(objs: map<Id, Object>, waits: map<Thread, Wait>, e: Id) {
    forall t :: t in waits && e in waits[t].objs ==>
      !waits[t].any && exists x :: x in waits[t].objs && x in objs && x != e && objs[x].signal <= 0
  }

  /** Who is let go in a pass over an object that has just been signalled. */
  lemma WhoGoes(d: Disp, d1: Disp, e: Id, d': Disp)
    requires Inv(d1) && Signalled(d1, e) && d' == WaitTest(d1, e, 0) && d1.waits == d.waits && d1.queue == d.queue && e in d.queue
    requires forall x :: x in d1.objs && x != e ==> x in d.objs && d.objs[x] == d1.objs[x]
    ensures OnlySatisfiedGo(d.objs, d.waits, d'.waits, e)
    ensures d1.objs[e].signal == 1 && (d1.objs[e].kind.SynchronizationEvent? || d1.objs[e].kind.Timer? || d1.objs[e].kind.Mutant?) ==>
      FirstGoes(d.objs, d.queue[e], d.waits, d'.waits, e)
  {
    forall t | t in d.waits && t !in d'.waits
      ensures e in d.waits[t].objs
      ensures d.waits[t].any || forall x :: x in d.waits[t].objs && x != e ==> x in d.objs && d.objs[x].signal > 0
    {
      OnlySatisfied(d1, e, 0, t);
    }
    if d1.objs[e].signal == 1 && (d1.objs[e].kind.SynchronizationEvent? || d1.objs[e].kind.Timer? || d1.objs[e].kind.Mutant?) {
      forall c, k | 0 <= c < k < |d.queue[e]| && d.queue[e][k] !in d'.waits
        ensures var u := d.queue[e][c];
          u in d.waits && !d.waits[u].any && exists x :: x in d.waits[u].objs && x in d.objs && x != e && d.objs[x].signal <= 0
      {
        InOrder(d1, e, c, k);
      }
    }
  }

  /** Who is left waiting for a signalled object. */
  lemma WhoStays(d: Disp, e: Id)
    requires Inv(d) && Quiet(d) && e in d.objs
    ensures d.objs[e].signal > 0 ==> OthersLack(d.objs, d.waits, e)
  {
    if d.objs[e].signal > 0 { QuietMeans(d, e); }
  }

  lemma TimerOutcome(d: Disp, e: Id, d': Disp)
    requires Inv(d) && e in d.objs && d.objs[e].kind.Timer?
    requires var d1 := With(d, e, d.objs[e].(signal := 1)); Inv(d1) && d' == WaitTest(d1, e, 0)
    ensures e in d'.objs && var ended := Ended(d.waits, d'.waits); |ended| <= 1 && d'.objs[e].signal == 1 - |ended|
  {
    PassLetsOneGo(With(d, e, d.objs[e].(signal := 1)), e);
  }

  lemma SemaphoreOutcome(d: Disp, s: Id, n: int, d': Disp)
    requires Inv(d) && s in d.objs && d.objs[s].kind.Semaphore? && Inv(d') && Quiet(d')
    requires var d1 := Added(d, s, n);
      Inv(d1) && Signalled(d1, s) && d' == if d.objs[s].signal == 0 then WaitTest(d1, s, 0) else d1
    ensures s in d'.objs && d'.objs[s].signal == d.objs[s].signal + n - |Ended(d.waits, d'.waits)|
    ensures OnlySatisfiedGo(d.objs, d.waits, d'.waits, s)
    ensures d'.objs[s].signal > 0 ==> OthersLack(d'.objs, d'.waits, s)
  {
    var d1 := Added(d, s, n);
    if d.objs[s].signal == 0 {
      assert QueueOK(d, s);
      PassTakesOneEach(d1, s);
      WhoGoes(d, d1, s, d');
    } else {
      assert Ended(d.waits, d'.waits) == {};
    }
    WhoStays(d', s);
  }

  lemma MutantOutcome(d: Disp, t: Thread, m: Id, d': Disp)
    requires m in d.objs && d.objs[m].kind.Mutant?
    requires var d1 := Abandon(d, t, m); Inv(d1) && d' == WaitTest(d1, m, 0)
    ensures var ended := Ended(d.waits, d'.waits);
      && m in d'.objs && |ended| <= 1 && d'.objs[m].signal == 1 - |ended|
      && (ended == {} ==> d'.objs[m].owner == None) && forall u :: u in ended ==> d'.objs[m].owner == Some(u)
    ensures OnlySatisfiedGo(d.objs, d.waits, d'.waits, m)
    ensures m in d.queue && FirstGoes(d.objs, d.queue[m], d.waits, d'.waits, m)
  {
    var d1 := Abandon(d, t, m);
    assert QueueOK(d1, m);
    WhoGoes(d, d1, m, d');
    PassLetsOneGo(d1, m);
    TakenOwned(d1, m, 0, m);
    forall u | u in Ended(d.waits, d'.waits) ensures m in d.waits[u].objs { EndedWaitedFor(d1, m, 0, u); }
  }

  lemma SatisfiableIs(d: Disp, os: seq<Id>, any: bool)
    requires forall o :: o in os ==> o in d.objs
    ensures Satisfiable(d, DispatcherState.Wait(any, os)) <==>
      if any then exists o :: o in os && d.objs[o].signal > 0 else forall o :: o in os ==> d.objs[o].signal > 0
  {
    if any {
      if o :| o in os && d.objs[o].signal > 0 { assert Signalled(d, o); }
    } else {
      forall o | o in os ensures Signalled(d, o) <==> d.objs[o].signal > 0 {}
    }
  }

  /** What a wait that is satisfied at once uses up, and what it owns. */
  lemma TakenByKind(d: Disp, d': Disp, t: Thread, os: seq<Id>, any: bool, index: nat)
    requires index < |os|
    requires var used := if any then [os[index]] else os; d' == Grant(d, t, used, used)
    ensures forall o :: o in d.objs ==>
      && o in d'.objs && d'.objs[o].kind == d.objs[o].kind
      && (d'.objs[o].kind in {NotificationEvent, ThreadObject, ProcessObject} ==> d'.objs[o].signal == d.objs[o].signal)
      && (d'.objs[o].kind in {SynchronizationEvent, Timer, Semaphore, Mutant} ==>
            d'.objs[o].signal == d.objs[o].signal - if (if any then o == os[index] else o in os) then 1 else 0)
      && (d'.objs[o].kind.Mutant? ==>
            d'.objs[o].owner == if (if any then o == os[index] else o in os) then Some(t) else d.objs[o].owner)
  {
    var used := if any then [os[index]] else os;
    forall o | o in d.objs ensures o in used <==> if any then o == os[index] else o in os {}
    forall o | o in d.objs
      ensures o in d'.objs && d'.objs[o].kind == d.objs[o].kind
      ensures d'.objs[o].kind in {NotificationEvent, ThreadObject, ProcessObject} ==> d'.objs[o].signal == d.objs[o].signal
      ensures d'.objs[o].kind in {SynchronizationEvent, Timer, Semaphore, Mutant} ==>
        d'.objs[o].signal == d.objs[o].signal - if o in used then 1 else 0
      ensures d'.objs[o].kind.Mutant? ==> d'.objs[o].owner == if o in used then Some(t) else d.objs[o].owner
    {
    }
  }

  ghost predicate AllSignalled(d: Disp, os: seq<Id>)
  {
    forall o :: o in os ==> Signalled(d, o)
  }

  /** What taking signals at once keeps. */
  lemma TakeKeeps(d: Disp, t: Thread, used: seq<Id>, initial: map<Id, int>, released: map<Id, int>, paid: map<Id, int>)
    requires Inv(d) && Quiet(d) && BooksOK(d.objs, initial, released, paid)
    requires Distinct(used) && AllSignalled(d, used)
    ensures Inv(Grant(d, t, used, used)) && Quiet(Grant(d, t, used, used))
    ensures BooksOK(Grant(d, t, used, used).objs, initial, released, PayOne(paid, used))
  {
    GrantInv(d, t, used, used);
    GrantQuiet(d, t, used, used);
    TakeBooks(d, t, used, initial, released, paid);
  }

  /** Registering an unsatisfiable wait keeps the dispatcher consistent and quiet. */
  lemma BlockInv(d: Disp, t: Thread, w: Wait)
    requires Inv(d) && Quiet(d) && t !in d.waits && WaitOK(d.objs, w) && !Satisfiable(d, w)
    ensures var d' := d.(waits := d.waits[t := w], queue := Joined(d.queue, w.objs, t)); Inv(d') && Quiet(d')
  {
    var d' := d.(waits := d.waits[t := w], queue := Joined(d.queue, w.objs, t));
    forall u | u in d'.waits ensures WaitOK(d'.objs, d'.waits[u]) {
      if u != t { assert WaitOK(d.objs, d.waits[u]); }
    }
    forall o | o in d'.objs ensures QueueOK(d', o) {
      assert QueueOK(d, o);
      DistinctConcat(d.queue[o], [t]);
    }
    forall u ensures HeldOK(d', u) {
      assert HeldOK(d, u);
    }
    forall u | u in d'.waits ensures !Satisfiable(d', d'.waits[u]) {
      if u != t { assert d'.waits[u] == d.waits[u]; }
      Fewer(d, d', d'.waits[u]);
    }
  }
}
