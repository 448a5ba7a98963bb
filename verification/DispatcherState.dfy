/** Dispatcher objects and the threads that wait on them, as values: what one satisfied wait does, what one
    pass of KsWaitTest does (veakrnl/ks/wait.c), and why one pass is enough. */
module DispatcherState {
  type Thread = nat
  type Id = nat

  const WAIT_OBJECTS := 3     // THREAD_WAIT_OBJECTS

  import opened Wrappers

  datatype Kind = NotificationEvent | SynchronizationEvent | Mutant | Semaphore | Timer | ThreadObject | ProcessObject

  /** KsiIsNotificationObject: waiting does not consume the signal. */
  predicate IsNotification(k: Kind)
  {
    k.NotificationEvent? || k.ThreadObject? || k.ProcessObject?
  }

  datatype Object = Object(kind: Kind, signal: int, limit: int, owner: Option<Thread>)

  datatype Wait = Wait(any: bool, objs: seq<Id>)

  /** objs: the headers; queue: each object's wait list, head first; waits: the wait blocks of the threads
      in state Waiting; held: each thread's list of mutants. */
  datatype Disp = Disp(objs: map<Id, Object>, queue: map<Id, seq<Thread>>, waits: map<Thread, Wait>,
                       held: map<Thread, seq<Id>>)

  function Held(d: Disp, t: Thread): seq<Id>
  {
    if t in d.held then d.held[t] else []
  }

  ghost predicate Distinct<T>(s: seq<T>)
  {
    forall i, j :: 0 <= i < j < |s| ==> s[i] != s[j]
  }

  // ---------------------------------------------------------------- consistency

  predicate ObjectOK(o: Object)
  {
    match o.kind
    case Semaphore => 0 <= o.signal <= o.limit && o.owner.None?
    case Mutant => 0 <= o.signal <= 1 && (o.owner.Some? <==> o.signal == 0)
    case _ => 0 <= o.signal <= 1 && o.owner.None?
  }

  /** A wait names distinct known objects. */
  ghost predicate Named(objs: map<Id, Object>, w: Wait)
  {
    1 <= |w.objs| <= WAIT_OBJECTS && Distinct(w.objs) && forall o :: o in w.objs ==> o in objs
  }

  /** Several objects are waited for with "any" only if none is a mutant (see WakeAssignsAll). */
  ghost predicate NoMutantAmong(objs: map<Id, Object>, w: Wait)
  {
    w.any && |w.objs| > 1 ==> forall o :: o in w.objs && o in objs ==> !objs[o].kind.Mutant?
  }

  ghost predicate WaitOK(objs: map<Id, Object>, w: Wait)
  {
    Named(objs, w) && NoMutantAmong(objs, w)
  }

  ghost predicate QueueOK(d: Disp, o: Id)
  {
    && o in d.queue && Distinct(d.queue[o])
    && forall t :: t in d.queue[o] <==> t in d.waits && o in d.waits[t].objs
  }

  ghost predicate HeldOK(d: Disp, t: Thread)
  {
    && Distinct(Held(d, t))
    && forall m :: m in Held(d, t) <==> m in d.objs && d.objs[m].kind.Mutant? && d.objs[m].owner == Some(t)
  }

  ghost predicate Inv(d: Disp)
  {
    && d.queue.Keys == d.objs.Keys
    && (forall o :: o in d.objs ==> ObjectOK(d.objs[o]))
    && (forall t {:trigger WaitOK(d.objs, d.waits[t])} :: t in d.waits ==> WaitOK(d.objs, d.waits[t]))
    && (forall o {:trigger QueueOK(d, o)} :: o in d.objs ==> QueueOK(d, o))
    && (forall t {:trigger HeldOK(d, t)} :: HeldOK(d, t))
  }

  /** Signals, owners, lists and queues agree, whatever the waits ask for. */
  ghost predicate Consistent(d: Disp)
  {
    && d.queue.Keys == d.objs.Keys
    && (forall o :: o in d.objs ==> ObjectOK(d.objs[o]))
    && (forall t {:trigger Named(d.objs, d.waits[t])} :: t in d.waits ==> Named(d.objs, d.waits[t]))
    && (forall o {:trigger QueueOK(d, o)} :: o in d.objs ==> QueueOK(d, o))
    && (forall t {:trigger HeldOK(d, t)} :: HeldOK(d, t))
  }

  lemma InvSplits(d: Disp)
    ensures Inv(d) <==> Consistent(d) && forall t :: t in d.waits ==> NoMutantAmong(d.objs, d.waits[t])
  {
    forall t | t in d.waits ensures WaitOK(d.objs, d.waits[t]) <==> Named(d.objs, d.waits[t]) && NoMutantAmong(d.objs, d.waits[t]) {
    }
  }

  /** A mutant is taken exactly when it is on some thread's list, and never on two. */
  lemma MutantHeldOnce(d: Disp, m: Id, t: Thread, u: Thread)
    requires Inv(d) && m in d.objs && d.objs[m].kind.Mutant?
    ensures d.objs[m].signal == 0 <==> exists v :: m in Held(d, v)
    ensures m in Held(d, t) && m in Held(d, u) ==> t == u
  {
    assert ObjectOK(d.objs[m]) && HeldOK(d, t) && HeldOK(d, u);
    if d.objs[m].signal == 0 {
      var v := d.objs[m].owner.value;
      assert HeldOK(d, v);
    }
    forall v | m in Held(d, v) ensures d.objs[m].signal == 0 { assert HeldOK(d, v); }
  }

  predicate Signalled(d: Disp, o: Id)
  {
    o in d.objs && d.objs[o].signal > 0
  }

  /** The waiting thread could be released now. */
  ghost predicate Satisfiable(d: Disp, w: Wait)
  {
    if w.any then exists o :: o in w.objs && Signalled(d, o) else forall o :: o in w.objs ==> Signalled(d, o)
  }

  /** No satisfiable waiter is left behind. */
  ghost predicate Quiet(d: Disp)
  {
    forall t {:trigger d.waits[t]} :: t in d.waits ==> !Satisfiable(d, d.waits[t])
  }

  // ---------------------------------------------------------------- one satisfied wait

  /** KsiThreadWaitIsSatisfied, for a thread on the wait list of `o`. */
  predicate Test(d: Disp, w: Wait, o: Id)
  {
    if w.any then o in w.objs else |w.objs| > 0 && forall i :: 0 <= i < |w.objs| ==> Signalled(d, w.objs[i])
  }

  /** The objects whose signal a satisfied wait uses up. */
  function Consumed(w: Wait, o: Id): seq<Id>
  {
    if w.any then [o] else w.objs
  }

  /** KsiConsumeObjectSignals. */
  function Consume(objs: map<Id, Object>, os: seq<Id>): map<Id, Object>
  {
    map o | o in objs :: if o in os && !IsNotification(objs[o].kind) then objs[o].(signal := objs[o].signal - 1) else objs[o]
  }

  /** KsiAssignMutantOwner, for every object of `os`. */
  function Assign(objs: map<Id, Object>, os: seq<Id>, t: Thread): map<Id, Object>
  {
    map o | o in objs :: if o in os && objs[o].kind.Mutant? then objs[o].(owner := Some(t)) else objs[o]
  }

  function Mutants(objs: map<Id, Object>, os: seq<Id>): seq<Id>
  {
    if os == [] then []
    else Mutants(objs, os[..|os| - 1]) +
         (if os[|os| - 1] in objs && objs[os[|os| - 1]].kind.Mutant? then [os[|os| - 1]] else [])
  }

  /** RemoveEntryList of a thread's only block on a list. */
  function Without(q: seq<Thread>, t: Thread): seq<Thread>
  {
    if q == [] then [] else if q[0] == t then q[1..] else [q[0]] + Without(q[1..], t)
  }

  /** Use up the signals of `consumed`, make t the owner of the mutants of `taken`. */
  function Grant(d: Disp, t: Thread, consumed: seq<Id>, taken: seq<Id>): Disp
  {
    d.(objs := Assign(Consume(d.objs, consumed), taken, t),
       held := d.held[t := Held(d, t) + Mutants(d.objs, taken)])
  }

  /** KsiRemoveThreadWaitBlocks and the wake-up. */
  function Unblock(d: Disp, t: Thread): Disp
    requires t in d.waits
  {
    var os := d.waits[t].objs;
    d.(queue := map o | o in d.queue :: if o in os then Without(d.queue[o], t) else d.queue[o],
       waits := d.waits - {t})
  }

  /** KsiSatisfyThreadWait for a thread released because of `o`. */
  function Satisfy(d: Disp, t: Thread, o: Id): Disp
    requires t in d.waits
  {
    Unblock(Grant(d, t, Consumed(d.waits[t], o), d.waits[t].objs), t)
  }

  // ---------------------------------------------------------------- list facts

  lemma {:induction false} WithoutMembers(q: seq<Thread>, t: Thread)
    requires Distinct(q)
    ensures forall x :: x in Without(q, t) <==> x in q && x != t
    ensures Distinct(Without(q, t))
    ensures t in q ==> |Without(q, t)| == |q| - 1
  {
    if q != [] {
      assert q == [q[0]] + q[1..];
      assert forall x :: x in q <==> x == q[0] || x in q[1..];
      assert q[0] !in q[1..];
      if q[0] != t {
        WithoutMembers(q[1..], t);
      }
    }
  }

  lemma DistinctConcat<T>(a: seq<T>, b: seq<T>)
    requires Distinct(a) && Distinct(b) && forall x :: x in a ==> x !in b
    ensures Distinct(a + b)
  {
    forall i, j | 0 <= i < j < |a + b| ensures (a + b)[i] != (a + b)[j] {
      if i < |a| <= j {
        assert a[i] in a && b[j - |a|] in b;
      }
    }
  }

  /** Removing the i-th entry by value is removing it by position. */
  lemma {:induction false} WithoutAt(q: seq<Thread>, i: nat)
    requires Distinct(q) && i < |q|
    ensures Without(q, q[i]) == q[..i] + q[i + 1..]
  {
    if i > 0 {
      WithoutAt(q[1..], i - 1);
    }
  }

  lemma {:induction false} MutantsMembers(objs: map<Id, Object>, os: seq<Id>)
    ensures forall m :: m in Mutants(objs, os) <==> m in os && m in objs && objs[m].kind.Mutant?
    ensures Distinct(os) ==> Distinct(Mutants(objs, os))
  {
    if os != [] {
      var n := |os| - 1;
      assert os == os[..n] + [os[n]];
      MutantsMembers(objs, os[..n]);
    }
  }

  // ---------------------------------------------------------------- granting and unblocking keep the invariant

  /** What a grant needs: the consumed objects are signalled, and the mutants taken are exactly those consumed. */
  ghost predicate Grantable(d: Disp, consumed: seq<Id>, taken: seq<Id>)
  {
    && Distinct(taken)
    && (forall o :: o in consumed ==> Signalled(d, o))
    && (forall o :: o in d.objs && d.objs[o].kind.Mutant? ==> (o in consumed <==> o in taken))
  }

  lemma GrantObjects(d: Disp, t: Thread, consumed: seq<Id>, taken: seq<Id>, o: Id)
    requires Consistent(d) && Grantable(d, consumed, taken) && o in d.objs
    ensures ObjectOK(Grant(d, t, consumed, taken).objs[o])
  {
    assert ObjectOK(d.objs[o]);
  }

  lemma GrantHeldBy(d: Disp, t: Thread, consumed: seq<Id>, taken: seq<Id>)
    requires Consistent(d) && Grantable(d, consumed, taken)
    ensures HeldOK(Grant(d, t, consumed, taken), t)
  {
    assert HeldOK(d, t);
    MutantsMembers(d.objs, taken);
    forall m | m in taken && m in d.objs && d.objs[m].kind.Mutant? ensures d.objs[m].owner == None {
      assert m in consumed && ObjectOK(d.objs[m]);
    }
    DistinctConcat(Held(d, t), Mutants(d.objs, taken));
  }

  lemma GrantHeld(d: Disp, t: Thread, consumed: seq<Id>, taken: seq<Id>, u: Thread)
    requires Consistent(d) && Grantable(d, consumed, taken)
    ensures HeldOK(Grant(d, t, consumed, taken), u)
  {
    if u == t {
      GrantHeldBy(d, t, consumed, taken);
    } else {
      assert HeldOK(d, u);
      forall m | m in taken && m in d.objs && d.objs[m].kind.Mutant? ensures d.objs[m].owner == None {
        assert m in consumed && ObjectOK(d.objs[m]);
      }
    }
  }

  lemma GrantConsistent(d: Disp, t: Thread, consumed: seq<Id>, taken: seq<Id>)
    requires Consistent(d) && Grantable(d, consumed, taken)
    ensures Consistent(Grant(d, t, consumed, taken))
  {
    var d' := Grant(d, t, consumed, taken);
    forall o | o in d'.objs ensures ObjectOK(d'.objs[o]) {
      GrantObjects(d, t, consumed, taken, o);
    }
    forall u | u in d'.waits ensures Named(d'.objs, d'.waits[u]) {
      assert Named(d.objs, d.waits[u]);
    }
    forall o | o in d'.objs ensures QueueOK(d', o) {
      assert QueueOK(d, o);
    }
    forall u ensures HeldOK(d', u) {
      GrantHeld(d, t, consumed, taken, u);
    }
  }

  lemma UnblockConsistent(d: Disp, t: Thread)
    requires Consistent(d) && t in d.waits
    ensures Consistent(Unblock(d, t))
  {
    var d' := Unblock(d, t);
    forall u | u in d'.waits ensures Named(d'.objs, d'.waits[u]) {
      assert Named(d.objs, d.waits[u]);
    }
    forall o | o in d'.objs ensures QueueOK(d', o) {
      assert QueueOK(d, o);
      WithoutMembers(d.queue[o], t);
    }
    forall u ensures HeldOK(d', u) {
      assert HeldOK(d, u);
    }
  }

  /** No object changes its kind and no wait is added. */
  lemma KeepsNoMutantAmong(d: Disp, d': Disp)
    requires Inv(d) && Consistent(d') && d'.objs.Keys == d.objs.Keys && forall x :: x in d.objs ==> d'.objs[x].kind == d.objs[x].kind
    requires forall t :: t in d'.waits ==> t in d.waits && d'.waits[t] == d.waits[t]
    ensures Inv(d')
  {
    InvSplits(d);
    InvSplits(d');
    forall t | t in d'.waits ensures NoMutantAmong(d'.objs, d'.waits[t]) {
      assert NoMutantAmong(d.objs, d.waits[t]);
    }
  }

  lemma GrantInv(d: Disp, t: Thread, consumed: seq<Id>, taken: seq<Id>)
    requires Inv(d) && Grantable(d, consumed, taken)
    ensures Inv(Grant(d, t, consumed, taken))
  {
    InvSplits(d);
    GrantConsistent(d, t, consumed, taken);
    KeepsNoMutantAmong(d, Grant(d, t, consumed, taken));
  }

  lemma UnblockInv(d: Disp, t: Thread)
    requires Inv(d) && t in d.waits
    ensures Inv(Unblock(d, t))
  {
    InvSplits(d);
    UnblockConsistent(d, t);
    KeepsNoMutantAmong(d, Unblock(d, t));
  }

  lemma SatisfyInv(d: Disp, t: Thread, o: Id)
    requires Inv(d) && t in d.waits && o in d.waits[t].objs && Signalled(d, o) && Test(d, d.waits[t], o)
    ensures Grantable(d, Consumed(d.waits[t], o), d.waits[t].objs)
    ensures Inv(Satisfy(d, t, o))
    ensures t in d.queue[o] && |Satisfy(d, t, o).queue[o]| == |d.queue[o]| - 1
  {
    var w := d.waits[t];
    assert WaitOK(d.objs, w);
    if !w.any {
      forall x | x in w.objs ensures Signalled(d, x) {
        var i :| 0 <= i < |w.objs| && w.objs[i] == x;
      }
    } else if |w.objs| == 1 {
      assert w.objs == [o];
    }
    GrantInv(d, t, Consumed(w, o), w.objs);
    UnblockInv(Grant(d, t, Consumed(w, o), w.objs), t);
    assert QueueOK(d, o);
    WithoutMembers(d.queue[o], t);
  }

  // ---------------------------------------------------------------- one pass over a wait list

  /** KsWaitTest from position i of the wait list of `o`: release each thread whose wait is satisfied, and
      stop early once a consumable signal is used up. */
  ghost function WaitTest(d: Disp, o: Id, i: nat): Disp
    requires Inv(d) && Signalled(d, o)
    decreases if o in d.queue && i <= |d.queue[o]| then |d.queue[o]| - i else 0
  {
    assert QueueOK(d, o);
    if i >= |d.queue[o]| then d else
    var t := d.queue[o][i];
    assert t in d.queue[o];
    if !Test(d, d.waits[t], o) then WaitTest(d, o, i + 1) else
    SatisfyInv(d, t, o);
    var d1 := Satisfy(d, t, o);
    if !Signalled(d1, o) then d1 else WaitTest(d1, o, i)
  }

  /** The same dispatcher with the signal of `o` taken away. */
  function Zeroed(d: Disp, o: Id): Disp
  {
    if o in d.objs then d.(objs := d.objs[o := d.objs[o].(signal := 0)]) else d
  }

  /** What a pass may assume: before `o` was signalled nobody could be released, and every thread that can be
      released now is still ahead on the list. */
  ghost predicate Pending(d: Disp, o: Id, i: nat)
  {
    && o in d.objs && o in d.queue && i <= |d.queue[o]| && Quiet(Zeroed(d, o))
    && forall t {:trigger d.waits[t]} :: t in d.waits && Satisfiable(d, d.waits[t]) ==> t in d.queue[o][i..]
  }

  /** Fewer signals satisfy fewer waits. */
  lemma Fewer(d1: Disp, d2: Disp, w: Wait)
    requires forall o :: Signalled(d2, o) ==> Signalled(d1, o)
    ensures Satisfiable(d2, w) ==> Satisfiable(d1, w)
  {
  }

  lemma SatisfyLowers(d: Disp, t: Thread, o: Id)
    requires t in d.waits
    ensures forall x :: Signalled(Satisfy(d, t, o), x) ==> Signalled(d, x)
    ensures forall x :: Signalled(Zeroed(Satisfy(d, t, o), o), x) ==> Signalled(Zeroed(d, o), x)
  {
  }

  /** The test of KsWaitTest releases every thread on the list that can be released. */
  lemma TestComplete(d: Disp, w: Wait, o: Id)
    requires o in w.objs
    ensures Satisfiable(d, w) ==> Test(d, w, o)
  {
    if Satisfiable(d, w) && !w.any {
      forall i | 0 <= i < |w.objs| ensures Signalled(d, w.objs[i]) {
        assert w.objs[i] in w.objs;
      }
    }
  }

  lemma PendingSkip(d: Disp, o: Id, i: nat)
    requires Inv(d) && Pending(d, o, i) && i < |d.queue[o]|
    requires d.queue[o][i] in d.waits && !Test(d, d.waits[d.queue[o][i]], o)
    ensures Pending(d, o, i + 1)
  {
    assert QueueOK(d, o);
    var q, t := d.queue[o], d.queue[o][i];
    assert q[i..] == [t] + q[i + 1..];
    assert t in q;
    TestComplete(d, d.waits[t], o);
  }

  lemma OneLess(q: seq<Thread>, i: nat)
    requires i < |q|
    ensures (q[..i] + q[i + 1..])[i..] == q[i + 1..] && q[i..] == [q[i]] + q[i + 1..]
  {
  }

  lemma PendingSatisfy(d: Disp, o: Id, i: nat)
    requires Inv(d) && Signalled(d, o) && Pending(d, o, i) && i < |d.queue[o]|
    requires var t := d.queue[o][i]; t in d.waits && Test(d, d.waits[t], o)
    ensures Pending(Satisfy(d, d.queue[o][i], o), o, i)
  {
    assert QueueOK(d, o);
    var q, t := d.queue[o], d.queue[o][i];
    assert t in q;
    SatisfyLowers(d, t, o);
    WithoutAt(q, i);
    var d1 := Satisfy(d, t, o);
    assert d1.queue[o] == q[..i] + q[i + 1..];
    OneLess(q, i);
    forall u | u in d1.waits
      ensures !Satisfiable(Zeroed(d1, o), d1.waits[u])
      ensures Satisfiable(d1, d1.waits[u]) ==> u in d1.queue[o][i..]
    {
      assert d1.waits[u] == d.waits[u] && d.waits[u] == Zeroed(d, o).waits[u];
      Fewer(Zeroed(d, o), Zeroed(d1, o), d.waits[u]);
      Fewer(d, d1, d.waits[u]);
    }
  }

  lemma PendingDone(d: Disp, o: Id, i: nat)
    requires Inv(d) && Pending(d, o, i) && (!Signalled(d, o) || i == |d.queue[o]|)
    ensures Quiet(d)
  {
    if !Signalled(d, o) {
      assert ObjectOK(d.objs[o]);
      assert d.objs[o := d.objs[o].(signal := 0)] == d.objs;
    }
  }

  /** One FIFO pass leaves no satisfiable waiter behind. */
  lemma {:induction false} WaitTestQuiet(d: Disp, o: Id, i: nat)
    requires Inv(d) && Signalled(d, o) && Pending(d, o, i)
    ensures Inv(WaitTest(d, o, i)) && Quiet(WaitTest(d, o, i))
    decreases |d.queue[o]| - i
  {
    assert QueueOK(d, o);
    if i == |d.queue[o]| {
      PendingDone(d, o, i);
    } else {
      var t := d.queue[o][i];
      assert t in d.queue[o];
      if !Test(d, d.waits[t], o) {
        PendingSkip(d, o, i);
        WaitTestQuiet(d, o, i + 1);
      } else {
        SatisfyInv(d, t, o);
        PendingSatisfy(d, o, i);
        var d1 := Satisfy(d, t, o);
        if Signalled(d1, o) {
          WaitTestQuiet(d1, o, i);
        } else {
          PendingDone(d1, o, i);
        }
      }
    }
  }

  // ---------------------------------------------------------------- conservation

  /** The threads released between d and d' whose wait used up a signal of s. */
  function Took(d: Disp, d': Disp, o: Id, s: Id): set<Thread>
  {
    set t | t in d.waits && t !in d'.waits && s in Consumed(d.waits[t], o)
  }

  /** Later states of a pass only lose waits and signals, object by object. */
  ghost predicate Follows(d: Disp, d': Disp)
  {
    && d'.objs.Keys == d.objs.Keys
    && (forall x :: x in d.objs ==> d'.objs[x].kind == d.objs[x].kind && d'.objs[x].limit == d.objs[x].limit)
    && (forall t :: t in d'.waits ==> t in d.waits && d'.waits[t] == d.waits[t])
  }

  lemma SatisfyTook(d: Disp, d': Disp, t: Thread, o: Id, s: Id)
    requires t in d.waits && Follows(Satisfy(d, t, o), d')
    ensures |Took(d, d', o, s)| == |Took(Satisfy(d, t, o), d', o, s)| + (if s in Consumed(d.waits[t], o) then 1 else 0)
  {
    var d1 := Satisfy(d, t, o);
    forall u ensures u in Took(d, d', o, s) <==> u in Took(d1, d', o, s) || (u == t && s in Consumed(d.waits[t], o)) {
      assert u in d1.waits <==> u in d.waits && u != t;
    }
    if s in Consumed(d.waits[t], o) {
      assert t !in Took(d1, d', o, s) && Took(d, d', o, s) == Took(d1, d', o, s) + {t};
    } else {
      assert Took(d, d', o, s) == Took(d1, d', o, s);
    }
  }

  lemma SatisfyFollows(d: Disp, t: Thread, o: Id, s: Id)
    requires t in d.waits && s in d.objs && d.objs[s].kind in {SynchronizationEvent, Timer, Semaphore, Mutant}
    ensures Follows(d, Satisfy(d, t, o))
    ensures Satisfy(d, t, o).objs[s].signal == d.objs[s].signal - (if s in Consumed(d.waits[t], o) then 1 else 0)
  {
  }

  lemma SatisfyKinds(d: Disp, t: Thread, o: Id)
    requires t in d.waits
    ensures Follows(d, Satisfy(d, t, o))
  {
  }

  /** A pass changes no object's kind or limit, and only removes waits. */
  lemma {:induction false} WaitTestFollows(d: Disp, o: Id, i: nat)
    requires Inv(d) && Signalled(d, o)
    ensures Follows(d, WaitTest(d, o, i))
    decreases if o in d.queue && i <= |d.queue[o]| then |d.queue[o]| - i else 0
  {
    assert QueueOK(d, o);
    if i < |d.queue[o]| {
      var t := d.queue[o][i];
      assert t in d.queue[o];
      if !Test(d, d.waits[t], o) {
        WaitTestFollows(d, o, i + 1);
      } else {
        SatisfyInv(d, t, o);
        SatisfyKinds(d, t, o);
        if Signalled(Satisfy(d, t, o), o) { WaitTestFollows(Satisfy(d, t, o), o, i); }
      }
    }
  }

  /** Each signal a pass takes away from a consumable object paid for exactly one released wait on it. */
  lemma {:induction false} WaitTestConserves(d: Disp, o: Id, i: nat, s: Id)
    requires Inv(d) && Signalled(d, o) && s in d.objs
    requires d.objs[s].kind in {SynchronizationEvent, Timer, Semaphore, Mutant}
    ensures Follows(d, WaitTest(d, o, i))
    ensures d.objs[s].signal == WaitTest(d, o, i).objs[s].signal + |Took(d, WaitTest(d, o, i), o, s)|
    decreases if o in d.queue && i <= |d.queue[o]| then |d.queue[o]| - i else 0, 0
  {
    assert QueueOK(d, o);
    WaitTestFollows(d, o, i);
    if i >= |d.queue[o]| {
      assert Took(d, d, o, s) == {};
    } else {
      var t := d.queue[o][i];
      assert t in d.queue[o];
      if !Test(d, d.waits[t], o) {
        WaitTestConserves(d, o, i + 1, s);
      } else {
        SatisfyInv(d, t, o);
        SatisfyFollows(d, t, o, s);
        WaitTestRest(Satisfy(d, t, o), o, i, s);
        SatisfyTook(d, WaitTest(d, o, i), t, o, s);
      }
    }
  }

  /** The rest of a pass after one release: nothing when the signal is used up. */
  lemma {:induction false} WaitTestRest(d1: Disp, o: Id, i: nat, s: Id)
    requires Inv(d1) && s in d1.objs && d1.objs[s].kind in {SynchronizationEvent, Timer, Semaphore, Mutant}
    ensures var d' := if Signalled(d1, o) then WaitTest(d1, o, i) else d1;
            Follows(d1, d') && d1.objs[s].signal == d'.objs[s].signal + |Took(d1, d', o, s)|
    decreases if o in d1.queue && i <= |d1.queue[o]| then |d1.queue[o]| - i else 0, 1
  {
    if Signalled(d1, o) {
      WaitTestConserves(d1, o, i, s);
    } else {
      assert Took(d1, d1, o, s) == {};
    }
  }

  // ---------------------------------------------------------------- where the guards matter

  /** KsWaitTest as it is written, on any state: it looks at the signal of `o` only behind a satisfied wait. */
  ghost function Sweep(d: Disp, o: Id, i: nat): Disp
    decreases |d.waits|, if o in d.queue && i <= |d.queue[o]| then |d.queue[o]| - i else 0
  {
    if o !in d.objs || o !in d.queue || i >= |d.queue[o]| then d else
    var t := d.queue[o][i];
    if t !in d.waits || !Test(d, d.waits[t], o) then Sweep(d, o, i + 1) else
    var d1 := Satisfy(d, t, o);
    FewerWaits(d, t, o);
    if !IsNotification(d.objs[o].kind) && d1.objs[o].signal <= 0 then d1 else Sweep(d1, o, i)
  }

  lemma FewerWaits(d: Disp, t: Thread, o: Id)
    requires t in d.waits
    ensures |Satisfy(d, t, o).waits| < |d.waits|
  {
    var rest := d.waits - {t};
    assert d.waits.Keys == rest.Keys + {t};
  }

  /** On a signalled object the pass is the one WaitTest describes. */
  lemma {:induction false} SweepIsWaitTest(d: Disp, o: Id, i: nat)
    requires Inv(d) && Signalled(d, o)
    ensures Sweep(d, o, i) == WaitTest(d, o, i)
    decreases if o in d.queue && i <= |d.queue[o]| then |d.queue[o]| - i else 0
  {
    assert QueueOK(d, o);
    if i < |d.queue[o]| {
      var t := d.queue[o][i];
      assert t in d.queue[o];
      if !Test(d, d.waits[t], o) {
        SweepIsWaitTest(d, o, i + 1);
      } else {
        SatisfyInv(d, t, o);
        if Signalled(Satisfy(d, t, o), o) { SweepIsWaitTest(Satisfy(d, t, o), o, i); }
      }
    }
  }

  /** What KsWaitTest may be run on: a signalled object, or one whose signal a satisfied wait uses up. */
  ghost predicate Sweepable(d: Disp, o: Id)
  {
    Inv(d) && o in d.objs && o in d.queue && (Signalled(d, o) || !IsNotification(d.objs[o].kind))
  }

  /** One turn of the loop. */
  lemma SweepNext(d: Disp, o: Id, i: nat)
    requires Sweepable(d, o) && i < |d.queue[o]|
    ensures var t := d.queue[o][i];
      && t in d.waits && o in d.waits[t].objs
      && if !Test(d, d.waits[t], o) then Sweep(d, o, i) == Sweep(d, o, i + 1) else
         var d1 := Satisfy(d, t, o);
         if !IsNotification(d.objs[o].kind) && d1.objs[o].signal <= 0 then Sweep(d, o, i) == d1
         else Sweep(d, o, i) == Sweep(d1, o, i) && Sweepable(d1, o) && i <= |d1.queue[o]| < |d.queue[o]|
  {
    var t := d.queue[o][i];
    assert QueueOK(d, o) && t in d.queue[o];
    if Test(d, d.waits[t], o) && Signalled(d, o) { SatisfyInv(d, t, o); }
  }

  /** n added to the signal of s. */
  function Added(d: Disp, s: Id, n: int): Disp
    requires s in d.objs
  {
    d.(objs := d.objs[s := d.objs[s].(signal := d.objs[s].signal + n)])
  }

  lemma AddedNothing(d: Disp, s: Id)
    requires s in d.objs
    ensures Added(d, s, 0) == d
  {
    assert d.objs[s].(signal := d.objs[s].signal + 0) == d.objs[s];
    assert d.objs[s := d.objs[s]] == d.objs;
  }

  /** KsReleaseSemaphore behind its range check. */
  ghost function Release(d: Disp, s: Id, n: int): Disp
    requires s in d.objs
  {
    if d.objs[s].signal == 0 then Sweep(Added(d, s, n), s, 0) else Added(d, s, n)
  }

  ghost predicate NoAnyWaiter(d: Disp, o: Id)
  {
    o in d.queue && forall t :: t in d.queue[o] && t in d.waits ==> !d.waits[t].any
  }

  /** Without a wait-any waiter from i on, a pass over an unsignalled object changes nothing. */
  lemma {:induction false} SweepIdle(d: Disp, o: Id, i: nat)
    requires Inv(d) && o in d.objs && !Signalled(d, o) && i <= |d.queue[o]|
    requires forall k :: i <= k < |d.queue[o]| ==> d.queue[o][k] in d.waits && !d.waits[d.queue[o][k]].any
    ensures Sweep(d, o, i) == d
    decreases |d.queue[o]| - i
  {
    if i < |d.queue[o]| {
      var t := d.queue[o][i];
      UnsignalledTest(d, o, t) by { assert t in d.queue[o]; }
      SweepIdle(d, o, i + 1);
    }
  }

  /** An unsignalled object still passes the test for those who wait for any, and only for them. */
  lemma UnsignalledTest(d: Disp, o: Id, t: Thread)
    requires Inv(d) && o in d.objs && !Signalled(d, o) && t in d.queue[o]
    ensures t in d.waits && o in d.waits[t].objs && (Test(d, d.waits[t], o) <==> d.waits[t].any)
  {
    assert QueueOK(d, o);
    var i :| 0 <= i < |d.waits[t].objs| && d.waits[t].objs[i] == o;
  }

  /** With one, a pass over an empty semaphore lets the first of them through and leaves a count of -1. */
  lemma {:induction false} SweepOverdraws(d: Disp, o: Id, i: nat, k: nat)
    requires Inv(d) && o in d.objs && d.objs[o].kind.Semaphore? && d.objs[o].signal == 0 && i <= k < |d.queue[o]|
    requires d.queue[o][k] in d.waits && d.waits[d.queue[o][k]].any
    ensures o in Sweep(d, o, i).objs && Sweep(d, o, i).objs[o].kind.Semaphore? && Sweep(d, o, i).objs[o].signal == -1
    decreases k - i
  {
    var t := d.queue[o][i];
    UnsignalledTest(d, o, t) by { assert t in d.queue[o]; }
    if !d.waits[t].any { SweepOverdraws(d, o, i + 1, k); }
  }

  /** A release that adds nothing keeps the dispatcher consistent exactly when the count is positive or nobody on the
      semaphore's list waits for any; then it changes nothing at all. */
  lemma ZeroReleaseBreaks(d: Disp, s: Id)
    requires Inv(d) && s in d.objs && d.objs[s].kind.Semaphore?
    ensures Inv(Release(d, s, 0)) <==> d.objs[s].signal > 0 || NoAnyWaiter(d, s)
    ensures d.objs[s].signal > 0 || NoAnyWaiter(d, s) ==> Release(d, s, 0) == d
  {
    assert ObjectOK(d.objs[s]) && QueueOK(d, s);
    AddedNothing(d, s);
    if d.objs[s].signal == 0 {
      if NoAnyWaiter(d, s) {
        forall k | 0 <= k < |d.queue[s]| ensures d.queue[s][k] in d.waits && !d.waits[d.queue[s][k]].any {
          assert d.queue[s][k] in d.queue[s];
        }
        SweepIdle(d, s, 0);
      } else {
        var t :| t in d.queue[s] && t in d.waits && d.waits[t].any;
        var k :| 0 <= k < |d.queue[s]| && d.queue[s][k] == t;
        SweepOverdraws(d, s, 0, k);
        assert !ObjectOK(Release(d, s, 0).objs[s]);
      }
    }
  }

  /** Thread 7 is blocked on semaphore 0, whose count is zero. */
  function EmptySemaphore(): Disp
  {
    Disp(map[0 := Object(Semaphore, 0, 1, None)], map[0 := [7]], map[7 := Wait(true, [0])], map[])
  }

  lemma EmptySemaphoreOK()
    ensures Inv(EmptySemaphore()) && Quiet(EmptySemaphore())
  {
    var d := EmptySemaphore();
    assert WaitOK(d.objs, d.waits[7]);
    assert QueueOK(d, 0) by { assert d.queue[0][0] == 7 && d.waits[7].objs[0] == 0; }
    forall t ensures HeldOK(d, t) { }
  }

  /** A release of nothing lets the thread through and breaks the invariant. */
  lemma ZeroReleaseFails()
    ensures Inv(EmptySemaphore()) && Quiet(EmptySemaphore()) && !Inv(Release(EmptySemaphore(), 0, 0))
    ensures 7 in EmptySemaphore().waits && 7 !in Release(EmptySemaphore(), 0, 0).waits
  {
    var d := EmptySemaphore();
    EmptySemaphoreOK();
    ZeroReleaseBreaks(d, 0);
    AddedNothing(d, 0);
    assert d.queue[0][0] == 7 && d.waits[7].objs[0] == 0;
  }

  /** The wake-up path of a wait-any assigns every mutant waited for, the fast path only the one taken. So the wake-up
      keeps signals, owners and lists consistent exactly when no object of the wait other than the signalled one is a
      mutant: a free one would have an owner and still be signalled, one that t owns would be on its list twice, and
      one that another thread owns would be taken from it and stay on its list. */
  lemma WakeAssignsAll(d: Disp, t: Thread, o: Id)
    requires Consistent(d) && t in d.waits && d.waits[t].any && o in d.waits[t].objs && Signalled(d, o)
    ensures Consistent(Satisfy(d, t, o)) <==> forall m :: m in d.waits[t].objs && m in d.objs && m != o ==> !d.objs[m].kind.Mutant?
  {
    var w, d' := d.waits[t], Satisfy(d, t, o);
    assert Named(d.objs, w);
    if m :| m in w.objs && m in d.objs && m != o && d.objs[m].kind.Mutant? {
      TakenTwice(d, t, o, m);
    } else {
      GrantConsistent(d, t, [o], w.objs);
      UnblockConsistent(Grant(d, t, [o], w.objs), t);
    }
  }

  lemma TakenTwice(d: Disp, t: Thread, o: Id, m: Id)
    requires Consistent(d) && t in d.waits && d.waits[t].any && m in d.waits[t].objs && m in d.objs && m != o && d.objs[m].kind.Mutant?
    ensures !Consistent(Satisfy(d, t, o))
  {
    var d', taken := Satisfy(d, t, o), Mutants(d.objs, d.waits[t].objs);
    MutantsMembers(d.objs, d.waits[t].objs);
    assert ObjectOK(d.objs[m]) && HeldOK(d, t) && d'.objs[m] == d.objs[m].(owner := Some(t));
    assert Held(d', t) == Held(d, t) + taken;
    if d.objs[m].owner == None {
      assert !ObjectOK(d'.objs[m]);
    } else if d.objs[m].owner == Some(t) {
      var i :| 0 <= i < |Held(d, t)| && Held(d, t)[i] == m;
      var j :| 0 <= j < |taken| && taken[j] == m;
      assert Held(d', t)[i] == Held(d', t)[|Held(d, t)| + j];
      assert !HeldOK(d', t);
    } else {
      var u := d.objs[m].owner.value;
      assert HeldOK(d, u) && Held(d', u) == Held(d, u);
      assert !HeldOK(d', u);
    }
  }

  /** A mutant's owner and the lists of mutants contradict each other: it is on the list of somebody who does not own it,
      twice on one list, or owned and still signalled. */
  ghost predicate Crossed(d: Disp, m: Id)
  {
    && m in d.objs && d.objs[m].kind.Mutant?
    && ((exists u: Thread :: m in Held(d, u) && d.objs[m].owner != Some(u))
        || (exists u :: ListedTwice(Held(d, u), m))
        || (d.objs[m].owner.Some? && m in Held(d, d.objs[m].owner.value) && d.objs[m].signal != 0))
  }

  ghost predicate ListedTwice(l: seq<Id>, m: Id)
  {
    exists i, j :: 0 <= i < j < |l| && l[i] == l[j] == m
  }

  lemma CrossedWrong(d: Disp, m: Id)
    requires Crossed(d, m)
    ensures !Consistent(d)
  {
    if u: Thread :| m in Held(d, u) && d.objs[m].owner != Some(u) {
      assert !HeldOK(d, u);
    } else if u :| ListedTwice(Held(d, u), m) {
      assert !HeldOK(d, u);
    } else {
      assert !ObjectOK(d.objs[m]);
    }
  }

  lemma TwiceLonger(l: seq<Id>, more: seq<Id>, m: Id)
    ensures ListedTwice(l, m) || (m in l && m in more) ==> ListedTwice(l + more, m)
  {
    if ListedTwice(l, m) {
      var i, j :| 0 <= i < j < |l| && l[i] == l[j] == m;
      assert (l + more)[i] == (l + more)[j] == m;
    } else if m in l && m in more {
      var i :| 0 <= i < |l| && l[i] == m;
      var j :| 0 <= j < |more| && more[j] == m;
      assert (l + more)[i] == (l + more)[|l| + j] == m;
    }
  }

  /** Whoever is woken next, it stays so. */
  lemma CrossedStays(d: Disp, t: Thread, o: Id, m: Id)
    requires Crossed(d, m) && t in d.waits && m != o
    ensures Crossed(Satisfy(d, t, o), m)
  {
    var w, d' := d.waits[t], Satisfy(d, t, o);
    var more := Mutants(d.objs, w.objs);
    MutantsMembers(d.objs, w.objs);
    assert Held(d', t) == Held(d, t) + more;
    assert forall u :: u != t ==> Held(d', u) == Held(d, u);
    TwiceLonger(Held(d, t), more, m);
    if u :| ListedTwice(Held(d, u), m) {
      assert ListedTwice(Held(d', u), m);
    } else {
      var u: Thread :| m in Held(d, u) && (d.objs[m].owner != Some(u) || d.objs[m].signal != 0);
      assert m in Held(d', u);
      if u == t && m in w.objs { assert ListedTwice(Held(d', t), m); }
    }
  }

  /** Waking a thread that waits for any, with another mutant among its objects. */
  lemma WakeCrosses(d: Disp, t: Thread, o: Id, m: Id)
    requires Consistent(d) && t in d.waits && d.waits[t].any && m in d.waits[t].objs && m in d.objs && m != o && d.objs[m].kind.Mutant?
    ensures Crossed(Satisfy(d, t, o), m)
  {
    var d', taken := Satisfy(d, t, o), Mutants(d.objs, d.waits[t].objs);
    MutantsMembers(d.objs, d.waits[t].objs);
    assert ObjectOK(d.objs[m]) && HeldOK(d, t);
    assert Held(d', t) == Held(d, t) + taken && m in Held(d', t);
    assert d'.objs[m] == d.objs[m].(owner := Some(t));
    TwiceLonger(Held(d, t), taken, m);
    if d.objs[m].owner.Some? && d.objs[m].owner != Some(t) {
      var u := d.objs[m].owner.value;
      assert HeldOK(d, u) && Held(d', u) == Held(d, u) && m in Held(d', u);
    }
  }

  lemma {:induction false} SweepFollows(d: Disp, o: Id, i: nat)
    ensures Follows(d, Sweep(d, o, i))
    decreases |d.waits|, if o in d.queue && i <= |d.queue[o]| then |d.queue[o]| - i else 0
  {
    if o in d.objs && o in d.queue && i < |d.queue[o]| {
      var t := d.queue[o][i];
      if t !in d.waits || !Test(d, d.waits[t], o) {
        SweepFollows(d, o, i + 1);
      } else {
        SatisfyKinds(d, t, o);
        FewerWaits(d, t, o);
        var d1 := Satisfy(d, t, o);
        if IsNotification(d.objs[o].kind) || d1.objs[o].signal > 0 { SweepFollows(d1, o, i); }
      }
    }
  }

  lemma {:induction false} SweepCrossed(d: Disp, o: Id, i: nat, m: Id)
    requires Crossed(d, m) && m != o
    ensures Crossed(Sweep(d, o, i), m)
    decreases |d.waits|, if o in d.queue && i <= |d.queue[o]| then |d.queue[o]| - i else 0
  {
    if o in d.objs && o in d.queue && i < |d.queue[o]| {
      var t := d.queue[o][i];
      if t !in d.waits || !Test(d, d.waits[t], o) {
        SweepCrossed(d, o, i + 1, m);
      } else {
        CrossedStays(d, t, o, m);
        FewerWaits(d, t, o);
        var d1 := Satisfy(d, t, o);
        if IsNotification(d.objs[o].kind) || d1.objs[o].signal > 0 { SweepCrossed(d1, o, i, m); }
      }
    }
  }

  /** A wait that can be satisfied by o without taking another mutant on the way. */
  ghost predicate Tame(d: Disp, w: Wait, o: Id)
  {
    w.any ==> forall m :: m in w.objs && m in d.objs && m != o ==> !d.objs[m].kind.Mutant?
  }

  ghost predicate AllTame(d: Disp, d': Disp, o: Id)
  {
    forall t :: t in d.waits && t !in d'.waits ==> Tame(d, d.waits[t], o)
  }

  lemma TameWake(d: Disp, t: Thread, o: Id)
    requires Consistent(d) && t in d.waits && o in d.waits[t].objs && Signalled(d, o) && Test(d, d.waits[t], o) && Tame(d, d.waits[t], o)
    ensures Consistent(Satisfy(d, t, o))
  {
    var w := d.waits[t];
    assert Named(d.objs, w);
    if w.any {
      WakeAssignsAll(d, t, o);
    } else {
      GrantConsistent(d, t, w.objs, w.objs);
      UnblockConsistent(Grant(d, t, w.objs, w.objs), t);
    }
  }

  lemma SweepSkips(d: Disp, o: Id, i: nat)
    requires o in d.objs && o in d.queue && i < |d.queue[o]| && d.queue[o][i] in d.waits && !Test(d, d.waits[d.queue[o][i]], o)
    ensures Sweep(d, o, i) == Sweep(d, o, i + 1)
  {
  }

  /** A whole pass, from any consistent dispatcher, waits for any with mutants among them included: signals, owners and
      lists agree afterwards exactly when no thread it woke was waiting for any with another mutant among its objects. */
  lemma {:induction false} PassAssignsAll(d: Disp, o: Id, i: nat)
    requires Consistent(d) && Signalled(d, o)
    ensures Consistent(Sweep(d, o, i)) <==> AllTame(d, Sweep(d, o, i), o)
    decreases |d.waits|, if o in d.queue && i <= |d.queue[o]| then |d.queue[o]| - i else 0
  {
    assert QueueOK(d, o);
    if i < |d.queue[o]| {
      var t := d.queue[o][i];
      assert t in d.queue[o];
      if !Test(d, d.waits[t], o) {
        SweepSkips(d, o, i);
        PassAssignsAll(d, o, i + 1);
      } else {
        FewerWaits(d, t, o);
        PassWakes(d, o, i, t);
      }
    } else {
      assert Sweep(d, o, i) == d;
    }
  }

  lemma {:induction false} PassWakes(d: Disp, o: Id, i: nat, t: Thread)
    requires Consistent(d) && Signalled(d, o) && o in d.queue && i < |d.queue[o]| && d.queue[o][i] == t
    requires t in d.waits && o in d.waits[t].objs && Test(d, d.waits[t], o) && |Satisfy(d, t, o).waits| < |d.waits|
    ensures Consistent(Sweep(d, o, i)) <==> AllTame(d, Sweep(d, o, i), o)
    decreases |d.waits|, 0, 0
  {
    SweepOn(d, o, i, t);
    if m :| m in d.waits[t].objs && m in d.objs && m != o && d.objs[m].kind.Mutant? && d.waits[t].any {
      WakeCrosses(d, t, o, m);
      SweepOnCrossed(d, o, i, t, m);
    } else {
      TameWake(d, t, o);
      SatisfyKinds(d, t, o);
      var d1 := Satisfy(d, t, o);
      if Goes(d, t, o) { PassAssignsAll(d1, o, i); }
      TameRest(d, d1, Sweep(d, o, i), t, o);
    }
  }

  /** The pass goes on behind the wake-up of t. */
  ghost predicate Goes(d: Disp, t: Thread, o: Id)
    requires t in d.waits && o in d.objs
  {
    IsNotification(d.objs[o].kind) || Satisfy(d, t, o).objs[o].signal > 0
  }

  lemma SweepOn(d: Disp, o: Id, i: nat, t: Thread)
    requires o in d.objs && o in d.queue && i < |d.queue[o]| && d.queue[o][i] == t && t in d.waits && Test(d, d.waits[t], o)
    ensures Sweep(d, o, i) == if Goes(d, t, o) then Sweep(Satisfy(d, t, o), o, i) else Satisfy(d, t, o)
    ensures Signalled(d, o) && Goes(d, t, o) ==> Signalled(Satisfy(d, t, o), o)
    ensures Follows(Satisfy(d, t, o), Sweep(d, o, i))
  {
    SweepFollows(Satisfy(d, t, o), o, i);
  }

  lemma SweepOnCrossed(d: Disp, o: Id, i: nat, t: Thread, m: Id)
    requires o in d.objs && o in d.queue && i < |d.queue[o]| && d.queue[o][i] == t && t in d.waits && Test(d, d.waits[t], o)
    requires m != o && Crossed(Satisfy(d, t, o), m)
    ensures !Consistent(Sweep(d, o, i))
  {
    SweepOn(d, o, i, t);
    if Goes(d, t, o) { SweepCrossed(Satisfy(d, t, o), o, i, m); }
    CrossedWrong(Sweep(d, o, i), m);
  }

  /** Whether all who were woken were tame, once the first was. */
  lemma TameRest(d: Disp, d1: Disp, d': Disp, t: Thread, o: Id)
    requires t in d.waits && d1 == Satisfy(d, t, o) && Follows(d, d1) && Follows(d1, d') && Tame(d, d.waits[t], o)
    ensures AllTame(d, d', o) <==> AllTame(d1, d', o)
  {
    assert forall u :: u in d1.waits <==> u in d.waits && u != t;
    forall u | u in d1.waits ensures Tame(d1, d1.waits[u], o) <==> Tame(d, d.waits[u], o) { }
  }

  /** Thread 5 waits for any of event 0, whose signal is e, and mutant 1, which thread 6 holds. */
  function MixedWait(e: int): Disp
  {
    Disp(map[0 := Object(SynchronizationEvent, e, 0, None), 1 := Object(Mutant, 0, 0, Some(6))],
         map[0 := [5], 1 := [5]], map[5 := Wait(true, [0, 1])], map[6 := [1]])
  }

  lemma MixedWaitQueues(e: int)
    ensures QueueOK(MixedWait(e), 0) && QueueOK(MixedWait(e), 1)
  {
    var d := MixedWait(e);
    assert d.waits[5].objs[0] == 0 && d.waits[5].objs[1] == 1;
    assert d.queue[0][0] == 5 && d.queue[1][0] == 5;
  }

  lemma MixedWaitConsistent(e: int)
    requires 0 <= e <= 1
    ensures Consistent(MixedWait(e))
  {
    var d := MixedWait(e);
    MixedWaitQueues(e);
    assert Named(d.objs, d.waits[5]);
    forall t ensures HeldOK(d, t) {
      assert t == 6 ==> Held(d, t)[0] == 1;
    }
  }

  lemma MixedWaitQuiet()
    ensures Quiet(MixedWait(0))
  {
  }

  lemma MixedWaitSwept()
    ensures 5 in MixedWait(1).waits && Sweep(MixedWait(1), 0, 0) == Satisfy(MixedWait(1), 5, 0)
  {
    var d := MixedWait(1);
    assert d.waits[5].objs[0] == 0 && d.queue[0][0] == 5;
    assert Test(d, d.waits[5], 0);
  }

  lemma MixedWaitTaken()
    ensures var d' := Satisfy(MixedWait(1), 5, 0); 1 in d'.objs && d'.objs[1].owner == Some(5) && 1 in Held(d', 5) && 1 in Held(d', 6)
  {
    var d := MixedWait(1);
    assert d.waits[5].objs[0] == 0 && d.waits[5].objs[1] == 1;
    MutantsMembers(d.objs, d.waits[5].objs);
  }

  /** When the event is set, the mutant is taken from thread 6 and ends up on both threads' lists. */
  lemma MutantTakenAway()
    ensures Consistent(MixedWait(0)) && Quiet(MixedWait(0))
    ensures var d' := Sweep(MixedWait(1), 0, 0);
      !Consistent(d') && 1 in d'.objs && d'.objs[1].owner == Some(5) && 1 in Held(d', 5) && 1 in Held(d', 6)
  {
    MixedWaitConsistent(0);
    MixedWaitConsistent(1);
    MixedWaitQuiet();
    MixedWaitSwept();
    MixedWaitTaken();
    assert MixedWait(1).waits[5].objs[0] == 0 && MixedWait(1).waits[5].objs[1] == 1;
    WakeAssignsAll(MixedWait(1), 5, 0);
  }
}
