/** What a pass over the waiters of an object leaves behind, said kind by kind: which signals stay, who is let go and in
    what order, and whose the mutants are (KsWaitTest in veakrnl/ks/wait.c). */
module DispatcherKinds {
  import opened DispatcherState
  import opened Wrappers

  /** The threads that have stopped waiting between two states. */
  ghost function Ended(before: map<Thread, Wait>, after: map<Thread, Wait>): set<Thread>
  {
    before.Keys - after.Keys
  }

  /** One step of a pass. */
  lemma PassStep(d: Disp, o: Id, i: nat)
    requires Inv(d) && Signalled(d, o)
    ensures o in d.queue && Distinct(d.queue[o])
    ensures i >= |d.queue[o]| ==> WaitTest(d, o, i) == d
    ensures i < |d.queue[o]| ==>
      var t := d.queue[o][i];
      && t in d.waits && o in d.waits[t].objs
      && if !Test(d, d.waits[t], o) then WaitTest(d, o, i) == WaitTest(d, o, i + 1) && !d.waits[t].any else
         var d1 := Satisfy(d, t, o);
         && Inv(d1) && o in d1.queue && d1.queue[o] == d.queue[o][..i] + d.queue[o][i + 1..]
         && WaitTest(d, o, i) == if Signalled(d1, o) then WaitTest(d1, o, i) else d1
  {
    assert QueueOK(d, o);
    if i < |d.queue[o]| {
      var t := d.queue[o][i];
      assert t in d.queue[o];
      if Test(d, d.waits[t], o) {
        SatisfyInv(d, t, o);
        WithoutAt(d.queue[o], i);
      }
    }
  }

  /** What a wake-up leaves of an object that keeps its signal. */
  lemma SatisfyKeeps(d: Disp, t: Thread, o: Id, s: Id)
    requires t in d.waits && s in d.objs
    requires d.objs[s].kind.NotificationEvent? || d.objs[s].kind.ThreadObject? || d.objs[s].kind.ProcessObject?
    ensures s in Satisfy(d, t, o).objs && Satisfy(d, t, o).objs[s] == d.objs[s]
  {
  }

  /** Waiting for a notification event, a thread or a process leaves its signal as it is. */
  lemma {:induction false} PassKeepsSignal(d: Disp, o: Id, i: nat, s: Id)
    requires Inv(d) && Signalled(d, o) && s in d.objs
    requires d.objs[s].kind.NotificationEvent? || d.objs[s].kind.ThreadObject? || d.objs[s].kind.ProcessObject?
    ensures s in WaitTest(d, o, i).objs && WaitTest(d, o, i).objs[s] == d.objs[s]
    decreases if o in d.queue && i <= |d.queue[o]| then |d.queue[o]| - i else 0
  {
    PassStep(d, o, i);
    if i < |d.queue[o]| {
      var t := d.queue[o][i];
      if !Test(d, d.waits[t], o) {
        PassKeepsSignal(d, o, i + 1, s);
      } else {
        SatisfyKeeps(d, t, o, s);
        var d1 := Satisfy(d, t, o);
        if Signalled(d1, o) { PassKeepsSignal(d1, o, i, s); }
      }
    }
  }

  /** Only waiters on the object are let go. */
  lemma {:induction false} EndedWaitedFor(d: Disp, o: Id, i: nat, t: Thread)
    requires Inv(d) && Signalled(d, o) && t in Ended(d.waits, WaitTest(d, o, i).waits)
    ensures o in d.waits[t].objs
    decreases if o in d.queue && i <= |d.queue[o]| then |d.queue[o]| - i else 0
  {
    assert QueueOK(d, o);
    if i < |d.queue[o]| {
      var u := d.queue[o][i];
      assert u in d.queue[o];
      if !Test(d, d.waits[u], o) {
        EndedWaitedFor(d, o, i + 1, t);
      } else {
        SatisfyInv(d, u, o);
        var d1 := Satisfy(d, u, o);
        if Signalled(d1, o) && t != u { EndedWaitedFor(d1, o, i, t); }
      }
    }
  }

  /** A synchronization event, a timer or a mutant that has been signalled lets at most one thread go, and is signalled
      afterwards exactly when it let none go. */
  lemma PassLetsOneGo(d: Disp, o: Id)
    requires Inv(d) && Signalled(d, o) && d.objs[o].signal == 1
    requires d.objs[o].kind.SynchronizationEvent? || d.objs[o].kind.Timer? || d.objs[o].kind.Mutant?
    ensures var d' := WaitTest(d, o, 0); var ended := Ended(d.waits, d'.waits);
      o in d'.objs && |ended| <= 1 && d'.objs[o].signal == 1 - |ended|
  {
    var d' := WaitTest(d, o, 0);
    WaitTestConserves(d, o, 0, o);
    WaitTestInv(d, o, 0);
    assert ObjectOK(d'.objs[o]);
    forall t | t in Ended(d.waits, d'.waits) ensures o in d.waits[t].objs { EndedWaitedFor(d, o, 0, t); }
    TookAll(d, d', o);
  }

  lemma {:induction false} WaitTestInv(d: Disp, o: Id, i: nat)
    requires Inv(d) && Signalled(d, o)
    ensures Inv(WaitTest(d, o, i))
    decreases if o in d.queue && i <= |d.queue[o]| then |d.queue[o]| - i else 0
  {
    assert QueueOK(d, o);
    if i < |d.queue[o]| {
      var t := d.queue[o][i];
      assert t in d.queue[o];
      if !Test(d, d.waits[t], o) {
        WaitTestInv(d, o, i + 1);
      } else {
        SatisfyInv(d, t, o);
        if Signalled(Satisfy(d, t, o), o) { WaitTestInv(Satisfy(d, t, o), o, i); }
      }
    }
  }

  lemma QueueMember(d: Disp, o: Id, k: nat)
    requires Inv(d) && o in d.objs && o in d.queue && k < |d.queue[o]|
    ensures d.queue[o][k] in d.waits && o in d.waits[d.queue[o][k]].objs
    ensures forall j :: 0 <= j < |d.queue[o]| && j != k ==> d.queue[o][j] != d.queue[o][k]
  {
    assert QueueOK(d, o) && d.queue[o][k] in d.queue[o];
  }

  /** First come, first served: of two waiters on the object, one that waits for any is never overtaken. */
  lemma {:induction false} NotOvertaken(d: Disp, o: Id, i: nat, a: nat, b: nat)
    requires Inv(d) && Signalled(d, o) && o in d.queue && i <= a < b < |d.queue[o]|
    requires d.queue[o][a] in d.waits && d.waits[d.queue[o][a]].any && d.queue[o][b] !in WaitTest(d, o, i).waits
    ensures d.queue[o][a] !in WaitTest(d, o, i).waits
    decreases |d.queue[o]| - i
  {
    var t := d.queue[o][i];
    if t in d.waits && Test(d, d.waits[t], o) {
      var d1 := LetGo(d, o, i, a, b);
      if i == a {
        if Signalled(d1, o) { StaysEnded(d1, o, i, t); }
      } else if Signalled(d1, o) {
        NotOvertaken(d1, o, i, a - 1, b - 1);
      }
    } else {
      PassedOver(d, o, i);
      NotOvertaken(d, o, i + 1, a, b);
    }
  }

  /** A thread whose wait is not satisfied is passed over; it waits for all. */
  lemma PassedOver(d: Disp, o: Id, i: nat)
    requires Inv(d) && Signalled(d, o) && o in d.queue && i < |d.queue[o]|
    requires d.queue[o][i] in d.waits ==> !Test(d, d.waits[d.queue[o][i]], o)
    ensures d.queue[o][i] in d.waits && !d.waits[d.queue[o][i]].any && WaitTest(d, o, i) == WaitTest(d, o, i + 1)
  {
    PassStep(d, o, i);
  }

  /** A thread is let go: the others move up, and wait as before. */
  lemma LetGo(d: Disp, o: Id, i: nat, a: nat, b: nat) returns (d1: Disp)
    requires Inv(d) && Signalled(d, o) && o in d.queue && i <= a < b < |d.queue[o]|
    requires d.queue[o][i] in d.waits && Test(d, d.waits[d.queue[o][i]], o)
    ensures Inv(d1) && d.queue[o][i] !in d1.waits && o in d1.queue && |d1.queue[o]| == |d.queue[o]| - 1
    ensures WaitTest(d, o, i) == if Signalled(d1, o) then WaitTest(d1, o, i) else d1
    ensures i < a ==> d1.queue[o][a - 1] == d.queue[o][a] && Waits(d, d1, d.queue[o][a])
    ensures d1.queue[o][b - 1] == d.queue[o][b] && Waits(d, d1, d.queue[o][b])
  {
    PassStep(d, o, i);
    d1 := Satisfy(d, d.queue[o][i], o);
    OneFewer(d.queue[o], i, b);
    LeftWaiting(d, o, i, b);
    if i < a {
      OneFewer(d.queue[o], i, a);
      LeftWaiting(d, o, i, a);
    }
  }

  ghost predicate Waits(d: Disp, d1: Disp, u: Thread) { u in d.waits && u in d1.waits && d1.waits[u] == d.waits[u] }

  lemma LeftWaiting(d: Disp, o: Id, i: nat, k: nat)
    requires Inv(d) && o in d.objs && o in d.queue && i < k < |d.queue[o]| && d.queue[o][i] in d.waits
    ensures Waits(d, Satisfy(d, d.queue[o][i], o), d.queue[o][k])
  {
    QueueMember(d, o, k);
    StillWaits(d, d.queue[o][i], o, d.queue[o][k]);
  }

  lemma OneFewer(q: seq<Thread>, i: nat, k: nat)
    requires i < k < |q|
    ensures |q[..i] + q[i + 1..]| == |q| - 1 && (q[..i] + q[i + 1..])[k - 1] == q[k]
  {
  }

  lemma StillWaits(d: Disp, t: Thread, o: Id, u: Thread)
    requires t in d.waits && u != t
    ensures u in d.waits ==> u in Satisfy(d, t, o).waits && Satisfy(d, t, o).waits[u] == d.waits[u]
  {
  }

  /** Nobody starts to wait in a pass. */
  lemma StaysEnded(d: Disp, o: Id, i: nat, t: Thread)
    requires Inv(d) && Signalled(d, o) && t !in d.waits
    ensures t !in WaitTest(d, o, i).waits
  {
    WaitTestFollows(d, o, i);
  }

  /** The first waiter whose wait can be satisfied is let go. */
  lemma {:induction false} FirstServed(d: Disp, o: Id, i: nat, a: nat)
    requires Inv(d) && Signalled(d, o) && o in d.queue && i <= a < |d.queue[o]|
    requires d.queue[o][a] in d.waits && Satisfiable(d, d.waits[d.queue[o][a]])
    requires forall c :: i <= c < a ==> d.queue[o][c] in WaitTest(d, o, i).waits
    ensures d.queue[o][a] !in WaitTest(d, o, i).waits
    decreases |d.queue[o]| - i
  {
    PassStep(d, o, i);
    var t := d.queue[o][i];
    if !Test(d, d.waits[t], o) {
      assert QueueOK(d, o) && d.queue[o][a] in d.queue[o];
      TestComplete(d, d.waits[t], o);
      FirstServed(d, o, i + 1, a);
    } else {
      var d1 := Satisfy(d, t, o);
      if Signalled(d1, o) { StaysEnded(d1, o, i, t); }
    }
  }

  /** A wake-up signals nothing. */
  lemma OnlyLowers(d: Disp, t: Thread, o: Id, x: Id)
    requires t in d.waits && x in Satisfy(d, t, o).objs
    ensures x in d.objs && Satisfy(d, t, o).objs[x].signal <= d.objs[x].signal
  {
  }

  /** A thread is let go only when its wait was satisfied: it waited for any, the signalled object among them, or for all,
      and all were signalled. */
  lemma {:induction false} OnlySatisfied(d: Disp, o: Id, i: nat, t: Thread)
    requires Inv(d) && Signalled(d, o) && t in Ended(d.waits, WaitTest(d, o, i).waits)
    ensures o in d.waits[t].objs
    ensures d.waits[t].any || forall x :: x in d.waits[t].objs ==> x in d.objs && d.objs[x].signal > 0
    decreases if o in d.queue && i <= |d.queue[o]| then |d.queue[o]| - i else 0
  {
    PassStep(d, o, i);
    if i < |d.queue[o]| {
      var u := d.queue[o][i];
      if !Test(d, d.waits[u], o) {
        OnlySatisfied(d, o, i + 1, t);
      } else if t != u {
        var d1 := Satisfy(d, u, o);
        StillWaits(d, u, o, t);
        if Signalled(d1, o) {
          OnlySatisfied(d1, o, i, t);
          forall x | x in d1.waits[t].objs && x in d1.objs ensures x in d.objs && d1.objs[x].signal <= d.objs[x].signal {
            OnlyLowers(d, u, o, x);
          }
        }
      }
    }
  }

  /** Where one thread at most is let go, it is the first on the list whose wait could be satisfied. */
  lemma InOrder(d: Disp, o: Id, c: nat, k: nat)
    requires Inv(d) && Signalled(d, o) && d.objs[o].signal == 1 && o in d.queue && c < k < |d.queue[o]|
    requires d.objs[o].kind.SynchronizationEvent? || d.objs[o].kind.Timer? || d.objs[o].kind.Mutant?
    requires d.queue[o][k] !in WaitTest(d, o, 0).waits
    ensures var u := d.queue[o][c];
      u in d.waits && !d.waits[u].any && exists x :: x in d.waits[u].objs && x in d.objs && x != o && d.objs[x].signal <= 0
  {
    PassLetsOneGo(d, o);
    var d', q := WaitTest(d, o, 0), d.queue[o];
    QueueMember(d, o, c);
    QueueMember(d, o, k);
    forall j | 0 <= j < k ensures q[j] in d'.waits {
      QueueMember(d, o, j);
      OneEndedAtMost(d.waits, d'.waits, q[j], q[k]);
    }
    var u := q[c];
    if Satisfiable(d, d.waits[u]) { FirstServed(d, o, 0, c); }
    assert WaitOK(d.objs, d.waits[u]);
  }

  lemma OneEndedAtMost(w: map<Thread, Wait>, w': map<Thread, Wait>, t: Thread, u: Thread)
    requires |Ended(w, w')| <= 1 && t in w && u in w && t != u && u !in w'
    ensures t in w'
  {
    if t !in w' {
      assert {t, u} <= Ended(w, w');
      Subset({t, u}, Ended(w, w'));
    }
  }

  lemma {:induction false} Subset(a: set<Thread>, b: set<Thread>)
    requires a <= b
    ensures |a| <= |b|
  {
    if x :| x in a { Subset(a - {x}, b - {x}); }
  }

  /** A semaphore loses one for each thread that is let go. */
  lemma PassTakesOneEach(d: Disp, s: Id)
    requires Inv(d) && Signalled(d, s) && d.objs[s].kind.Semaphore?
    ensures var d' := WaitTest(d, s, 0); s in d'.objs && d'.objs[s].signal == d.objs[s].signal - |Ended(d.waits, d'.waits)|
  {
    var d' := WaitTest(d, s, 0);
    WaitTestConserves(d, s, 0, s);
    forall t | t in Ended(d.waits, d'.waits) ensures s in d.waits[t].objs { EndedWaitedFor(d, s, 0, t); }
    TookAll(d, d', s);
  }

  /** Who waited for an object and is let go because of it takes from it. */
  lemma TookAll(d: Disp, d': Disp, o: Id)
    requires forall t :: t in Ended(d.waits, d'.waits) ==> o in d.waits[t].objs
    ensures Ended(d.waits, d'.waits) == Took(d, d', o, o)
  {
    forall t ensures t in Ended(d.waits, d'.waits) <==> t in Took(d, d', o, o) {}
  }

  // ---------------------------------------------------------------- mutants

  /** A mutant that is not signalled stays whose it is. */
  lemma {:induction false} HeldStays(d: Disp, o: Id, i: nat, m: Id)
    requires Inv(d) && Signalled(d, o) && m in d.objs && d.objs[m].kind.Mutant? && d.objs[m].signal == 0
    ensures m in WaitTest(d, o, i).objs && WaitTest(d, o, i).objs[m] == d.objs[m]
    decreases if o in d.queue && i <= |d.queue[o]| then |d.queue[o]| - i else 0
  {
    assert QueueOK(d, o);
    if i < |d.queue[o]| {
      var t := d.queue[o][i];
      assert t in d.queue[o];
      if !Test(d, d.waits[t], o) {
        HeldStays(d, o, i + 1, m);
      } else {
        SatisfyInv(d, t, o);
        var d1 := Satisfy(d, t, o);
        NotTaken(d, t, o, m);
        if Signalled(d1, o) { HeldStays(d1, o, i, m); }
      }
    }
  }

  lemma NotTaken(d: Disp, t: Thread, o: Id, m: Id)
    requires Inv(d) && Signalled(d, o) && t in d.waits && o in d.waits[t].objs && Test(d, d.waits[t], o)
    requires m in d.objs && d.objs[m].kind.Mutant? && d.objs[m].signal == 0
    ensures m !in d.waits[t].objs && Satisfy(d, t, o).objs[m] == d.objs[m]
  {
    var w := d.waits[t];
    assert WaitOK(d.objs, w);
    if w.any && |w.objs| == 1 { assert w.objs[0] == o; }
    forall i | 0 <= i < |w.objs| ensures w.objs[i] != m { assert w.objs[i] in w.objs; }
  }

  /** A thread that is let go owns the mutants it waited for; a mutant nobody took is as it was. */
  lemma {:induction false} TakenOwned(d: Disp, o: Id, i: nat, m: Id)
    requires Inv(d) && Signalled(d, o) && m in d.objs && d.objs[m].kind.Mutant?
    ensures var d' := WaitTest(d, o, i);
      && m in d'.objs
      && (forall t :: t in Ended(d.waits, d'.waits) && m in d.waits[t].objs ==> d'.objs[m].owner == Some(t) && d'.objs[m].signal == 0)
      && ((forall t :: t in Ended(d.waits, d'.waits) ==> m !in d.waits[t].objs) ==> d'.objs[m] == d.objs[m])
    decreases if o in d.queue && i <= |d.queue[o]| then |d.queue[o]| - i else 0
  {
    assert QueueOK(d, o);
    if i < |d.queue[o]| {
      var t := d.queue[o][i];
      assert t in d.queue[o];
      if !Test(d, d.waits[t], o) {
        TakenOwned(d, o, i + 1, m);
      } else {
        SatisfyInv(d, t, o);
        TakenFirst(d, o, i, t, m);
      }
    }
  }

  lemma {:induction false} TakenFirst(d: Disp, o: Id, i: nat, t: Thread, m: Id)
    requires Inv(d) && Signalled(d, o) && o in d.queue && i < |d.queue[o]| && d.queue[o][i] == t && t in d.waits
    requires o in d.waits[t].objs && Test(d, d.waits[t], o) && Inv(Satisfy(d, t, o))
    requires m in d.objs && d.objs[m].kind.Mutant?
    ensures var d' := WaitTest(d, o, i);
      && m in d'.objs
      && (forall u :: u in Ended(d.waits, d'.waits) && m in d.waits[u].objs ==> d'.objs[m].owner == Some(u) && d'.objs[m].signal == 0)
      && ((forall u :: u in Ended(d.waits, d'.waits) ==> m !in d.waits[u].objs) ==> d'.objs[m] == d.objs[m])
    decreases |d.queue[o]| - i, 0
  {
    PassStep(d, o, i);
    var d1, d' := Satisfy(d, t, o), WaitTest(d, o, i);
    OneEnded(d, t, o, d') by { if Signalled(d1, o) { WaitTestFollows(d1, o, i); } }
    if m in d.waits[t].objs {
      TakenNow(d, t, o, m);
      if Signalled(d1, o) { TakenLast(d1, o, i, m); }
      TakenByOne(d, d1, d', t, m);
    } else {
      SatisfyOthers(d, t, o, m);
      if Signalled(d1, o) { TakenOwned(d1, o, i, m); }
      TakenLater(d, d1, d', t, m);
    }
  }

  /** One thread more among those that are let go. */
  ghost predicate OneMore(d: Disp, d1: Disp, d': Disp, t: Thread) {
    && t in d.waits && (forall u :: u in Ended(d.waits, d'.waits) <==> u == t || u in Ended(d1.waits, d'.waits))
    && forall u :: u in d1.waits ==> u in d.waits && d1.waits[u] == d.waits[u]
  }

  lemma TakenByOne(d: Disp, d1: Disp, d': Disp, t: Thread, m: Id)
    requires OneMore(d, d1, d', t) && m in d.waits[t].objs && m in d1.objs && m in d'.objs && d'.objs[m] == d1.objs[m]
    requires d1.objs[m].owner == Some(t) && d1.objs[m].signal == 0
    requires forall u :: u in Ended(d1.waits, d'.waits) ==> m !in d1.waits[u].objs
    ensures forall u :: u in Ended(d.waits, d'.waits) && m in d.waits[u].objs ==> d'.objs[m].owner == Some(u) && d'.objs[m].signal == 0
    ensures !forall u :: u in Ended(d.waits, d'.waits) ==> m !in d.waits[u].objs
  {
    assert t in Ended(d.waits, d'.waits);
    forall u | u in Ended(d1.waits, d'.waits) ensures u in d.waits && m !in d.waits[u].objs {}
  }

  lemma TakenLater(d: Disp, d1: Disp, d': Disp, t: Thread, m: Id)
    requires OneMore(d, d1, d', t) && m !in d.waits[t].objs && m in d.objs && m in d1.objs && m in d'.objs && d1.objs[m] == d.objs[m]
    requires forall u :: u in Ended(d1.waits, d'.waits) && m in d1.waits[u].objs ==> d'.objs[m].owner == Some(u) && d'.objs[m].signal == 0
    requires (forall u :: u in Ended(d1.waits, d'.waits) ==> m !in d1.waits[u].objs) ==> d'.objs[m] == d1.objs[m]
    ensures forall u :: u in Ended(d.waits, d'.waits) && m in d.waits[u].objs ==> d'.objs[m].owner == Some(u) && d'.objs[m].signal == 0
    ensures (forall u :: u in Ended(d.waits, d'.waits) ==> m !in d.waits[u].objs) ==> d'.objs[m] == d.objs[m]
  {
    forall u | u in Ended(d1.waits, d'.waits) ensures u in Ended(d.waits, d'.waits) && d1.waits[u] == d.waits[u] {}
  }

  lemma SatisfyOthers(d: Disp, t: Thread, o: Id, m: Id)
    requires t in d.waits && o in d.waits[t].objs && m in d.objs && m !in d.waits[t].objs
    ensures m in Satisfy(d, t, o).objs && Satisfy(d, t, o).objs[m] == d.objs[m]
  {
  }

  /** Once a mutant is taken, the rest of the pass leaves it alone. */
  lemma TakenLast(d: Disp, o: Id, i: nat, m: Id)
    requires Inv(d) && Signalled(d, o) && m in d.objs && d.objs[m].kind.Mutant? && d.objs[m].signal == 0
    ensures m in WaitTest(d, o, i).objs && WaitTest(d, o, i).objs[m] == d.objs[m]
    ensures forall u :: u in Ended(d.waits, WaitTest(d, o, i).waits) ==> m !in d.waits[u].objs
  {
    HeldStays(d, o, i, m);
    forall u | u in Ended(d.waits, WaitTest(d, o, i).waits) ensures m !in d.waits[u].objs { HeldRefuses(d, o, i, m, u); }
  }

  lemma OneEnded(d: Disp, t: Thread, o: Id, d': Disp)
    requires t in d.waits && Follows(Satisfy(d, t, o), d')
    ensures OneMore(d, Satisfy(d, t, o), d', t)
  {
  }

  lemma TakenNow(d: Disp, t: Thread, o: Id, m: Id)
    requires Inv(d) && Signalled(d, o) && t in d.waits && o in d.waits[t].objs && Test(d, d.waits[t], o)
    requires m in d.waits[t].objs && m in d.objs && d.objs[m].kind.Mutant?
    ensures Satisfy(d, t, o).objs[m].owner == Some(t) && Satisfy(d, t, o).objs[m].signal == 0
  {
    var w := d.waits[t];
    assert WaitOK(d.objs, w);
    SatisfyInv(d, t, o);
    assert ObjectOK(Satisfy(d, t, o).objs[m]);
  }

  /** Nobody who waits for a held mutant is let go. */
  lemma {:induction false} HeldRefuses(d: Disp, o: Id, i: nat, m: Id, t: Thread)
    requires Inv(d) && Signalled(d, o) && m in d.objs && d.objs[m].kind.Mutant? && d.objs[m].signal == 0
    requires t in Ended(d.waits, WaitTest(d, o, i).waits)
    ensures m !in d.waits[t].objs
    decreases if o in d.queue && i <= |d.queue[o]| then |d.queue[o]| - i else 0
  {
    assert QueueOK(d, o);
    if i < |d.queue[o]| {
      var u := d.queue[o][i];
      assert u in d.queue[o];
      if !Test(d, d.waits[u], o) {
        HeldRefuses(d, o, i + 1, m, t);
      } else {
        SatisfyInv(d, u, o);
        NotTaken(d, u, o, m);
        var d1 := Satisfy(d, u, o);
        if Signalled(d1, o) && t != u { HeldRefuses(d1, o, i, m, t); }
      }
    }
  }

  // ---------------------------------------------------------------- quiet states

  /** Nobody who waits for a signalled object is left, but those who wait for all and lack another one. */
  lemma QuietMeans(d: Disp, e: Id)
    requires Inv(d) && Quiet(d) && e in d.objs && d.objs[e].signal > 0
    ensures forall t :: t in d.waits && e in d.waits[t].objs ==>
      !d.waits[t].any && exists x :: x in d.waits[t].objs && x in d.objs && x != e && d.objs[x].signal <= 0
  {
    forall t | t in d.waits && e in d.waits[t].objs
      ensures !d.waits[t].any && exists x :: x in d.waits[t].objs && x in d.objs && x != e && d.objs[x].signal <= 0
    {
      assert WaitOK(d.objs, d.waits[t]) && !Satisfiable(d, d.waits[t]) && Signalled(d, e);
    }
  }
}
