/** The queue of armed timers (veakrnl/ks/time.c). */
module Timers {
  import opened Wrappers

  /** Times count 100-nanosecond units; a period counts milliseconds, zero or less for a timer that fires once. */
  datatype Timer = Timer(active: bool, due: nat, period: int, dpc: Option<nat>, signal: nat)

  const UNITS_PER_MS := 10000

  function Due(m: map<nat, Timer>, x: nat): nat { if x in m then m[x].due else 0 }

  ghost predicate Sorted(m: map<nat, Timer>, q: seq<nat>) {
    forall i, j :: 0 <= i < j < |q| ==> Due(m, q[i]) <= Due(m, q[j])
  }

  ghost predicate Distinct(q: seq<nat>) { forall i, j :: 0 <= i < j < |q| ==> q[i] != q[j] }

  /** The queue holds exactly the armed timers, once each, by due time. */
  ghost predicate QueueOK(m: map<nat, Timer>, q: seq<nat>) {
    && Distinct(q) && Sorted(m, q) && forall x :: x in q <==> x in m && m[x].active
  }

  /** Where a timer due at `due` goes: behind every timer due no later. */
  function Place(m: map<nat, Timer>, q: seq<nat>, due: nat): (k: nat)
    ensures k <= |q|
  {
    if q == [] || Due(m, q[0]) > due then 0 else 1 + Place(m, q[1..], due)
  }

  /** One entry on in the walk to an entry that is to be removed. */
  lemma RemovedStep(q: seq<nat>, x: nat, k: nat)
    requires k < |q| && q[k] != x && x in q[k..]
    ensures x in q[k + 1..] && q[..k] + Removed(q[k..], x) == q[..k + 1] + Removed(q[k + 1..], x)
  {
    assert q[k..][0] == q[k] && q[k..][1..] == q[k + 1..] && q[k..] == [q[k]] + q[k + 1..];
    assert q[..k + 1] == q[..k] + [q[k]];
  }

  lemma {:induction false} PlaceIs(m: map<nat, Timer>, q: seq<nat>, due: nat)
    ensures var k := Place(m, q, due);
      (k < |q| ==> Due(m, q[k]) > due) && forall i :: 0 <= i < k ==> Due(m, q[i]) <= due
  {
    if q != [] && Due(m, q[0]) <= due {
      PlaceIs(m, q[1..], due);
      assert forall i :: 0 < i < |q| ==> q[i] == q[1..][i - 1];
    }
  }

  function Queued(m: map<nat, Timer>, q: seq<nat>, x: nat): seq<nat> {
    var k := Place(m, q, Due(m, x));
    q[..k] + [x] + q[k..]
  }

  /** Arming a timer keeps the order; among equals it comes last. */
  lemma QueuedSorted(m: map<nat, Timer>, q: seq<nat>, x: nat)
    requires Sorted(m, q)
    ensures Sorted(m, Queued(m, q, x))
  {
    var k, r := Place(m, q, Due(m, x)), Queued(m, q, x);
    PlaceIs(m, q, Due(m, x));
    forall i, j | 0 <= i < j < |r| ensures Due(m, r[i]) <= Due(m, r[j]) {
      QueuedAt(m, q, x, i);
      QueuedAt(m, q, x, j);
      if i == k && k < |q| { assert Due(m, q[k]) <= Due(m, q[j - 1]); }
    }
  }

  lemma QueuedAt(m: map<nat, Timer>, q: seq<nat>, x: nat, i: nat)
    requires i <= |q|
    ensures var k := Place(m, q, Due(m, x));
      |Queued(m, q, x)| == |q| + 1 && Queued(m, q, x)[i] == (if i < k then q[i] else if i == k then x else q[i - 1])
  {
  }

  lemma QueuedMembers(m: map<nat, Timer>, q: seq<nat>, x: nat)
    requires x !in q && Distinct(q)
    ensures Distinct(Queued(m, q, x)) && forall y :: y in Queued(m, q, x) <==> y in q || y == x
  {
    var k, r := Place(m, q, Due(m, x)), Queued(m, q, x);
    SplitIn(q, k);
    forall i, j | 0 <= i < j < |r| ensures r[i] != r[j] {
      QueuedAt(m, q, x, i);
      QueuedAt(m, q, x, j);
      assert i != k ==> r[i] in q;
    }
  }

  lemma SplitIn(q: seq<nat>, k: nat)
    requires k <= |q|
    ensures forall y :: y in q <==> y in q[..k] || y in q[k..]
  {
    assert q == q[..k] + q[k..];
  }

  /** An armed timer stands behind those due no later and in front of the others. */
  lemma QueuedBehind(m: map<nat, Timer>, m': map<nat, Timer>, q: seq<nat>, x: nat, r: seq<nat>) returns (k: nat)
    requires QueueOK(m, q) && x in m && x in m' && m' == m[x := m'[x]] && r == Queued(m', Removed(q, x), x)
    ensures k < |r| && r[k] == x && r[..k] + r[k + 1..] == Removed(q, x)
    ensures forall j :: 0 <= j < |r| && j != k ==> r[j] in m' && (m'[r[j]].due <= m'[x].due <==> j < k)
  {
    k := Place(m', Removed(q, x), m'[x].due);
    RemovedMembers(q, x);
    RemovedSorted(m, m', q, x);
    QueuedPlace(m', Removed(q, x), x);
  }

  lemma QueuedPlace(m: map<nat, Timer>, q: seq<nat>, x: nat)
    requires Sorted(m, q) && x in m && forall y :: y in q ==> y in m
    ensures var r, k := Queued(m, q, x), Place(m, q, m[x].due);
      && k < |r| && r[k] == x && r[..k] + r[k + 1..] == q
      && forall j :: 0 <= j < |r| && j != k ==> r[j] in m && (m[r[j]].due <= m[x].due <==> j < k)
  {
    var r, k := Queued(m, q, x), Place(m, q, m[x].due);
    assert r[..k] + r[k + 1..] == q;
    forall j | 0 <= j < |r| && j != k ensures r[j] in m && (m[r[j]].due <= m[x].due <==> j < k) {
      QueuedAt(m, q, x, j);
      PlaceTells(m, q, m[x].due, if j < k then j else j - 1);
    }
  }

  lemma PlaceTells(m: map<nat, Timer>, q: seq<nat>, due: nat, i: nat)
    requires Sorted(m, q) && i < |q|
    ensures Due(m, q[i]) <= due <==> i < Place(m, q, due)
    ensures q[i] in q
  {
    PlaceIs(m, q, due);
    if i >= Place(m, q, due) { Later(m, q, Place(m, q, due), i); }
  }

  /** A timer's place does not depend on timers that are not queued. */
  lemma {:induction false} PlaceFrame(m: map<nat, Timer>, m': map<nat, Timer>, q: seq<nat>, due: nat)
    requires forall x :: x in q ==> Due(m', x) == Due(m, x)
    ensures Place(m', q, due) == Place(m, q, due)
  {
    if q != [] { PlaceFrame(m, m', q[1..], due); }
  }

  /** How many timers at the front are due. */
  function DueCount(m: map<nat, Timer>, q: seq<nat>, now: nat): nat { Place(m, q, now) }

  /** A timer that has gone off at `now`. */
  function Fired(t: Timer, now: nat): Timer {
    if t.period > 0 then Timer(true, now + t.period * UNITS_PER_MS, t.period, t.dpc, 1)
    else t.(active := false, signal := 1)
  }

  /** The queue after the timers in `gone` went off one by one: the periodic ones are back, each behind its equals. */
  function Requeued(m: map<nat, Timer>, rest: seq<nat>, gone: seq<nat>): seq<nat> {
    if gone == [] then rest else
    var q := Requeued(m, rest, gone[..|gone| - 1]);
    var x := gone[|gone| - 1];
    if x in m && m[x].active then Queued(m, q, x) else q
  }

  /** The deferred calls of the timers in `gone`, in order. */
  function Calls(m: map<nat, Timer>, gone: seq<nat>): seq<nat> {
    if gone == [] then [] else
    var x := gone[|gone| - 1];
    Calls(m, gone[..|gone| - 1]) + (if x in m && m[x].dpc.Some? then [m[x].dpc.value] else [])
  }

  /** The timers that go off at `time`, in order. */
  function Gone(m: map<nat, Timer>, q: seq<nat>, time: nat): seq<nat> { q[..DueCount(m, q, time)] }

  /** The due timers have gone off and the periodic ones are queued again; nothing is armed for `time` or before. */
  ghost predicate Expired(m: map<nat, Timer>, q: seq<nat>, time: nat, m': map<nat, Timer>, q': seq<nat>) {
    && m'.Keys == m.Keys
    && (forall x :: x in m ==> m'[x] == (if x in Gone(m, q, time) then Fired(m[x], time) else m[x]))
    && q' == Requeued(m', q[DueCount(m, q, time)..], Gone(m, q, time))
    && forall x :: x in m' && m'[x].active ==> m'[x].due > time
  }

  /** Going off means being due: a timer fires exactly when it is armed for `time` or before. */
  lemma GoneIffDue(m: map<nat, Timer>, q: seq<nat>, time: nat, x: nat)
    requires QueueOK(m, q)
    ensures x in Gone(m, q, time) <==> x in m && m[x].active && m[x].due <= time
    ensures Distinct(Gone(m, q, time))
  {
    var n := DueCount(m, q, time);
    DueSplit(m, q, time);
    if x in m && m[x].active {
      var j :| 0 <= j < |q| && q[j] == x;
      if j >= n { assert q[n..][j - n] == x; } else { assert q[..n][j] == x; }
    }
    if x in Gone(m, q, time) {
      var j :| 0 <= j < n && q[j] == x;
      assert Due(m, q[j]) <= time && x in q;
    }
  }

  lemma WhoFired(m: map<nat, Timer>, q: seq<nat>, time: nat, m': map<nat, Timer>)
    requires QueueOK(m, q) && m'.Keys == m.Keys
    requires forall x :: x in m ==> m'[x] == (if x in Gone(m, q, time) then Fired(m[x], time) else m[x])
    ensures forall i :: 0 <= i < |q| ==> q[i] in m && (i < DueCount(m, q, time) <==> m[q[i]].due <= time)
    ensures forall x :: x in m' ==>
      var t := m[x];
      m'[x] == if !t.active || t.due > time then t
               else if t.period > 0 then Timer(true, time + t.period * 10000, t.period, t.dpc, 1)
               else Timer(false, t.due, t.period, t.dpc, 1)
  {
    DueSplit(m, q, time);
    forall i | 0 <= i < |q| ensures q[i] in m && (i < DueCount(m, q, time) <==> m[q[i]].due <= time) {
      assert q[i] in q;
      if i >= DueCount(m, q, time) { assert q[DueCount(m, q, time)..][i - DueCount(m, q, time)] == q[i]; }
    }
    forall x | x in m' ensures x in Gone(m, q, time) <==> m[x].active && m[x].due <= time { GoneIffDue(m, q, time, x); }
  }

  lemma QueueParts(m: map<nat, Timer>, q: seq<nat>, time: nat)
    requires QueueOK(m, q)
    ensures var k := DueCount(m, q, time); k <= |q| && Distinct(q[k..] + q[..k])
  {
    var k := DueCount(m, q, time);
    var r := q[k..] + q[..k];
    forall i, j | 0 <= i < j < |r| ensures r[i] != r[j] {
      assert r[i] == q[if i < |q| - k then i + k else i - (|q| - k)] && r[j] == q[if j < |q| - k then j + k else j - (|q| - k)];
    }
  }

  lemma RestSorted(m: map<nat, Timer>, q: seq<nat>, time: nat, m': map<nat, Timer>)
    requires QueueOK(m, q) && m'.Keys == m.Keys
    requires forall x :: x in m ==> m'[x] == (if x in Gone(m, q, time) then Fired(m[x], time) else m[x])
    ensures Sorted(m', q[DueCount(m, q, time)..])
  {
    var k := DueCount(m, q, time);
    var r := q[k..];
    forall i | 0 <= i < |r| ensures Due(m', r[i]) == Due(m, q[k + i]) {
      forall j | 0 <= j < k ensures q[j] != q[k + i] {}
      assert r[i] == q[k + i] && q[k + i] in q;
    }
  }

  /** The first timers of a list stand in front of the later ones that are due at the same time. */
  ghost predicate Stable(m: map<nat, Timer>, order: seq<nat>, q: seq<nat>) {
    forall a, b, i, j :: 0 <= a < b < |order| && 0 <= i < |q| && 0 <= j < |q|
      && q[i] == order[a] && q[j] == order[b] && Due(m, q[i]) == Due(m, q[j])
      ==> i < j
  }

  /** Timers queued again one by one go behind their equals. */
  lemma {:induction false} StableOrder(m: map<nat, Timer>, rest: seq<nat>, gone: seq<nat>)
    requires Distinct(rest + gone) && Sorted(m, rest)
    ensures Stable(m, rest + gone, Requeued(m, rest, gone)) && Sorted(m, Requeued(m, rest, gone))
  {
    if gone == [] {
      assert rest + gone == rest;
      StableSelf(m, rest);
    } else {
      assert rest + gone == (rest + gone[..|gone| - 1]) + [gone[|gone| - 1]];
      LastNew(rest + gone[..|gone| - 1], gone[|gone| - 1]);
      StableOrder(m, rest, gone[..|gone| - 1]);
      StableLast(m, rest, gone);
    }
  }

  lemma StableSelf(m: map<nat, Timer>, q: seq<nat>)
    requires Distinct(q)
    ensures Stable(m, q, q)
  {
    forall a, b, i, j | 0 <= a < b < |q| && 0 <= i < |q| && 0 <= j < |q| && q[i] == q[a] && q[j] == q[b] ensures i < j {
      assert i == a && j == b;
    }
  }

  lemma StableLast(m: map<nat, Timer>, rest: seq<nat>, gone: seq<nat>)
    requires gone != [] && Distinct(rest + gone)
    requires var front := gone[..|gone| - 1];
      Stable(m, rest + front, Requeued(m, rest, front)) && Sorted(m, Requeued(m, rest, front))
    ensures Stable(m, rest + gone, Requeued(m, rest, gone)) && Sorted(m, Requeued(m, rest, gone))
  {
    var front, x := gone[..|gone| - 1], gone[|gone| - 1];
    assert rest + gone == (rest + front) + [x];
    LastNew(rest + front, x);
    RequeuedMembers(m, rest, front);
    StableNext(m, rest + front, Requeued(m, rest, front), x);
    RequeuedLast(m, rest, gone);
  }

  lemma StableNext(m: map<nat, Timer>, order: seq<nat>, q: seq<nat>, x: nat)
    requires Stable(m, order, q) && Sorted(m, q) && x !in order && forall y :: y in q ==> y in order
    ensures Stable(m, order + [x], q) && Stable(m, order + [x], Queued(m, q, x)) && Sorted(m, Queued(m, q, x))
  {
    QueuedSorted(m, q, x);
    StableSame(m, order, q, x);
    StableMore(m, order, q, x);
  }

  lemma RequeuedLast(m: map<nat, Timer>, rest: seq<nat>, gone: seq<nat>)
    requires gone != []
    ensures var q, x := Requeued(m, rest, gone[..|gone| - 1]), gone[|gone| - 1];
      Requeued(m, rest, gone) == q || Requeued(m, rest, gone) == Queued(m, q, x)
  {
  }

  lemma LastNew(s: seq<nat>, x: nat)
    requires Distinct(s + [x])
    ensures Distinct(s) && x !in s
  {
    var t := s + [x];
    forall i | 0 <= i < |s| ensures s[i] != x { assert t[i] != t[|s|]; }
    forall i, j | 0 <= i < j < |s| ensures s[i] != s[j] { assert t[i] != t[j]; }
  }

  /** A timer that is not queued changes nothing. */
  lemma StableSame(m: map<nat, Timer>, order: seq<nat>, q: seq<nat>, x: nat)
    requires Stable(m, order, q) && x !in order && forall y :: y in q ==> y in order
    ensures Stable(m, order + [x], q)
  {
    var more := order + [x];
    forall a, b, i, j | 0 <= a < b < |more| && 0 <= i < |q| && 0 <= j < |q|
      && q[i] == more[a] && q[j] == more[b] && Due(m, q[i]) == Due(m, q[j]) ensures i < j
    {
      assert q[j] in q && more[b] == order[b];
      StableHere(m, order, q, a, b, i, j);
    }
  }

  lemma StableMore(m: map<nat, Timer>, order: seq<nat>, q: seq<nat>, x: nat)
    requires Stable(m, order, q) && Sorted(m, q) && x !in order && forall y :: y in q ==> y in order
    ensures Stable(m, order + [x], Queued(m, q, x))
  {
    var r, more := Queued(m, q, x), order + [x];
    forall a, b, i, j | 0 <= a < b < |more| && 0 <= i < |r| && 0 <= j < |r|
      && r[i] == more[a] && r[j] == more[b] && Due(m, r[i]) == Due(m, r[j]) ensures i < j
    {
      StablePair(m, order, q, x, a, b, i, j);
    }
  }

  lemma StablePair(m: map<nat, Timer>, order: seq<nat>, q: seq<nat>, x: nat, a: nat, b: nat, i: nat, j: nat)
    requires Stable(m, order, q) && Sorted(m, q) && x !in order && forall y :: y in q ==> y in order
    requires a < b <= |order| && i <= |q| && j <= |q| && Queued(m, q, x)[i] == order[a]
    requires Queued(m, q, x)[j] == (order + [x])[b] && Due(m, order[a]) == Due(m, (order + [x])[b])
    ensures i < j
  {
    var k := Place(m, q, Due(m, x));
    QueuedTells(m, q, x, i);
    QueuedTells(m, q, x, j);
    assert order[a] in order && i != k;
    if j != k {
      var v := if j < k then j else j - 1;
      assert q[v] in q && b < |order|;
      StableHere(m, order, q, a, b, if i < k then i else i - 1, v);
    }
  }

  lemma QueuedTells(m: map<nat, Timer>, q: seq<nat>, x: nat, i: nat)
    requires Sorted(m, q) && i <= |q|
    ensures var r, k := Queued(m, q, x), Place(m, q, Due(m, x));
      && r[i] == (if i < k then q[i] else if i == k then x else q[i - 1])
      && (i != k ==> (Due(m, r[i]) <= Due(m, x) <==> i < k))
  {
    var k := Place(m, q, Due(m, x));
    QueuedAt(m, q, x, i);
    if i != k { PlaceTells(m, q, Due(m, x), if i < k then i else i - 1); }
  }

  lemma Later(m: map<nat, Timer>, q: seq<nat>, i: nat, j: nat)
    requires Sorted(m, q) && i <= j < |q|
    ensures Due(m, q[i]) <= Due(m, q[j])
  {
  }

  lemma StableHere(m: map<nat, Timer>, order: seq<nat>, q: seq<nat>, a: nat, b: nat, i: nat, j: nat)
    requires Stable(m, order, q) && a < b < |order| && i < |q| && j < |q|
    requires q[i] == order[a] && q[j] == order[b] && Due(m, q[i]) == Due(m, q[j])
    ensures i < j
  {
  }

  /** The queue without one timer. */
  function Removed(q: seq<nat>, x: nat): seq<nat> {
    if q == [] then [] else if q[0] == x then q[1..] else [q[0]] + Removed(q[1..], x)
  }

  lemma ArmOK(m: map<nat, Timer>, q: seq<nat>, x: nat, t: Timer)
    requires QueueOK(m, q) && t.active
    ensures QueueOK(m[x := t], Queued(m[x := t], Removed(q, x), x))
  {
    var m', rest := m[x := t], Removed(q, x);
    RemovedMembers(q, x);
    RemovedSorted(m, m', q, x);
    QueuedSorted(m', rest, x);
    QueuedMembers(m', rest, x);
  }

  /** One timer armed for a due time; its signal stays. */
  function Armed(m: map<nat, Timer>, x: nat, due: nat, period: int, dpc: Option<nat>): map<nat, Timer>
    requires x in m
  {
    m[x := Timer(true, due, period, dpc, m[x].signal)]
  }

  class TimerList {
    var timers: map<nat, Timer>
    var queue: seq<nat>
    var now: nat                     // KsSystemTime
    var calls: seq<nat>              // deferred procedure calls queued so far
    ghost var signals: seq<nat>      // the timers signalled so far, in order

    ghost predicate Valid()
      reads this
    {
      QueueOK(timers, queue)
    }

    constructor ()
      ensures Valid() && queue == [] && signals == [] && calls == []
    {
      timers, queue, now, calls, signals := map[], [], 0, [], [];
    }

    /** KsInitializeTimer, for a timer that is not armed. */
    method Initialize(x: nat)
      requires Valid() && (x in timers ==> !timers[x].active)
      modifies this`timers
      ensures Valid() && timers == old(timers)[x := Timer(false, 0, 0, None, 0)]
    {
      timers := timers[x := Timer(false, 0, 0, None, 0)];
    }

    /** KsiInsertTimerSorted: the loop stops at the first timer that is due strictly later. */
    method InsertSorted(x: nat)
      requires x in timers
      modifies this`queue
      ensures queue == Queued(timers, old(queue), x)
    {
      var i := 0;
      ghost var q := queue;
      assert q[0..] == q;
      while i < |queue| && Due(timers, queue[i]) <= timers[x].due
        invariant 0 <= i <= |queue| && queue == q
        invariant i + Place(timers, q[i..], timers[x].due) == Place(timers, q, timers[x].due)
      {
        assert q[i..][0] == q[i] && q[i..][1..] == q[i + 1..];
        i := i + 1;
      }
      assert i < |q| ==> q[i..][0] == q[i];
      queue := queue[..i] + [x] + queue[i..];
    }

    /** RemoveEntryList. */
    method Unlink(x: nat)
      requires x in queue
      modifies this`queue
      ensures queue == Removed(old(queue), x)
    {
      var k := 0;
      ghost var q := queue;
      assert q[0..] == q && q[..0] == [];
      while queue[k] != x
        invariant 0 <= k < |queue| && queue == q && x in queue[k..] && Removed(q, x) == q[..k] + Removed(q[k..], x)
        decreases |queue| - k
      {
        RemovedStep(q, x, k);
        k := k + 1;
      }
      assert q[k..][0] == q[k] && q[k..][1..] == q[k + 1..];
      queue := queue[..k] + queue[k + 1..];
    }

    /** KsSetTimer: a negative time counts from now. The timer goes to position k, behind every timer due no later; the
        others keep their order. */
    method Set(x: nat, time: int, period: int, dpc: Option<nat>) returns (wasActive: bool, ghost k: nat)
      requires Valid() && x in timers
      modifies this`timers, this`queue
      ensures Valid() && (wasActive <==> old(timers)[x].active)
      ensures timers == old(timers)[x := Timer(true, if time < 0 then now - time else time, period, dpc, old(timers)[x].signal)]
      ensures k < |queue| && queue[k] == x && queue[..k] + queue[k + 1..] == Removed(old(queue), x)
      ensures forall j :: 0 <= j < |queue| && j != k ==>
        queue[j] in timers && (timers[queue[j]].due <= timers[x].due <==> j < k)
    {
      ghost var m, q := timers, queue;
      wasActive := Rearm(x, if time < 0 then now - time else time, period, dpc);
      ghost var m', r := timers, queue;
      k := QueuedBehind(m, m', q, x, r);
    }

    method Rearm(x: nat, due: nat, period: int, dpc: Option<nat>) returns (wasActive: bool)
      requires Valid() && x in timers
      modifies this`timers, this`queue
      ensures Valid() && (wasActive <==> old(timers)[x].active)
      ensures timers == Armed(old(timers), x, due, period, dpc) && queue == Queued(timers, Removed(old(queue), x), x)
    {
      wasActive := timers[x].active;
      ghost var m, q := timers, queue;
      RemovedAbsent(q, x);
      ArmOK(m, q, x, Armed(m, x, due, period, dpc)[x]);
      if wasActive { Unlink(x); }
      Arm(x, due, period, dpc);
      InsertSorted(x);
    }

    method Arm(x: nat, due: nat, period: int, dpc: Option<nat>)
      requires x in timers
      modifies this`timers
      ensures timers == Armed(old(timers), x, due, period, dpc)
    {
      timers := timers[x := timers[x].(due := due, period := period, dpc := dpc, active := true)];
    }

    /** KsCancelTimer. */
    method Cancel(x: nat) returns (wasActive: bool)
      requires Valid() && x in timers
      modifies this`timers, this`queue
      ensures Valid() && (wasActive <==> old(timers)[x].active)
      ensures timers == old(timers)[x := old(timers)[x].(active := false)] && queue == Removed(old(queue), x) && x !in queue
    {
      wasActive := timers[x].active;
      ghost var m, q := timers, queue;
      RemovedAbsent(q, x);
      if wasActive {
        Unlink(x);
        timers := timers[x := timers[x].(active := false)];
      }
      RemovedMembers(q, x);
      RemovedSorted(m, timers, q, x);
    }

    /** The first timer goes off. */
    method Fire(x: nat, time: nat)
      requires queue != [] && x == queue[0] && x in timers
      modifies this`timers, this`queue, this`calls, this`signals
      ensures timers == old(timers)[x := Fired(old(timers)[x], time)]
      ensures queue == if timers[x].active then Queued(timers, old(queue)[1..], x) else old(queue)[1..]
      ensures signals == old(signals) + [x]
      ensures calls == old(calls) + (if old(timers)[x].dpc.Some? then [old(timers)[x].dpc.value] else [])
    {
      queue := queue[1..];
      var t := timers[x].(active := false, signal := 1);
      timers := timers[x := t];
      signals := signals + [x];
      if t.dpc.Some? { calls := calls + [t.dpc.value]; }
      if t.period > 0 {
        timers := timers[x := t.(due := time + t.period * UNITS_PER_MS, active := true)];
        InsertSorted(x);
      }
    }

    method Turn(x: nat, time: nat, ghost m: map<nat, Timer>, ghost gone: seq<nat>, ghost todo: seq<nat>, ghost rest: seq<nat>,
                ghost s0: seq<nat>, ghost c0: seq<nat>)
      requires Going(m, gone, todo, rest, time, timers, queue) && Logged(s0, c0, m, gone, signals, calls)
      requires queue != [] && x == queue[0] && Due(timers, x) <= time
      modifies this`timers, this`queue, this`calls, this`signals
      ensures todo != [] && x == todo[0] && x in m
      ensures Going(m, gone + [x], todo[1..], rest, time, timers, queue)
      ensures Logged(s0, c0, m, gone + [x], signals, calls)
      ensures gone + [x] + todo[1..] == gone + todo
    {
      ghost var m1, q1 := timers, queue;
      ProgressHead(m, gone, todo, rest, time, m1, q1);
      CallsSnoc(c0, m, gone, x);
      assert s0 + gone + [x] == s0 + (gone + [x]);
      Fire(x, time);
      HeadFired(m1, q1, timers, timers[x]);
      Step(m, gone, todo, rest, time, m1, q1, timers, queue);
      Shift(gone, todo);
    }

    /** KsiCheckTimerExpiration: each timer due at `time` goes off exactly once, in order, and none is left due. A timer with
        a period of p milliseconds is armed again for 10000 p units of 100 nanoseconds later; one without is off the queue.
        The ghost `k` counts the timers that went off: they were the first k of the queue. */
    method CheckExpiration(time: nat) returns (ghost k: nat)
      requires Valid()
      modifies this`timers, this`queue, this`calls, this`signals
      ensures Valid()
      // who: exactly the armed timers due by then, in the order of the queue
      ensures k <= |old(queue)| && signals == old(signals) + old(queue)[..k]
      ensures forall i :: 0 <= i < |old(queue)| ==> old(queue)[i] in old(timers) && (i < k <==> old(timers)[old(queue)[i]].due <= time)
      ensures calls == old(calls) + Calls(old(timers), old(queue)[..k])
      // what becomes of each timer
      ensures timers.Keys == old(timers).Keys
      ensures forall x :: x in timers ==>
        var t := old(timers)[x];
        timers[x] == if !t.active || t.due > time then t
                     else if t.period > 0 then Timer(true, time + t.period * 10000, t.period, t.dpc, 1)
                     else Timer(false, t.due, t.period, t.dpc, 1)
      ensures forall x :: x in queue <==> x in timers && timers[x].active
      // of those now due at the same time, the ones that did not go off stand first, each group in its old order
      ensures var order := old(queue)[k..] + old(queue)[..k];
        forall a, b, i, j :: 0 <= a < b < |order| && 0 <= i < |queue| && 0 <= j < |queue|
          && queue[i] == order[a] && queue[j] == order[b] && Due(timers, queue[i]) == Due(timers, queue[j])
          ==> i < j
    {
      ghost var m, q := timers, queue;
      k := Expire(time);
      WhoFired(m, q, time, timers);
      QueueParts(m, q, time);
      StableOrder(timers, q[k..], q[..k]) by { RestSorted(m, q, time, timers); }
    }

    method Expire(time: nat) returns (ghost k: nat)
      requires Valid()
      modifies this`timers, this`queue, this`calls, this`signals
      ensures Valid() && k == DueCount(old(timers), old(queue), time) && Expired(old(timers), old(queue), time, timers, queue)
      ensures signals == old(signals) + Gone(old(timers), old(queue), time)
      ensures calls == old(calls) + Calls(old(timers), Gone(old(timers), old(queue), time))
    {
      ghost var m, q := timers, queue;
      k := DueCount(m, q, time);
      Begin(m, q, time);
      LogBegin(m, signals, calls);
      ghost var gone, todo := FireDue(time, m, Gone(m, q, time), q[DueCount(m, q, time)..], signals, calls);
      End(m, q, gone, todo, time, timers, queue);
    }

    /** The loop of KsiCheckTimerExpiration. */
    method FireDue(time: nat, ghost m: map<nat, Timer>, ghost due: seq<nat>, ghost rest: seq<nat>,
                   ghost s0: seq<nat>, ghost c0: seq<nat>)
      returns (ghost gone: seq<nat>, ghost todo: seq<nat>)
      requires Going(m, [], due, rest, time, timers, queue) && Logged(s0, c0, m, [], signals, calls)
      modifies this`timers, this`queue, this`calls, this`signals
      ensures Going(m, gone, todo, rest, time, timers, queue) && gone + todo == due
      ensures Logged(s0, c0, m, gone, signals, calls)
      ensures queue == [] || Due(timers, queue[0]) > time
    {
      gone, todo := [], due;
      while queue != []
        invariant Going(m, gone, todo, rest, time, timers, queue) && gone + todo == due
        invariant Logged(s0, c0, m, gone, signals, calls)
        decreases |todo|
      {
        var x := queue[0];
        if Due(timers, x) > time { break; }
        Turn(x, time, m, gone, todo, rest, s0, c0);
        gone, todo := gone + [x], todo[1..];
      }
    }
  }

  /** Two checks: a timer with a period of p milliseconds that went off at the first one does not go off at the second as
      long as less than 10000 p units have passed. */
  method TwoChecks(list: TimerList, x: nat, time: nat, later: nat) returns (ghost first: nat, ghost second: nat)
    requires list.Valid() && x in list.timers && list.timers[x].active && list.timers[x].due <= time
    requires list.timers[x].period > 0 && later < time + 10000 * list.timers[x].period
    modifies list
    ensures list.Valid() && first <= second <= |list.signals| && |old(list.signals)| <= first
    ensures list.signals[..|old(list.signals)|] == old(list.signals)
    ensures x in list.signals[|old(list.signals)|..first] && x !in list.signals[first..second] && second == |list.signals|
    ensures x in list.timers && list.timers[x].active && list.timers[x].signal == 1
    ensures list.timers[x].period == old(list.timers)[x].period && list.timers[x].due == time + 10000 * list.timers[x].period
  {
    first := GoesOff(list, x, time);
    ghost var s1 := list.signals;
    second := GoesNot(list, x, later);
    assert list.signals[..first] == s1 && list.signals[first..second] == list.signals[first..];
    assert list.signals[..|old(list.signals)|] == s1[..|old(list.signals)|];
    assert list.signals[|old(list.signals)|..first] == s1[|old(list.signals)|..];
  }

  method GoesOff(list: TimerList, x: nat, time: nat) returns (ghost n: nat)
    requires list.Valid() && x in list.timers && list.timers[x].active && list.timers[x].due <= time && list.timers[x].period > 0
    modifies list
    ensures list.Valid() && |old(list.signals)| <= n == |list.signals|
    ensures list.signals[..|old(list.signals)|] == old(list.signals) && x in list.signals[|old(list.signals)|..]
    ensures x in list.timers
    ensures list.timers[x] == old(list.timers)[x].(due := time + 10000 * old(list.timers)[x].period, active := true, signal := 1)
  {
    ghost var q := list.queue;
    ghost var i :| 0 <= i < |q| && q[i] == x;
    ghost var k := list.CheckExpiration(time);
    n := |list.signals|;
    assert list.signals[|old(list.signals)|..] == q[..k] && q[..k][i] == x;
  }

  method GoesNot(list: TimerList, x: nat, time: nat) returns (ghost n: nat)
    requires list.Valid() && x in list.timers && list.timers[x].due > time
    modifies list
    ensures list.Valid() && |old(list.signals)| <= n == |list.signals|
    ensures list.signals[..|old(list.signals)|] == old(list.signals) && x !in list.signals[|old(list.signals)|..]
    ensures x in list.timers && list.timers[x] == old(list.timers)[x]
  {
    ghost var q := list.queue;
    ghost var k := list.CheckExpiration(time);
    n := |list.signals|;
    assert list.signals[|old(list.signals)|..] == q[..k];
    forall j | 0 <= j < k ensures q[..k][j] != x {}
  }

  /** Taking a timer off the queue leaves the others in their order. */
  lemma RemovedIs(a: seq<nat>, x: nat, b: seq<nat>)
    requires x !in a
    ensures Removed(a + [x] + b, x) == a + b && Removed(a, x) == a
  {
    RemovedAbsent(a, x);
    RemovedBehind(a, [x] + b, x);
    assert a + [x] + b == a + ([x] + b) && ([x] + b)[1..] == b;
  }

  lemma {:induction false} RemovedBehind(a: seq<nat>, q: seq<nat>, x: nat)
    requires x !in a
    ensures Removed(a + q, x) == a + Removed(q, x)
  {
    if a == [] {
      assert a + q == q;
    } else {
      assert (a + q)[1..] == a[1..] + q;
      RemovedBehind(a[1..], q, x);
    }
  }

  /** The deferred calls come one after the other, in the order in which the timers went off. */
  lemma {:induction false} CallsInOrder(m: map<nat, Timer>, a: seq<nat>, b: seq<nat>, x: nat)
    requires x in m
    ensures Calls(m, a + b) == Calls(m, a) + Calls(m, b)
    ensures Calls(m, [x]) == match m[x].dpc case Some(c) => [c] case None => []
    decreases |b|
  {
    assert [x][..0] == [] && Calls(m, [x]) == Calls(m, [x][..0]) + (if m[x].dpc.Some? then [m[x].dpc.value] else []);
    if b == [] {
      assert a + b == a;
    } else {
      var n := |b| - 1;
      assert (a + b)[..|a + b| - 1] == a + b[..n] && (a + b)[|a + b| - 1] == b[n];
      CallsInOrder(m, a, b[..n], x);
    }
  }

  lemma LogBegin(m: map<nat, Timer>, s: seq<nat>, c: seq<nat>)
    ensures Logged(s, c, m, [], s, c)
  {
  }

  ghost predicate Logged(s0: seq<nat>, c0: seq<nat>, m: map<nat, Timer>, gone: seq<nat>, s: seq<nat>, c: seq<nat>) {
    s == s0 + gone && c == c0 + Calls(m, gone)
  }

  lemma Shift(a: seq<nat>, b: seq<nat>)
    requires b != []
    ensures a + [b[0]] + b[1..] == a + b
  {
  }

  lemma CallsSnoc(c: seq<nat>, m: map<nat, Timer>, gone: seq<nat>, x: nat)
    requires x in m
    ensures c + Calls(m, gone + [x]) == c + Calls(m, gone) + (if m[x].dpc.Some? then [m[x].dpc.value] else [])
  {
    assert (gone + [x])[..|gone|] == gone;
  }

  lemma End(m: map<nat, Timer>, q: seq<nat>, gone: seq<nat>, todo: seq<nat>, time: nat, m': map<nat, Timer>, q': seq<nat>)
    requires gone + todo == Gone(m, q, time) && Going(m, gone, todo, q[DueCount(m, q, time)..], time, m', q')
    requires q' == [] || Due(m', q'[0]) > time
    ensures gone == Gone(m, q, time) && Expired(m, q, time, m', q') && QueueOK(m', q')
  {
    var rest := q[DueCount(m, q, time)..];
    if q' != [] { ProgressHead(m, gone, todo, rest, time, m', q'); }
    assert todo == [] && gone + todo == gone;
    assert q' == Requeued(m', rest, gone);
    forall x | x in m' && m'[x].active ensures m'[x].due > time {
      assert x in q' && Due(m', x) == m'[x].due;
    }
  }

  lemma {:induction false} RemovedAbsent(q: seq<nat>, x: nat)
    ensures x !in q ==> Removed(q, x) == q
  {
    if q != [] && q[0] != x { RemovedAbsent(q[1..], x); }
  }

  lemma {:induction false} RemovedMembers(q: seq<nat>, x: nat)
    requires Distinct(q)
    ensures Distinct(Removed(q, x)) && forall y :: y in Removed(q, x) <==> y in q && y != x
  {
    if q != [] {
      assert forall i :: 0 < i < |q| ==> q[i] == q[1..][i - 1];
      assert Distinct(q[1..]);
      RemovedMembers(q[1..], x);
      assert forall y :: y in q <==> y == q[0] || y in q[1..];
      var r, t := Removed(q, x), Removed(q[1..], x);
      if q[0] != x {
        forall i, j | 0 <= i < j < |r| ensures r[i] != r[j] {
          assert r[j] == t[j - 1] && t[j - 1] in t;
          assert i > 0 ==> r[i] == t[i - 1];
        }
      }
    }
  }

  lemma {:induction false} RemovedAt(q: seq<nat>, x: nat, i: nat) returns (j: nat)
    requires i < |Removed(q, x)|
    ensures i <= j < |q| && j <= i + 1 && Removed(q, x)[i] == q[j]
    ensures j == i + 1 <==> x in q[..i + 1]
  {
    if q[0] == x {
      j := i + 1;
    } else if i == 0 {
      j := 0;
    } else {
      var k := RemovedAt(q[1..], x, i - 1);
      j := k + 1;
      assert q[..i + 1] == [q[0]] + q[1..][..i];
    }
  }

  lemma RemovedSorted(m: map<nat, Timer>, m': map<nat, Timer>, q: seq<nat>, x: nat)
    requires Distinct(q) && Sorted(m, q) && forall y :: y in q && y != x ==> Due(m', y) == Due(m, y)
    ensures Sorted(m', Removed(q, x))
  {
    var r := Removed(q, x);
    RemovedMembers(q, x);
    forall i, j | 0 <= i < j < |r| ensures Due(m', r[i]) <= Due(m', r[j]) {
      var a := RemovedAt(q, x, i);
      var b := RemovedAt(q, x, j);
      assert r[i] in r && r[j] in r && r[i] != r[j];
      assert Due(m, q[a]) <= Due(m, q[b]);
    }
  }

  lemma {:induction false} PlaceBehind(m: map<nat, Timer>, a: seq<nat>, b: seq<nat>, due: nat)
    requires forall i :: 0 <= i < |a| ==> Due(m, a[i]) <= due
    ensures Place(m, a + b, due) == |a| + Place(m, b, due)
  {
    if a == [] {
      assert a + b == b;
    } else {
      assert (a + b)[0] == a[0] && (a + b)[1..] == a[1..] + b;
      PlaceBehind(m, a[1..], b, due);
    }
  }

  lemma {:induction false} RequeuedFrame(m: map<nat, Timer>, m': map<nat, Timer>, rest: seq<nat>, gone: seq<nat>, x: nat)
    requires x !in rest && x !in gone
    requires forall y :: y != x ==> (y in m <==> y in m') && (y in m ==> m'[y] == m[y])
    ensures Requeued(m', rest, gone) == Requeued(m, rest, gone)
    ensures forall y :: y in Requeued(m, rest, gone) ==> y in rest || y in gone
  {
    if gone != [] {
      var n := |gone| - 1;
      RequeuedFrame(m, m', rest, gone[..n], x);
      var q, z := Requeued(m, rest, gone[..n]), gone[n];
      PlaceFrame(m, m', q, Due(m, z));
      assert forall y :: y in Queued(m, q, z) ==> y in q || y == z;
    }
  }

  /** The loop has fired `gone`; `todo` is still due, `rest` is not. */
  ghost predicate Progress(m: map<nat, Timer>, gone: seq<nat>, todo: seq<nat>, rest: seq<nat>, time: nat,
                           m': map<nat, Timer>, q': seq<nat>) {
    && m'.Keys == m.Keys
    && (forall x :: x in m ==> m'[x] == (if x in gone then Fired(m[x], time) else m[x]))
    && q' == todo + Requeued(m', rest, gone)
    && (forall x :: x in Requeued(m', rest, gone) ==> Due(m', x) > time)
    && (forall x :: x in todo ==> x in m && m[x].due <= time && x !in gone && x !in rest)
    && Distinct(todo)
  }

  ghost predicate Going(m: map<nat, Timer>, gone: seq<nat>, todo: seq<nat>, rest: seq<nat>, time: nat,
                        m': map<nat, Timer>, q': seq<nat>) {
    QueueOK(m', q') && Progress(m, gone, todo, rest, time, m', q') && forall x :: x in gone || x in rest ==> x in m
  }

  lemma ProgressHead(m: map<nat, Timer>, gone: seq<nat>, todo: seq<nat>, rest: seq<nat>, time: nat,
                     m': map<nat, Timer>, q': seq<nat>)
    requires Progress(m, gone, todo, rest, time, m', q') && q' != [] && forall x :: x in gone || x in rest ==> x in m
    ensures q'[0] in m' && (m'[q'[0]].due <= time <==> todo != [])
    ensures todo != [] ==> q'[0] == todo[0] && q'[1..] == todo[1..] + Requeued(m', rest, gone) && m'[todo[0]] == m[todo[0]]
  {
    var r := Requeued(m', rest, gone);
    if todo != [] {
      assert q'[0] == todo[0] && todo[0] in todo;
    } else {
      assert q' == r && r[0] in r;
      RequeuedMembers(m', rest, gone);
      assert r[0] in m.Keys;
    }
  }

  lemma {:induction false} RequeuedMembers(m: map<nat, Timer>, rest: seq<nat>, gone: seq<nat>)
    ensures forall y :: y in Requeued(m, rest, gone) ==> y in rest || y in gone
  {
    if gone != [] {
      var n := |gone| - 1;
      RequeuedMembers(m, rest, gone[..n]);
      var q := Requeued(m, rest, gone[..n]);
      assert forall y :: y in Queued(m, q, gone[n]) ==> y in q || y == gone[n];
    }
  }

  /** The head of the queue goes off: what is left is in order again. */
  lemma HeadFired(m: map<nat, Timer>, q: seq<nat>, m': map<nat, Timer>, t: Timer)
    requires QueueOK(m, q) && q != [] && q[0] in m && m' == m[q[0] := t]
    ensures QueueOK(m', if t.active then Queued(m', q[1..], q[0]) else q[1..])
  {
    var x, r := q[0], q[1..];
    Tail(q);
    TailSorted(m, q, m', x);
    assert forall y :: y in r ==> y in m' && m'[y].active;
    if t.active {
      QueuedSorted(m', r, x);
      QueuedMembers(m', r, x);
    }
  }

  lemma Tail(q: seq<nat>)
    requires Distinct(q) && q != []
    ensures q[0] !in q[1..] && Distinct(q[1..]) && forall y :: y in q <==> y == q[0] || y in q[1..]
  {
    var r := q[1..];
    assert q == [q[0]] + r;
    forall i | 0 <= i < |r| ensures r[i] != q[0] { assert r[i] == q[i + 1]; }
    forall i, j | 0 <= i < j < |r| ensures r[i] != r[j] { assert r[i] == q[i + 1] && r[j] == q[j + 1]; }
  }

  lemma TailSorted(m: map<nat, Timer>, q: seq<nat>, m': map<nat, Timer>, x: nat)
    requires Sorted(m, q) && q != [] && x !in q[1..] && forall y :: y != x ==> Due(m', y) == Due(m, y)
    ensures Sorted(m', q[1..])
  {
    var r := q[1..];
    forall i, j | 0 <= i < j < |r| ensures Due(m', r[i]) <= Due(m', r[j]) {
      assert r[i] == q[i + 1] && r[j] == q[j + 1] && r[i] in r && r[j] in r;
      assert Due(m, q[i + 1]) <= Due(m, q[j + 1]);
    }
  }

  lemma QueuedHolds(m: map<nat, Timer>, q: seq<nat>, x: nat)
    ensures forall y :: y in Queued(m, q, x) ==> y in q || y == x
  {
  }

  /** The timers that are due are exactly those at the front. */
  lemma DueSplit(m: map<nat, Timer>, q: seq<nat>, time: nat)
    requires Sorted(m, q)
    ensures var n := DueCount(m, q, time);
      (forall j :: 0 <= j < n ==> Due(m, q[j]) <= time) && (forall y :: y in q[n..] ==> Due(m, y) > time)
  {
    PlaceIs(m, q, time);
    var n := DueCount(m, q, time);
    forall y | y in q[n..] ensures Due(m, y) > time {
      var j :| 0 <= j < |q[n..]| && q[n..][j] == y;
      assert j > 0 ==> Due(m, q[n]) <= Due(m, q[n + j]);
    }
  }

  lemma Step(m: map<nat, Timer>, gone: seq<nat>, todo: seq<nat>, rest: seq<nat>, time: nat,
             m': map<nat, Timer>, q': seq<nat>, m2: map<nat, Timer>, q2: seq<nat>)
    requires Progress(m, gone, todo, rest, time, m', q') && todo != [] && todo[0] in m && q' != []
    requires q'[1..] == todo[1..] + Requeued(m', rest, gone)
    requires m2 == m'[todo[0] := Fired(m[todo[0]], time)]
    requires q2 == if m2[todo[0]].active then Queued(m2, q'[1..], todo[0]) else q'[1..]
    ensures Progress(m, gone + [todo[0]], todo[1..], rest, time, m2, q2)
  {
    var x, r := todo[0], Requeued(m', rest, gone);
    assert x in todo && m2.Keys == m'.Keys;
    RequeuedFrame(m', m2, rest, gone, x);
    RequeuedSnoc(m2, rest, gone, x);
    Tail(todo);
    if m2[x].active {
      forall j | 0 <= j < |todo[1..]| ensures Due(m2, todo[1..][j]) <= Due(m2, x) {
        assert todo[1..][j] in todo[1..];
      }
      StepPlace(m2, todo[1..], r, x);
      QueuedHolds(m2, r, x);
    }
    RequeuedMembers(m', rest, gone);
    StepDue(m, gone, todo, rest, time, m', m2, x, r);
  }

  lemma StepDue(m: map<nat, Timer>, gone: seq<nat>, todo: seq<nat>, rest: seq<nat>, time: nat,
                m': map<nat, Timer>, m2: map<nat, Timer>, x: nat, r: seq<nat>)
    requires x in m && x !in gone && x !in rest && m2 == m'[x := Fired(m[x], time)] && r == Requeued(m2, rest, gone)
    requires forall y :: y in r ==> Due(m', y) > time && (y in gone || y in rest)
    ensures forall y :: y in Requeued(m2, rest, gone + [x]) ==> Due(m2, y) > time
  {
    RequeuedSnoc(m2, rest, gone, x);
    QueuedHolds(m2, r, x);
  }

  lemma RequeuedSnoc(m: map<nat, Timer>, rest: seq<nat>, gone: seq<nat>, x: nat)
    requires x in m
    ensures var r := Requeued(m, rest, gone);
      Requeued(m, rest, gone + [x]) == if m[x].active then Queued(m, r, x) else r
  {
    assert (gone + [x])[..|gone|] == gone;
  }

  lemma StepPlace(m: map<nat, Timer>, a: seq<nat>, r: seq<nat>, x: nat)
    requires forall j :: 0 <= j < |a| ==> Due(m, a[j]) <= Due(m, x)
    ensures Queued(m, a + r, x) == a + Queued(m, r, x)
  {
    PlaceBehind(m, a, r, Due(m, x));
    Regroup(a, r, Place(m, r, Due(m, x)), x);
  }

  lemma Regroup(a: seq<nat>, r: seq<nat>, k: nat, x: nat)
    requires k <= |r|
    ensures (a + r)[..|a| + k] + [x] + (a + r)[|a| + k..] == a + (r[..k] + [x] + r[k..])
  {
    assert (a + r)[..|a| + k] == a + r[..k] && (a + r)[|a| + k..] == r[k..];
  }

  lemma Begin(m: map<nat, Timer>, q: seq<nat>, time: nat)
    requires QueueOK(m, q)
    ensures var n := DueCount(m, q, time);
      Going(m, [], q[..n], q[n..], time, m, q)
  {
    var n := DueCount(m, q, time);
    DueSplit(m, q, time);
    assert q == q[..n] + q[n..];
    forall x | x in q[..n] ensures x in m && m[x].due <= time && x !in q[n..] {
      var j :| 0 <= j < n && q[j] == x;
      assert Due(m, q[j]) <= time && x in q;
    }
  }
}
