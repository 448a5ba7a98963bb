/** The fair scheduler of one processor (veakrnl/pt/ptscheduler.c, veakrnl/pt/ptcfs.c): threads that are always runnable,
    switched by ticks. */
module Scheduler {
  const BASE_WEIGHT := 1024            // PT_CFS_BASE_WEIGHT
  const MAX_SHIFT := 5

  datatype State = Ready | Running

  datatype Thread = Thread(runtime: nat, weight: nat, priority: int, state: State)

  type Threads = map<nat, Thread>

  function Pow2(k: nat): (p: nat)
    requires k <= MAX_SHIFT
    ensures 1 <= p <= 32
  {
    if k == 0 then 1 else if k == 1 then 2 else if k == 2 then 4 else if k == 3 then 8 else if k == 4 then 16 else 32
  }

  /** The shift a priority stands for. */
  function PriorityShift(priority: int): (k: nat)
    ensures k <= MAX_SHIFT
  {
    if priority < 0 then 0 else if priority / 8 > MAX_SHIFT then MAX_SHIFT else priority / 8
  }

  function VRuntime(m: Threads, x: nat): nat { if x in m then m[x].runtime else 0 }

  /** The shift a weight stands for: how often it can be halved before it is down to the base, five times at most. */
  function WeightShift(weight: nat, k: nat): (r: nat)
    requires k <= MAX_SHIFT
    ensures k <= r <= MAX_SHIFT
    decreases MAX_SHIFT - k
  {
    if k < MAX_SHIFT && weight / Pow2(k) > BASE_WEIGHT then WeightShift(weight, k + 1) else k
  }

  /** Eight priorities share a shift: 8k to 8k + 7 have shift k up to 5, all higher ones have 5, and the negative ones 0. */
  lemma ShiftIs(priority: int, k: nat)
    ensures k <= 5 && 8 * k <= priority <= 8 * k + 7 ==> PriorityShift(priority) == k
    ensures priority >= 40 ==> PriorityShift(priority) == 5
    ensures priority < 0 ==> PriorityShift(priority) == 0
    ensures 1024 * Pow2(PriorityShift(priority)) ==
      if priority < 8 then 1024 else if priority < 16 then 2048 else if priority < 24 then 4096
      else if priority < 32 then 8192 else if priority < 40 then 16384 else 32768
  {
  }

  /** What a tick of `delta` units adds to the run time, and what it is worth in 32nds, weight by weight. */
  lemma StepsAre(t: Thread, delta: nat)
    ensures var w := t.weight;
      Step(t, delta) == if w == 0 then 0 else if w <= 1024 then delta else if w < 2 * 1025 then delta / 2
                        else if w < 4 * 1025 then delta / 4 else if w < 8 * 1025 then delta / 8
                        else if w < 16 * 1025 then delta / 16 else delta / 32
    ensures var w := t.weight;
      Share(t, delta) == if w == 0 then 0 else if w <= 1024 then 32 * delta else if w < 2 * 1025 then 16 * delta
                         else if w < 4 * 1025 then 8 * delta else if w < 8 * 1025 then 4 * delta
                         else if w < 16 * 1025 then 2 * delta else delta
  {
    ShiftOf(t.weight);
  }

  lemma ShiftOf(w: nat)
    ensures WeightShift(w, 0) ==
      if w <= 1024 then 0 else if w < 2 * 1025 then 1 else if w < 4 * 1025 then 2 else if w < 8 * 1025 then 3
      else if w < 16 * 1025 then 4 else 5
  {
    assert WeightShift(w, 5) == 5;
    assert WeightShift(w, 4) == if w / 16 > 1024 then 5 else 4;
    assert WeightShift(w, 3) == if w / 8 > 1024 then WeightShift(w, 4) else 3;
    assert WeightShift(w, 2) == if w / 4 > 1024 then WeightShift(w, 3) else 2;
    assert WeightShift(w, 1) == if w / 2 > 1024 then WeightShift(w, 2) else 1;
  }

  /** The weight a priority sets is read back as that priority's shift. */
  lemma ShiftRecovered(priority: int)
    ensures WeightShift(BASE_WEIGHT * Pow2(PriorityShift(priority)), 0) == PriorityShift(priority)
  {
    var s := PriorityShift(priority);
    Climb(s, 0);
  }

  lemma {:induction false} Climb(s: nat, k: nat)
    requires k <= s <= MAX_SHIFT
    ensures WeightShift(BASE_WEIGHT * Pow2(s), k) == s
    decreases s - k
  {
    if k < s { Climb(s, k + 1); }
  }

  /** What a tick adds to the running thread's run time. */
  function Step(t: Thread, delta: nat): (n: nat)
    ensures n <= delta
  {
    if t.weight == 0 then 0 else delta / Pow2(WeightShift(t.weight, 0))
  }

  // ---------------------------------------------------------------- the run queue

  ghost predicate Sorted(m: Threads, q: seq<nat>) {
    forall i, j :: 0 <= i < j < |q| ==> VRuntime(m, q[i]) <= VRuntime(m, q[j])
  }

  /** Where a thread goes: behind all that have run no longer. */
  function Place(m: Threads, q: seq<nat>, runtime: nat): (k: nat)
    ensures k <= |q|
  {
    if q == [] || VRuntime(m, q[0]) > runtime then 0 else 1 + Place(m, q[1..], runtime)
  }

  lemma {:induction false} PlaceIs(m: Threads, q: seq<nat>, runtime: nat)
    ensures var k := Place(m, q, runtime);
      (k < |q| ==> VRuntime(m, q[k]) > runtime) && forall i :: 0 <= i < k ==> VRuntime(m, q[i]) <= runtime
  {
    if q != [] && VRuntime(m, q[0]) <= runtime {
      PlaceIs(m, q[1..], runtime);
      assert forall i :: 0 < i < |q| ==> q[i] == q[1..][i - 1];
    }
  }

  function Enqueued(m: Threads, q: seq<nat>, x: nat): seq<nat> {
    var k := Place(m, q, VRuntime(m, x));
    q[..k] + [x] + q[k..]
  }

  lemma EnqueuedSorted(m: Threads, q: seq<nat>, x: nat)
    requires Sorted(m, q)
    ensures Sorted(m, Enqueued(m, q, x))
  {
    var k, r := Place(m, q, VRuntime(m, x)), Enqueued(m, q, x);
    PlaceIs(m, q, VRuntime(m, x));
    forall i, j | 0 <= i < j < |r| ensures VRuntime(m, r[i]) <= VRuntime(m, r[j]) {
      assert i < k ==> r[i] == q[i];
      assert i > k ==> r[i] == q[i - 1];
      assert j < k ==> r[j] == q[j];
      assert j > k ==> r[j] == q[j - 1];
      if i == k && k < |q| { assert VRuntime(m, q[k]) <= VRuntime(m, q[j - 1]); }
    }
  }

  lemma EnqueuedMembers(m: Threads, q: seq<nat>, x: nat)
    ensures multiset(Enqueued(m, q, x)) == multiset(q) + multiset{x}
  {
    var k := Place(m, q, VRuntime(m, x));
    assert q == q[..k] + q[k..];
  }

  /** One thread runs, all others wait in the queue by run time. */
  ghost predicate QueueOK(m: Threads, q: seq<nat>, current: nat) {
    && current in m && m[current].state.Running? && Sorted(m, q)
    && (forall x {:trigger multiset(q)[x]} :: multiset(q)[x] == if x in m && x != current then 1 else 0)
    && forall x :: x in m && x != current ==> m[x].state.Ready?
  }

  /** The running thread has run least, and nobody has run more than `bound` longer. */
  ghost predicate Fair(m: Threads, current: nat, bound: nat) {
    current in m && forall x :: x in m ==> m[current].runtime <= m[x].runtime <= m[current].runtime + bound
  }

  lemma QueueHead(m: Threads, q: seq<nat>, current: nat, x: nat)
    requires QueueOK(m, q, current) && x in m && x != current
    ensures q != [] && q[0] in m && q[0] != current && VRuntime(m, q[0]) <= VRuntime(m, x)
  {
    assert multiset(q)[x] == 1;
    var i :| 0 <= i < |q| && q[i] == x;
    assert multiset(q)[q[0]] > 0;
  }

  /** The total run time of a list of threads. */
  function Total(m: Threads, all: seq<nat>): nat {
    if all == [] then 0 else VRuntime(m, all[0]) + Total(m, all[1..])
  }

  /** Nobody starves: under the bound each thread has had its share of the total up to the bound. */
  lemma {:induction false} FairShare(m: Threads, current: nat, bound: nat, all: seq<nat>, x: nat)
    requires Fair(m, current, bound) && x in m && forall y :: y in all ==> y in m
    ensures Total(m, all) <= |all| * (m[x].runtime + bound)
    ensures |all| * m[x].runtime <= Total(m, all) + |all| * bound
  {
    if all != [] {
      assert all[0] in all && forall y :: y in all[1..] ==> y in all;
      FairShare(m, current, bound, all[1..], x);
      MulStep(|all|, m[x].runtime + bound);
      MulStep(|all|, m[x].runtime);
      MulStep(|all|, bound);
    }
  }

  lemma MulStep(n: nat, a: nat)
    requires n > 0
    ensures n * a == a + (n - 1) * a
  {
  }

  /** Processor time divided by two to the shift in force while it was spent, counted in 32nds so that nothing is lost. */
  function Share(t: Thread, delta: nat): nat {
    if t.weight == 0 then 0 else delta * Pow2(MAX_SHIFT - WeightShift(t.weight, 0))
  }

  /** A charge loses less than one unit by rounding. */
  lemma ShareRounds(t: Thread, delta: nat)
    ensures 32 * Step(t, delta) <= Share(t, delta) < 32 * Step(t, delta) + 32
  {
    if t.weight != 0 { Rounds(delta, WeightShift(t.weight, 0)); }
  }

  lemma Rounds(delta: nat, k: nat)
    requires k <= MAX_SHIFT
    ensures 32 * (delta / Pow2(k)) <= delta * Pow2(MAX_SHIFT - k) < 32 * (delta / Pow2(k)) + 32
  {
    if k == 0 {
    } else if k == 1 {
    } else if k == 2 {
    } else if k == 3 {
    } else if k == 4 {
    } else {
    }
  }

  /** What a thread was served, in 32nds and from its run time at the start, and how many ticks charged it. */
  datatype Account = Account(served: nat, charges: nat)

  /** The run time of each thread is what it was served, up to one unit for each of its charges. */
  ghost predicate Served(m: Threads, accounts: map<nat, Account>) {
    forall x :: x in m ==> x in accounts && 32 * m[x].runtime <= accounts[x].served <= 32 * (m[x].runtime + accounts[x].charges)
  }

  /** Nobody starves in processor time either: what two threads were served, each divided by its shifts, differs by at most
      the bound and the rounding of the one that got more. */
  lemma ServedBound(m: Threads, current: nat, bound: nat, accounts: map<nat, Account>, x: nat, y: nat)
    requires Fair(m, current, bound) && Served(m, accounts) && x in m && y in m
    ensures accounts[x].served <= accounts[y].served + 32 * (bound + accounts[x].charges)
  {
    PairBound(m, current, bound, x, y);
  }

  /** Any two threads' run times stay within the bound. */
  lemma PairBound(m: Threads, current: nat, bound: nat, x: nat, y: nat)
    requires Fair(m, current, bound) && x in m && y in m
    ensures -(bound as int) <= m[x].runtime - m[y].runtime <= bound
  {
  }

  function Max(a: nat, b: nat): nat { if a > b then a else b }

  /** One thread has run longer. */
  function Longer(m: Threads, c: nat, step: nat): Threads
    requires c in m
  {
    m[c := m[c].(runtime := m[c].runtime + step)]
  }

  /** One thread's run time has grown; no weight, priority or other run time has changed. */
  ghost predicate Ran(m: Threads, m': Threads, c: nat, step: nat) {
    && m'.Keys == m.Keys
    && forall x {:trigger m'[x]} :: x in m' ==>
         && m'[x].weight == m[x].weight && m'[x].priority == m[x].priority
         && m'[x].runtime == m[x].runtime + if x == c then step else 0
  }

  class RunQueue {
    var threads: Threads
    var queue: seq<nat>
    var current: nat
    ghost var bound: nat             // the longest step any tick has added so far
    ghost var accounts: map<nat, Account>

    ghost predicate Valid()
      reads this
    {
      QueueOK(threads, queue, current) && Fair(threads, current, bound) && Served(threads, accounts)
    }

    /** Threads that start with equal run times. */
    constructor (threads: Threads, queue: seq<nat>, current: nat)
      requires QueueOK(threads, queue, current)
      requires forall x :: x in threads ==> threads[x].runtime == threads[current].runtime
      ensures Valid() && this.threads == threads && this.current == current && bound == 0
    {
      this.threads, this.queue, this.current, this.bound := threads, queue, current, 0;
      accounts := map x | x in threads :: Account(32 * threads[x].runtime, 0);
    }

    /** PtSetThreadPriority: the weight doubles with every eight priorities, five times at most. */
    method SetPriority(x: nat, priority: int)
      requires Valid() && x in threads && -128 <= priority < 128
      modifies this`threads
      ensures Valid() && threads.Keys == old(threads).Keys
      ensures threads[x] == old(threads)[x].(priority := if priority < 0 then 0 else priority,
                                             weight := if priority < 8 then 1024 else if priority < 16 then 2048
                                                       else if priority < 24 then 4096 else if priority < 32 then 8192
                                                       else if priority < 40 then 16384 else 32768)
      ensures forall y :: y in threads && y != x ==> threads[y] == old(threads)[y]
    {
      var p := if priority < 0 then 0 else priority;
      var shift := p / 8;
      if shift > MAX_SHIFT { shift := MAX_SHIFT; }
      ghost var m := threads;
      ShiftIs(priority, 0);
      threads := threads[x := threads[x].(priority := p, weight := BASE_WEIGHT * Pow2(shift))];
      assert threads.Keys == m.Keys;
      SameRuntimes(m, threads, queue, current);
    }

    /** The loop of the tick that reads the shift off a weight. */
    static method ReadShift(weight: nat) returns (shift: nat)
      ensures shift == WeightShift(weight, 0)
      ensures shift == if weight <= 1024 then 0 else if weight < 2 * 1025 then 1 else if weight < 4 * 1025 then 2
                       else if weight < 8 * 1025 then 3 else if weight < 16 * 1025 then 4 else 5
    {
      ShiftOf(weight);
      shift := 0;
      var w := weight;
      while w > BASE_WEIGHT && shift < MAX_SHIFT
        invariant shift <= MAX_SHIFT && w == weight / Pow2(shift)
        invariant WeightShift(weight, shift) == WeightShift(weight, 0)
      {
        w := w / 2;
        shift := shift + 1;
      }
    }

    /** PtSchedulerTick: the running thread is charged `step`: the time, halved once for each halving that brings its weight
        down to 1024, five times at most; the books gain `share`, the same in 32nds and not rounded. It gives way exactly
        when the first thread of the queue has run strictly less; it then goes to position k, behind all that have run no
        longer, and the others keep their order. Afterwards nobody has run less than the thread that runs. */
    method Tick(delta: nat) returns (ghost k: nat, ghost step: nat, ghost share: nat)
      requires Valid()
      modifies this
      ensures Valid() && old(current) in old(threads) && threads.Keys == old(threads).Keys && current in threads
      ensures var w := old(threads)[old(current)].weight;
        step == if w == 0 then 0 else if w <= 1024 then delta else if w < 2 * 1025 then delta / 2
                else if w < 4 * 1025 then delta / 4 else if w < 8 * 1025 then delta / 8
                else if w < 16 * 1025 then delta / 16 else delta / 32
      ensures forall x :: x in threads ==>
        && threads[x].weight == old(threads)[x].weight && threads[x].priority == old(threads)[x].priority
        && threads[x].runtime == old(threads)[x].runtime + if x == old(current) then step else 0
      ensures old(queue) != [] ==> old(queue)[0] in old(threads)
      ensures current != old(current) <==>
        old(queue) != [] && old(threads)[old(queue)[0]].runtime < threads[old(current)].runtime
      ensures current == old(current) ==> queue == old(queue)
      ensures current != old(current) ==>
        && current == old(queue)[0] && k < |queue| && queue[k] == old(current) && queue[..k] + queue[k + 1..] == old(queue)[1..]
        && forall j :: 0 <= j < |queue| && j != k ==>
             queue[j] in threads && (threads[queue[j]].runtime <= threads[old(current)].runtime <==> j < k)
      ensures forall x :: x in threads ==> threads[current].runtime <= threads[x].runtime <= threads[current].runtime + bound
      ensures bound == if step > old(bound) then step else old(bound)
      ensures var w := old(threads)[old(current)].weight;
        share == if w == 0 then 0 else if w <= 1024 then 32 * delta else if w < 2 * 1025 then 16 * delta
                 else if w < 4 * 1025 then 8 * delta else if w < 8 * 1025 then 4 * delta
                 else if w < 16 * 1025 then 2 * delta else delta
      ensures old(current) in old(accounts)
      ensures accounts.Keys == old(accounts).Keys && forall x :: x in accounts ==>
        && accounts[x].served == old(accounts)[x].served + (if x == old(current) then share else 0)
        && accounts[x].charges == old(accounts)[x].charges + if x == old(current) then 1 else 0
    {
      ghost var m, q, c := threads, queue, current;
      step, share := Beat(delta);
      ghost var m' := threads;
      TickRan(m, m', c, step);
      k := TickQueue(m, m', q, c, step, queue, current);
    }

    method Beat(delta: nat) returns (ghost step: nat, ghost share: nat)
      requires Valid()
      modifies this
      ensures Valid() && current in threads && old(current) in old(threads) && old(current) in old(accounts)
      ensures var w := old(threads)[old(current)].weight;
        step == if w == 0 then 0 else if w <= 1024 then delta else if w < 2 * 1025 then delta / 2
                else if w < 4 * 1025 then delta / 4 else if w < 8 * 1025 then delta / 8
                else if w < 16 * 1025 then delta / 16 else delta / 32
      ensures var w := old(threads)[old(current)].weight;
        share == if w == 0 then 0 else if w <= 1024 then 32 * delta else if w < 2 * 1025 then 16 * delta
                 else if w < 4 * 1025 then 8 * delta else if w < 8 * 1025 then 4 * delta
                 else if w < 16 * 1025 then 2 * delta else delta
      ensures bound == Max(old(bound), step) && Ran(old(threads), threads, old(current), step)
      ensures Turned(Longer(old(threads), old(current), step), old(queue), old(current), queue, current)
      ensures accounts.Keys == old(accounts).Keys && forall x :: x in accounts ==>
        && accounts[x].served == old(accounts)[x].served + (if x == old(current) then share else 0)
        && accounts[x].charges == old(accounts)[x].charges + if x == old(current) then 1 else 0
    {
      ghost var m, c := threads, current;
      step, share := Turn(delta);
      StepsAre(m[c], delta);
    }

    method Turn(delta: nat) returns (ghost step: nat, ghost share: nat)
      requires Valid()
      modifies this
      ensures Valid() && current in threads && old(current) in old(threads) && old(current) in old(accounts)
      ensures step == Step(old(threads)[old(current)], delta) && share == Share(old(threads)[old(current)], delta)
      ensures bound == Max(old(bound), step) && Ran(old(threads), threads, old(current), step)
      ensures Turned(Longer(old(threads), old(current), step), old(queue), old(current), queue, current)
      ensures accounts.Keys == old(accounts).Keys && forall x :: x in accounts ==>
        && accounts[x].served == old(accounts)[x].served + (if x == old(current) then share else 0)
        && accounts[x].charges == old(accounts)[x].charges + if x == old(current) then 1 else 0
    {
      var c := current;
      ghost var m := threads;
      step, share := Bill(delta);
      ghost var m1 := threads;
      Reschedule(c, step, m[c].runtime);
      SwitchRan(m, m1, threads, c, step);
    }

    /** A thread without a weight is not charged. */
    static method StepOf(t: Thread, delta: nat) returns (step: nat)
      ensures step == Step(t, delta)
    {
      step := 0;
      if t.weight != 0 {
        var shift := ReadShift(t.weight);
        step := delta / Pow2(shift);
      }
    }

    /** The first half of the tick. */
    method Bill(delta: nat) returns (ghost step: nat, ghost share: nat)
      requires Valid()
      modifies `threads, `bound, `accounts
      ensures QueueOK(threads, queue, current) && current in old(threads) && current in old(accounts)
      ensures step == Step(old(threads)[current], delta) && share == Share(old(threads)[current], delta)
      ensures threads == Longer(old(threads), current, step) && bound == Max(old(bound), step)
      ensures Charged(threads, current, old(threads)[current].runtime, step, bound) && Served(threads, accounts)
      ensures accounts.Keys == old(accounts).Keys && forall x :: x in accounts ==>
        && accounts[x].served == old(accounts)[x].served + (if x == current then share else 0)
        && accounts[x].charges == old(accounts)[x].charges + if x == current then 1 else 0
    {
      var charge := StepOf(threads[current], delta);
      ghost var m := threads;
      step, share := charge, Share(m[current], delta);
      Charge(charge);
      Serve(current, m, delta, share);
    }

    /** The books of the charge. */
    ghost method Serve(c: nat, m: Threads, delta: nat, share: nat)
      requires c in m && Served(m, accounts) && share == Share(m[c], delta)
      requires threads == Longer(m, c, Step(m[c], delta))
      modifies `accounts
      ensures Served(threads, accounts) && c in old(accounts)
      ensures accounts.Keys == old(accounts).Keys && forall x :: x in accounts ==>
        && accounts[x].served == old(accounts)[x].served + (if x == c then share else 0)
        && accounts[x].charges == old(accounts)[x].charges + if x == c then 1 else 0
    {
      ShareRounds(m[c], delta);
      accounts := accounts[c := Account(accounts[c].served + share, accounts[c].charges + 1)];
    }

    /** The second half of the tick. */
    method Reschedule(c: nat, ghost step: nat, ghost low: nat)
      requires QueueOK(threads, queue, current) && c == current && Charged(threads, c, low, step, bound)
      requires Served(threads, accounts)
      modifies this`threads, this`queue, this`current
      ensures Valid()
      ensures Ran(old(threads), threads, c, 0) && current in threads
      ensures Turned(old(threads), old(queue), c, queue, current)
    {
      ghost var m, q := threads, queue;
      if queue != [] && VRuntime(threads, queue[0]) < VRuntime(threads, c) {
        Switch();
        YieldFair(m, q, c, low, step, bound, threads);
      } else {
        StayFair(m, q, c, low, step, bound);
      }
      SwitchServed(m, threads, c, accounts);
    }

    method Charge(step: nat)
      requires QueueOK(threads, queue, current) && Fair(threads, current, bound)
      modifies this`threads, this`bound
      ensures QueueOK(threads, queue, current) && bound == Max(old(bound), step)
      ensures current in old(threads) && threads == Longer(old(threads), current, step)
      ensures Charged(threads, current, old(threads)[current].runtime, step, bound)
    {
      LongerOK(threads, queue, current, step);
      LongerCharged(threads, current, step, bound);
      threads := Longer(threads, current, step);
      bound := Max(bound, step);
    }

    /** PtSelectNextThread with PtPickNextThreadCfs, then PtEnqueueThreadCfs for the thread that gives way: the first of the
        queue runs, and the old thread goes to position k, behind all that have run no longer. */
    method Yield() returns (ghost k: nat)
      requires QueueOK(threads, queue, current) && queue != []
      modifies this`threads, this`queue, this`current
      ensures QueueOK(threads, queue, current) && current == old(queue)[0] && threads.Keys == old(threads).Keys
      ensures current in threads && old(current) in threads && current != old(current)
      ensures threads == old(threads)[current := old(threads)[current].(state := Running)]
                                     [old(current) := old(threads)[old(current)].(state := Ready)]
      ensures k < |queue| && queue[k] == old(current) && queue[..k] + queue[k + 1..] == old(queue)[1..]
      ensures forall j :: 0 <= j < |queue| && j != k ==>
        queue[j] in threads && (threads[queue[j]].runtime <= threads[old(current)].runtime <==> j < k)
    {
      ghost var m, q, c := threads, queue, current;
      QueueTail(m, q, c);
      Switch();
      assert threads.Keys == m.Keys;
      k := Place(m, q[1..], VRuntime(m, c));
      EnqueuedPlace(m, threads, q[1..], c, queue);
    }

    method Switch()
      requires QueueOK(threads, queue, current) && queue != []
      modifies this`threads, this`queue, this`current
      ensures QueueOK(threads, queue, current) && current == old(queue)[0] && old(queue)[0] in old(threads)
      ensures Ran(old(threads), threads, old(current), 0) && old(current) in old(threads)
      ensures queue == Enqueued(old(threads), old(queue)[1..], old(current))
      ensures threads == old(threads)[current := old(threads)[current].(state := Running)]
                                     [old(current) := old(threads)[old(current)].(state := Ready)]
    {
      ghost var m, q, c := threads, queue, current;
      var last := current;
      var next := queue[0];
      assert multiset(queue)[next] > 0;
      queue := queue[1..];
      threads := threads[next := threads[next].(state := Running)];
      current := next;
      threads := threads[last := threads[last].(state := Ready)];
      assert threads.Keys == m.Keys;
      Enqueue(last);
      SameOrder(m, threads, q[1..]);
      SwitchOK(m, q, c, threads, queue);
    }

    /** RtlInsertElementRb under PtCfsCompareRoutine: equal run times go behind. */
    method Enqueue(x: nat)
      requires x in threads
      modifies this`queue
      ensures queue == Enqueued(threads, old(queue), x)
    {
      var k := 0;
      ghost var r := queue;
      assert r[0..] == r;
      while k < |queue| && VRuntime(threads, queue[k]) <= VRuntime(threads, x)
        invariant 0 <= k <= |queue| && queue == r
        invariant k + Place(threads, r[k..], VRuntime(threads, x)) == Place(threads, r, VRuntime(threads, x))
      {
        assert r[k..][0] == r[k] && r[k..][1..] == r[k + 1..];
        k := k + 1;
      }
      assert k < |r| ==> r[k..][0] == r[k];
      queue := queue[..k] + [x] + queue[k..];
    }
  }

  /** The thread that was charged stays, or the first of the queue has run strictly less and takes its place. */
  ghost predicate Turned(m: Threads, q: seq<nat>, c: nat, q': seq<nat>, c': nat) {
    if q != [] && VRuntime(m, q[0]) < VRuntime(m, c) then c' == q[0] && q' == Enqueued(m, q[1..], c) else c' == c && q' == q
  }

  lemma QueueTail(m: Threads, q: seq<nat>, c: nat)
    requires QueueOK(m, q, c) && q != []
    ensures q[0] in m && q[0] != c && Sorted(m, q[1..]) && forall i :: 0 <= i < |q[1..]| ==> q[1..][i] in m
  {
    assert forall i :: 0 <= i < |q| ==> multiset(q)[q[i]] > 0;
    assert forall i :: 0 <= i < |q[1..]| ==> q[1..][i] == q[i + 1];
  }

  /** What a tick does to run times. */
  lemma TickRan(m: Threads, m': Threads, c: nat, step: nat)
    requires c in m && Ran(m, m', c, step)
    ensures m'.Keys == m.Keys
    ensures forall x :: x in m' ==>
      && m'[x].weight == m[x].weight && m'[x].priority == m[x].priority
      && m'[x].runtime == m[x].runtime + if x == c then step else 0
  {
    forall x | x in m' ensures x in m { assert x in m'.Keys; }
  }

  /** What it does to the queue. */
  lemma TickQueue(m: Threads, m': Threads, q: seq<nat>, c: nat, step: nat, q': seq<nat>, c': nat) returns (k: nat)
    requires QueueOK(m, q, c) && Ran(m, m', c, step) && Turned(Longer(m, c, step), q, c, q', c')
    ensures c in m' && (q != [] ==> q[0] in m)
    ensures c' != c <==> q != [] && m[q[0]].runtime < m'[c].runtime
    ensures c' == c ==> q' == q
    ensures c' != c ==>
      && c' == q[0] && k < |q'| && q'[k] == c && q'[..k] + q'[k + 1..] == q[1..]
      && forall j :: 0 <= j < |q'| && j != k ==> q'[j] in m' && (m'[q'[j]].runtime <= m'[c].runtime <==> j < k)
  {
    var m1 := Longer(m, c, step);
    assert m1.Keys == m.Keys && c in m'.Keys;
    k := 0;
    if q != [] {
      LongerOK(m, q, c, step);
      QueueTail(m1, q, c);
      assert q[0] in m.Keys && VRuntime(m1, q[0]) == m[q[0]].runtime && VRuntime(m1, c) == m'[c].runtime;
      if m[q[0]].runtime < m'[c].runtime {
        k := Place(m1, q[1..], VRuntime(m1, c));
        forall y | y in m1 ensures m'[y].runtime == m1[y].runtime { assert y in m'.Keys; }
        EnqueuedPlace(m1, m', q[1..], c, q');
      }
    }
  }

  /** Where a thread is queued. */
  lemma EnqueuedPlace(m: Threads, m': Threads, q: seq<nat>, x: nat, r: seq<nat>)
    requires r == Enqueued(m, q, x) && Sorted(m, q) && x in m && m'.Keys == m.Keys
    requires forall y :: y in m ==> m'[y].runtime == m[y].runtime
    requires forall i :: 0 <= i < |q| ==> q[i] in m
    ensures var k := Place(m, q, VRuntime(m, x));
      && k < |r| && r[k] == x && r[..k] + r[k + 1..] == q
      && forall j :: 0 <= j < |r| && j != k ==> r[j] in m' && (m'[r[j]].runtime <= m'[x].runtime <==> j < k)
  {
    var k := Place(m, q, VRuntime(m, x));
    assert x in m.Keys;
    forall j | 0 <= j < |r| && j != k ensures r[j] in m' && (m'[r[j]].runtime <= m'[x].runtime <==> j < k) {
      EnqueuedAt(m, q, x, j);
      assert r[j] in m.Keys;
    }
  }

  lemma EnqueuedAt(m: Threads, q: seq<nat>, x: nat, j: nat)
    requires Sorted(m, q) && j <= |q| && j != Place(m, q, VRuntime(m, x))
    ensures var k := Place(m, q, VRuntime(m, x));
      && Enqueued(m, q, x)[j] == q[if j < k then j else j - 1]
      && (VRuntime(m, Enqueued(m, q, x)[j]) <= VRuntime(m, x) <==> j < k)
  {
    var k := Place(m, q, VRuntime(m, x));
    PlaceIs(m, q, VRuntime(m, x));
    if j > k { assert VRuntime(m, q[k]) <= VRuntime(m, q[j - 1]); }
  }

  /** Weights and priorities do not matter for the queue. */
  lemma SameRuntimes(m: Threads, m': Threads, q: seq<nat>, c: nat)
    requires QueueOK(m, q, c) && m'.Keys == m.Keys
    requires forall x :: x in m ==> m'[x].runtime == m[x].runtime && m'[x].state == m[x].state
    ensures QueueOK(m', q, c)
  {
    assert forall x :: VRuntime(m', x) == VRuntime(m, x);
    forall x ensures multiset(q)[x] == if x in m' && x != c then 1 else 0 { assert x in m.Keys <==> x in m'.Keys; }
  }

  /** The running thread is in no queue, so its run time does not matter for the order. */
  lemma LongerOK(m: Threads, q: seq<nat>, c: nat, step: nat)
    requires QueueOK(m, q, c)
    ensures QueueOK(Longer(m, c, step), q, c)
  {
    var m' := Longer(m, c, step);
    assert m'.Keys == m.Keys;
    forall i, j | 0 <= i < j < |q| ensures VRuntime(m', q[i]) <= VRuntime(m', q[j]) {
      assert multiset(q)[q[i]] > 0 && multiset(q)[q[j]] > 0;
      assert VRuntime(m, q[i]) <= VRuntime(m, q[j]);
    }
  }

  lemma LongerCharged(m: Threads, c: nat, step: nat, bound: nat)
    requires Fair(m, c, bound)
    ensures Charged(Longer(m, c, step), c, m[c].runtime, step, Max(bound, step))
  {
  }

  lemma SwitchRan(m: Threads, m1: Threads, m2: Threads, c: nat, step: nat)
    requires c in m && m1 == Longer(m, c, step) && Ran(m1, m2, c, 0)
    ensures Ran(m, m2, c, step)
  {
    assert m1.Keys == m.Keys;
  }

  lemma SwitchServed(m: Threads, m': Threads, c: nat, accounts: map<nat, Account>)
    requires Served(m, accounts) && Ran(m, m', c, 0)
    ensures Served(m', accounts)
  {
    forall x | x in m' ensures x in m && m'[x].runtime == m[x].runtime { assert x in m'.Keys; }
  }

  /** Only run times matter for the order. */
  lemma {:induction false} SameOrder(m: Threads, m': Threads, q: seq<nat>)
    requires forall x :: VRuntime(m', x) == VRuntime(m, x)
    ensures forall t :: Place(m', q, t) == Place(m, q, t)
  {
    if q != [] { SameOrder(m, m', q[1..]); }
  }

  lemma SwitchOK(m: Threads, q: seq<nat>, c: nat, m': Threads, q': seq<nat>)
    requires QueueOK(m, q, c) && q != [] && q[0] in m && q' == Enqueued(m, q[1..], c)
    requires m' == m[q[0] := m[q[0]].(state := Running)][c := m[c].(state := Ready)] && q[0] != c
    ensures QueueOK(m', q', q[0])
  {
    SwitchSorted(m, q, c, m');
    forall x ensures multiset(q')[x] == if x in m' && x != q[0] then 1 else 0 { SwitchCount(m, q, c, m', x); }
  }

  lemma SwitchCount(m: Threads, q: seq<nat>, c: nat, m': Threads, x: nat)
    requires QueueOK(m, q, c) && q != [] && q[0] in m && q[0] != c && m'.Keys == m.Keys
    ensures multiset(Enqueued(m, q[1..], c))[x] == if x in m' && x != q[0] then 1 else 0
  {
    SwitchMembers(m, q, c);
    assert multiset(q)[x] == if x in m && x != c then 1 else 0;
    assert multiset(q)[q[0]] == 1 && (x in m.Keys <==> x in m'.Keys);
  }

  lemma SwitchSorted(m: Threads, q: seq<nat>, c: nat, m': Threads)
    requires Sorted(m, q) && q != [] && forall x :: VRuntime(m', x) == VRuntime(m, x)
    ensures Sorted(m', Enqueued(m, q[1..], c))
  {
    var r := q[1..];
    assert forall i :: 0 <= i < |r| ==> r[i] == q[i + 1];
    EnqueuedSorted(m, r, c);
  }

  lemma SwitchMembers(m: Threads, q: seq<nat>, c: nat)
    requires q != []
    ensures multiset(Enqueued(m, q[1..], c)) == multiset(q) - multiset{q[0]} + multiset{c}
  {
    assert q == [q[0]] + q[1..];
    EnqueuedMembers(m, q[1..], c);
  }

  /** The running thread, once the least, has been charged. */
  ghost predicate Charged(m: Threads, c: nat, low: nat, step: nat, bound: nat) {
    && c in m && m[c].runtime == low + step && step <= bound
    && forall x :: x in m && x != c ==> low <= m[x].runtime <= low + bound
  }

  lemma StayFair(m: Threads, q: seq<nat>, c: nat, low: nat, step: nat, bound: nat)
    requires QueueOK(m, q, c) && Charged(m, c, low, step, bound)
    requires q == [] || VRuntime(m, q[0]) >= VRuntime(m, c)
    ensures Fair(m, c, bound)
  {
    forall x | x in m ensures m[c].runtime <= m[x].runtime <= m[c].runtime + bound {
      if x != c { QueueHead(m, q, c, x); }
    }
  }

  lemma YieldFair(m: Threads, q: seq<nat>, c: nat, low: nat, step: nat, bound: nat, m': Threads)
    requires QueueOK(m, q, c) && Charged(m, c, low, step, bound) && q != [] && VRuntime(m, q[0]) < VRuntime(m, c)
    requires m'.Keys == m.Keys && forall x :: x in m ==> m'[x].runtime == m[x].runtime
    ensures Fair(m', q[0], bound)
  {
    assert multiset(q)[q[0]] > 0;
    forall x | x in m' ensures m'[q[0]].runtime <= m'[x].runtime <= m'[q[0]].runtime + bound {
      assert x in m.Keys;
      if x != c { QueueHead(m, q, c, x); }
    }
  }
}
