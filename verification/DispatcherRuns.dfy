/** Runs of the dispatcher: any sequence of calls, in the order in which they get the dispatcher lock. */
module DispatcherRuns {
  import opened DispatcherState
  import opened Dispatcher
  import opened Wrappers

  datatype Call =
    | WaitFor(t: Thread, os: seq<Id>, any: bool)
    | Set(e: Id)
    | Reset(e: Id)
    | Expire(e: Id)
    | GiveTokens(s: Id, n: int)
    | GiveMutant(t: Thread, m: Id)

  ghost predicate IsEvent(d: Disp, e: Id) { e in d.objs && (d.objs[e].kind.NotificationEvent? || d.objs[e].kind.SynchronizationEvent?) }

  /** The calls these runs are made of: a thread that is not blocked waits for distinct objects, not for any of several
      with a mutant among them; nothing is added to an empty semaphore on which somebody waits for any only if it is
      more than zero. */
  ghost predicate Callable(d: Disp, call: Call) {
    match call
    case WaitFor(t, os, any) =>
      t !in d.waits && Distinct(os) && (forall o :: o in os ==> o in d.objs) && NoMutantAmong(d.objs, DispatcherState.Wait(any, os))
    case Set(e) => IsEvent(d, e)
    case Reset(e) => IsEvent(d, e)
    case Expire(e) => e in d.objs && d.objs[e].kind.Timer?
    case GiveTokens(s, n) =>
      && s in d.objs && d.objs[s].kind.Semaphore? && d.objs[s].limit <= LONG_MAX && LONG_MIN <= n <= LONG_MAX && !Overdraws(d, s, n)
    case GiveMutant(t, m) => m in d.objs && d.objs[m].kind.Mutant?
  }

  // ---------------------------------------------------------------- what one call moves

  /** The first signalled object. */
  function FirstOf(d: Disp, os: seq<Id>): seq<Id> {
    if os == [] then [] else if Signalled(d, os[0]) then [os[0]] else FirstOf(d, os[1..])
  }

  lemma {:induction false} FirstAt(d: Disp, os: seq<Id>, i: nat)
    requires i < |os| && Signalled(d, os[i]) && forall k :: 0 <= k < i ==> !Signalled(d, os[k])
    ensures FirstOf(d, os) == [os[i]]
  {
    if i > 0 {
      assert !Signalled(d, os[0]);
      forall k | 0 <= k < i - 1 ensures !Signalled(d, os[1..][k]) { assert !Signalled(d, os[k + 1]); }
      FirstAt(d, os[1..], i - 1);
    }
  }

  ghost predicate AtOnce(d: Disp, os: seq<Id>, any: bool) { 1 <= |os| <= WAIT_OBJECTS && Satisfiable(d, DispatcherState.Wait(any, os)) }

  function Used(d: Disp, os: seq<Id>, any: bool): seq<Id> { if any then FirstOf(d, os) else os }

  /** The tokens a call adds to a semaphore: a release that the range check lets through. */
  function Given(d: Disp, call: Call, s: Id): int {
    if call.GiveTokens? && call.s == s && s in d.objs && 0 <= call.n <= d.objs[s].limit - d.objs[s].signal then call.n else 0
  }

  /** The waits that a call satisfies and that use up a signal of s: its own, or those of blocked threads that it ends. */
  ghost function Taken(d: Disp, d': Disp, call: Call, s: Id): int {
    match call
    case WaitFor(t, os, any) => if AtOnce(d, os, any) && s in Used(d, os, any) then 1 else 0
    case Set(e) => |Took(d, d', e, s)|
    case Reset(e) => 0
    case Expire(e) => |Took(d, d', e, s)|
    case GiveTokens(o, n) => |Took(d, d', o, s)|
    case GiveMutant(t, m) => |Took(d, d', m, s)|
  }

  /** One call: everything is in order afterwards, nobody who could go on is left waiting, and every semaphore has gained
      what was given and lost what satisfied waits took. */
  ghost predicate Step(d: Disp, call: Call, d': Disp) {
    && Inv(d') && Quiet(d') && d'.objs.Keys == d.objs.Keys
    && (forall s :: s in d.objs ==> d'.objs[s].kind == d.objs[s].kind && d'.objs[s].limit == d.objs[s].limit)
    && forall s :: s in d.objs && d.objs[s].kind.Semaphore? ==>
         d'.objs[s].signal == d.objs[s].signal + Given(d, call, s) - Taken(d, d', call, s)
  }

  ghost predicate SameKinds(d: Disp, d': Disp) {
    && d'.objs.Keys == d.objs.Keys
    && forall s :: s in d.objs ==> d'.objs[s].kind == d.objs[s].kind && d'.objs[s].limit == d.objs[s].limit
  }

  /** What a pass over the waiters of a freshly signalled object leaves of the headers. */
  lemma PassKinds(d: Disp, d1: Disp, o: Id)
    requires Inv(d1) && Signalled(d1, o) && SameKinds(d, d1)
    ensures SameKinds(d, WaitTest(d1, o, 0))
  {
    WaitTestFollows(d1, o, 0);
  }

  lemma WithKinds(d: Disp, o: Id, v: int)
    requires o in d.objs
    ensures SameKinds(d, With(d, o, d.objs[o].(signal := v)))
  {
  }

  lemma AbandonKinds(d: Disp, t: Thread, m: Id)
    requires m in d.objs
    ensures SameKinds(d, Abandon(d, t, m))
  {
  }

  /** The object whose waiters a call tests. */
  function Trigger(call: Call): Option<Id> {
    match call
    case WaitFor(_, _, _) => None
    case Reset(_) => None
    case Set(e) => Some(e)
    case Expire(e) => Some(e)
    case GiveTokens(s, _) => Some(s)
    case GiveMutant(_, m) => Some(m)
  }

  /** The ledger of what was released has gained what the call gave. */
  ghost predicate Credits(d: Disp, call: Call, released: map<Id, int>, released': map<Id, int>) {
    forall s :: s in d.objs && s in released && s in released' ==> released'[s] - released[s] == Given(d, call, s)
  }

  /** The ledger of what was paid out has gained what satisfied waits took. */
  ghost predicate Charges(d: Disp, d': Disp, call: Call, paid: map<Id, int>, paid': map<Id, int>) {
    forall s :: s in d.objs && s in paid && s in paid' ==> paid'[s] - paid[s] == Taken(d, d', call, s)
  }

  lemma TokenCredit(d: Disp, s: Id, n: int, r: ReleaseResult, released: map<Id, int>, released': map<Id, int>)
    requires s in d.objs && s in released && !r.AccessDenied?
    requires r.BugCheck? <==> n < 0 || d.objs[s].signal + n > d.objs[s].limit
    requires released' == if r.Released? then released[s := released[s] + n] else released
    ensures Credits(d, GiveTokens(s, n), released, released')
  {
  }

  lemma PassCharges(d: Disp, d': Disp, call: Call, o: Id, paid: map<Id, int>, paid': map<Id, int>)
    requires Trigger(call) == Some(o) && paid' == Charged(paid, d, d', o)
    ensures Charges(d, d', call, paid, paid')
  {
  }

  /** What the books say of one call. */
  lemma Moved(d: Disp, d': Disp, call: Call, initial: map<Id, int>, released: map<Id, int>, released': map<Id, int>,
              paid: map<Id, int>, paid': map<Id, int>)
    requires BooksOK(d.objs, initial, released, paid) && BooksOK(d'.objs, initial, released', paid')
    requires Inv(d') && Quiet(d') && SameKinds(d, d')
    requires Credits(d, call, released, released') && Charges(d, d', call, paid, paid')
    ensures Step(d, call, d')
  {
    forall s | s in d.objs && d.objs[s].kind.Semaphore?
      ensures d'.objs[s].signal == d.objs[s].signal + Given(d, call, s) - Taken(d, d', call, s)
    {
      assert Balanced(d.objs, initial, released, paid, s);
      assert Balanced(d'.objs, initial, released', paid', s);
    }
  }

  lemma TakenKinds(d: Disp, t: Thread, used: seq<Id>)
    ensures SameKinds(d, Grant(d, t, used, used))
  {
  }

  lemma WaitCharges(d: Disp, d': Disp, t: Thread, os: seq<Id>, any: bool, taken: bool, paid: map<Id, int>, paid': map<Id, int>)
    requires taken <==> AtOnce(d, os, any)
    requires paid' == if taken then PayOne(paid, Used(d, os, any)) else paid
    ensures Charges(d, d', WaitFor(t, os, any), paid, paid')
  {
  }

  /** A call that releases no tokens. */
  lemma UnreleasedStep(d: Disp, d': Disp, call: Call, initial: map<Id, int>, released: map<Id, int>, paid: map<Id, int>,
                       paid': map<Id, int>)
    requires BooksOK(d.objs, initial, released, paid) && BooksOK(d'.objs, initial, released, paid')
    requires Inv(d') && Quiet(d') && SameKinds(d, d') && !call.GiveTokens? && Charges(d, d', call, paid, paid')
    ensures Step(d, call, d')
  {
    Moved(d, d', call, initial, released, released, paid, paid');
  }

  /** What a satisfied wait used, and what it was charged. */
  lemma WaitMoves(d: Disp, d': Disp, t: Thread, os: seq<Id>, any: bool, r: WaitResult, paid: map<Id, int>, paid': map<Id, int>)
    requires r.Satisfied? <==> AtOnce(d, os, any)
    requires r.Satisfied? ==> r.index < |os| && Signalled(d, os[r.index]) && (any ==> forall i :: 0 <= i < r.index ==> !Signalled(d, os[i]))
    requires var used := if r.Satisfied? && any then [os[r.index]] else os;
      paid' == (if r.Satisfied? then PayOne(paid, used) else paid) && (r.Satisfied? ==> d' == Grant(d, t, used, used))
    requires !r.Satisfied? ==> d'.objs == d.objs
    ensures SameKinds(d, d')
    ensures Charges(d, d', WaitFor(t, os, any), paid, paid')
  {
    if r.Satisfied? {
      if any { FirstAt(d, os, r.index); }
      TakenKinds(d, t, Used(d, os, any));
    }
    WaitCharges(d, d', t, os, any, r.Satisfied?, paid, paid');
  }

  method PerformWait(k: KernelDispatcher, t: Thread, os: seq<Id>, any: bool)
    requires k.Valid() && Callable(k.Now(), WaitFor(t, os, any))
    modifies k
    ensures k.Valid() && Step(old(k.Now()), WaitFor(t, os, any), k.Now())
  {
    ghost var d, released, paid := k.Now(), k.released, k.paid;
    var r := k.Wait(t, os, any);
    WaitMoves(d, k.Now(), t, os, any, r, paid, k.paid);
    UnreleasedStep(d, k.Now(), WaitFor(t, os, any), k.initial, released, paid, k.paid);
  }

  method PerformSet(k: KernelDispatcher, e: Id)
    requires k.Valid() && IsEvent(k.Now(), e)
    modifies k
    ensures k.Valid() && Step(old(k.Now()), Set(e), k.Now())
  {
    ghost var d, released, paid := k.Now(), k.released, k.paid;
    var _ := k.SetEvent(e);
    WithKinds(d, e, 1);
    PassKinds(d, With(d, e, d.objs[e].(signal := 1)), e);
    PassCharges(d, k.Now(), Set(e), e, paid, k.paid);
    UnreleasedStep(d, k.Now(), Set(e), k.initial, released, paid, k.paid);
  }

  method PerformReset(k: KernelDispatcher, e: Id)
    requires k.Valid() && IsEvent(k.Now(), e)
    modifies k
    ensures k.Valid() && Step(old(k.Now()), Reset(e), k.Now())
  {
    ghost var d, released, paid := k.Now(), k.released, k.paid;
    var _ := k.ResetEvent(e);
    WithKinds(d, e, 0);
    assert Charges(d, k.Now(), Reset(e), paid, paid);
    UnreleasedStep(d, k.Now(), Reset(e), k.initial, released, paid, k.paid);
  }

  method PerformExpire(k: KernelDispatcher, e: Id)
    requires k.Valid() && Callable(k.Now(), Expire(e))
    modifies k
    ensures k.Valid() && Step(old(k.Now()), Expire(e), k.Now())
  {
    ghost var d, released, paid := k.Now(), k.released, k.paid;
    k.SignalTimer(e);
    WithKinds(d, e, 1);
    PassKinds(d, With(d, e, d.objs[e].(signal := 1)), e);
    PassCharges(d, k.Now(), Expire(e), e, paid, k.paid);
    UnreleasedStep(d, k.Now(), Expire(e), k.initial, released, paid, k.paid);
  }

  method PerformGive(k: KernelDispatcher, s: Id, n: int)
    requires k.Valid() && Callable(k.Now(), GiveTokens(s, n))
    modifies k
    ensures k.Valid() && Step(old(k.Now()), GiveTokens(s, n), k.Now())
  {
    ghost var d, released, paid := k.Now(), k.released, k.paid;
    var r := CallRelease(k, s, n);
    assert Balanced(d.objs, k.initial, released, paid, s);
    GivenStep(d, k.Now(), s, n, r, k.initial, released, k.released, paid, k.paid);
  }

  /** The call, with what a run needs of it. */
  method CallRelease(k: KernelDispatcher, s: Id, n: int) returns (r: ReleaseResult)
    requires k.Valid() && Callable(k.Now(), GiveTokens(s, n))
    modifies k
    ensures k.Valid() && k.initial == old(k.initial) && !r.AccessDenied?
    ensures r.BugCheck? <==> n < 0 || old(k.objs)[s].signal + n > old(k.objs)[s].limit
    ensures k.Now() == if r.Released? then Release(old(k.Now()), s, n) else old(k.Now())
    ensures s in old(k.released)
    ensures k.released == if r.Released? then old(k.released)[s := old(k.released)[s] + n] else old(k.released)
    ensures k.paid == Charged(old(k.paid), old(k.Now()), k.Now(), s)
  {
    assert Balanced(k.objs, k.initial, k.released, k.paid, s);
    r := k.ReleaseSemaphore(s, n);
  }

  lemma GivenStep(d: Disp, d': Disp, s: Id, n: int, r: ReleaseResult, initial: map<Id, int>, released: map<Id, int>,
                  released': map<Id, int>, paid: map<Id, int>, paid': map<Id, int>)
    requires BooksOK(d.objs, initial, released, paid) && BooksOK(d'.objs, initial, released', paid')
    requires Inv(d') && Quiet(d') && s in d.objs && !r.AccessDenied?
    requires r.BugCheck? <==> n < 0 || d.objs[s].signal + n > d.objs[s].limit
    requires d' == if r.Released? then Release(d, s, n) else d
    requires s in released && released' == if r.Released? then released[s := released[s] + n] else released
    requires paid' == Charged(paid, d, d', s)
    ensures Step(d, GiveTokens(s, n), d')
  {
    if r.Released? { GivenKinds(d, s, n); }
    PassCharges(d, d', GiveTokens(s, n), s, paid, paid');
    TokenCredit(d, s, n, r, released, released');
    Moved(d, d', GiveTokens(s, n), initial, released, released', paid, paid');
  }

  lemma GivenKinds(d: Disp, s: Id, n: int)
    requires s in d.objs
    ensures SameKinds(d, Release(d, s, n))
  {
    SweepFollows(Added(d, s, n), s, 0);
  }

  method PerformMutant(k: KernelDispatcher, t: Thread, m: Id)
    requires k.Valid() && Callable(k.Now(), GiveMutant(t, m))
    modifies k
    ensures k.Valid() && Step(old(k.Now()), GiveMutant(t, m), k.Now())
  {
    ghost var d, released, paid := k.Now(), k.released, k.paid;
    var r := k.ReleaseMutant(t, m);
    AbandonKinds(d, t, m);
    if r.Released? { PassKinds(d, Abandon(d, t, m), m); }
    PassCharges(d, k.Now(), GiveMutant(t, m), m, paid, k.paid);
    UnreleasedStep(d, k.Now(), GiveMutant(t, m), k.initial, released, paid, k.paid);
  }

  /** A call on the dispatcher is such a step. */
  method Perform(k: KernelDispatcher, call: Call)
    requires k.Valid() && Callable(k.Now(), call)
    modifies k
    ensures k.Valid() && Step(old(k.Now()), call, k.Now())
  {
    match call {
      case WaitFor(t, os, any) => PerformWait(k, t, os, any);
      case Set(e) => PerformSet(k, e);
      case Reset(e) => PerformReset(k, e);
      case Expire(e) => PerformExpire(k, e);
      case GiveTokens(s, n) => PerformGive(k, s, n);
      case GiveMutant(t, m) => PerformMutant(k, t, m);
    }
  }

  // ---------------------------------------------------------------- runs

  ghost predicate Run(trace: seq<Disp>, calls: seq<Call>) {
    && |trace| == |calls| + 1 && Inv(trace[0]) && Quiet(trace[0])
    && forall i :: 0 <= i < |calls| ==> Step(trace[i], calls[i], trace[i + 1])
  }

  ghost function AllGiven(trace: seq<Disp>, calls: seq<Call>, s: Id): int
    requires |trace| == |calls| + 1
  {
    if calls == [] then 0 else
    var n := |calls| - 1;
    AllGiven(trace[..n + 1], calls[..n], s) + Given(trace[n], calls[n], s)
  }

  ghost function AllTaken(trace: seq<Disp>, calls: seq<Call>, s: Id): int
    requires |trace| == |calls| + 1
  {
    if calls == [] then 0 else
    var n := |calls| - 1;
    AllTaken(trace[..n + 1], calls[..n], s) + Taken(trace[n], trace[n + 1], calls[n], s)
  }

  /** Over every run a semaphore's count is what it was, plus the tokens released, minus the waits satisfied by it, and
      stays between zero and the limit; a mutant that is not free has one owner; nobody satisfiable is left waiting. */
  lemma {:induction false} RunConserves(trace: seq<Disp>, calls: seq<Call>, s: Id)
    requires Run(trace, calls) && s in trace[0].objs && trace[0].objs[s].kind.Semaphore?
    ensures var d := trace[|calls|];
      && Inv(d) && Quiet(d) && s in d.objs && d.objs[s].kind.Semaphore? && d.objs[s].limit == trace[0].objs[s].limit
      && d.objs[s].signal == trace[0].objs[s].signal + AllGiven(trace, calls, s) - AllTaken(trace, calls, s)
      && 0 <= d.objs[s].signal <= trace[0].objs[s].limit
    decreases |calls|
  {
    if calls == [] {
      assert ObjectOK(trace[0].objs[s]);
    } else {
      var n := |calls| - 1;
      assert trace[..n + 1][n] == trace[n];
      forall i | 0 <= i < n ensures Step(trace[..n + 1][i], calls[..n][i], trace[..n + 1][i + 1]) {
        assert Step(trace[i], calls[i], trace[i + 1]);
      }
      RunConserves(trace[..n + 1], calls[..n], s);
      assert Step(trace[n], calls[n], trace[n + 1]);
      assert ObjectOK(trace[n + 1].objs[s]);
    }
  }
}
