/** The entries of the physical page database and the doubly linked lists threaded through them by index
    (MmpInsertFreePageHead, MmpInsertZeroedPageHead, MmpUnlinkFreePage in veakrnl/mm/pip.c), as values. */
module FrameLists {
  const NIL := 0xFFFF_FFFF

  datatype FrameState = Free | Active | Reserved | Zeroed

  datatype Frame = Frame(state: FrameState, refs: nat, share: nat, next: nat, prev: nat)

  ghost predicate Distinct(l: seq<nat>)
  {
    forall i, j :: 0 <= i < j < |l| ==> l[i] != l[j]
  }

  /** The i-th frame of a list points at both its neighbours. */
  ghost predicate LinkedAt(f: seq<Frame>, l: seq<nat>, i: nat)
  {
    && i < |l| && l[i] < |f|
    && f[l[i]].next == (if i + 1 < |l| then l[i + 1] else NIL)
    && f[l[i]].prev == (if i > 0 then l[i - 1] else NIL)
  }

  /** From `first`, the links spell out exactly `l`: an acyclic list with inverse links. */
  ghost predicate Chain(f: seq<Frame>, first: nat, l: seq<nat>)
  {
    && Distinct(l) && first == (if l == [] then NIL else l[0])
    && forall i {:trigger LinkedAt(f, l, i)} :: 0 <= i < |l| ==> LinkedAt(f, l, i)
  }

  // ---------------------------------------------------------------- the two link operations

  function InsertHead(f: seq<Frame>, first: nat, x: nat): seq<Frame>
    requires x < |f| && (first != NIL ==> first < |f|)
  {
    var f1 := f[x := f[x].(next := first, prev := NIL)];
    if first != NIL then f1[first := f1[first].(prev := x)] else f1
  }

  function UnlinkFirst(f: seq<Frame>, first: nat, x: nat): nat
    requires x < |f|
  {
    if f[x].prev == NIL then f[x].next else first
  }

  function Unlink(f: seq<Frame>, x: nat): seq<Frame>
    requires x < |f| && |f| < NIL
    requires (f[x].prev == NIL || f[x].prev < |f|) && (f[x].next == NIL || f[x].next < |f|)
  {
    var n, p := f[x].next, f[x].prev;
    var f1 := if p != NIL then f[p := f[p].(next := n)] else f;
    var f2 := if n != NIL then f1[n := f1[n].(prev := p)] else f1;
    f2[x := f2[x].(next := NIL, prev := NIL)]
  }

  /** The database apart from its links. */
  ghost predicate SameFrames(f: seq<Frame>, g: seq<Frame>)
  {
    |f| == |g| && forall i :: 0 <= i < |f| ==> f[i].state == g[i].state && f[i].refs == g[i].refs && f[i].share == g[i].share
  }

  lemma InsertHeadChain(f: seq<Frame>, first: nat, l: seq<nat>, x: nat)
    requires Chain(f, first, l) && x < |f| && x !in l && |f| < NIL
    ensures (first != NIL ==> first < |f|) && SameFrames(f, InsertHead(f, first, x))
    ensures var f' := InsertHead(f, first, x);
      |f'| == |f| && forall i :: 0 <= i < |f| ==> f'[i].state == f[i].state && f'[i].refs == f[i].refs && f'[i].share == f[i].share
    ensures Chain(InsertHead(f, first, x), x, [x] + l)
  {
    if l != [] { assert LinkedAt(f, l, 0); }
    var f', l' := InsertHead(f, first, x), [x] + l;
    forall i | 0 <= i < |l'| ensures LinkedAt(f', l', i) {
      if i > 0 {
        assert LinkedAt(f, l, i - 1) && l[i - 1] in l;
      }
    }
  }

  /** A chain is not touched by changes outside it. */
  lemma ChainFrame(f: seq<Frame>, f': seq<Frame>, first: nat, l: seq<nat>)
    requires Chain(f, first, l) && |f'| == |f|
    requires forall x :: x in l && x < |f| ==> f'[x].next == f[x].next && f'[x].prev == f[x].prev
    ensures Chain(f', first, l)
  {
    forall i | 0 <= i < |l| ensures LinkedAt(f', l, i) {
      assert LinkedAt(f, l, i) && l[i] in l;
    }
  }

  lemma Neighbours(f: seq<Frame>, first: nat, l: seq<nat>, k: nat)
    requires Chain(f, first, l) && k < |l| && |f| < NIL
    ensures l[k] < |f|
    ensures f[l[k]].prev == (if k > 0 then l[k - 1] else NIL) && (k > 0 ==> l[k - 1] < |f|)
    ensures f[l[k]].next == (if k + 1 < |l| then l[k + 1] else NIL) && (k + 1 < |l| ==> l[k + 1] < |f|)
  {
    assert LinkedAt(f, l, k);
    if k > 0 { assert LinkedAt(f, l, k - 1); }
    if k + 1 < |l| { assert LinkedAt(f, l, k + 1); }
  }

  lemma UnlinkChain(f: seq<Frame>, first: nat, l: seq<nat>, k: nat)
    requires Chain(f, first, l) && k < |l| && |f| < NIL
    ensures l[k] < |f| && (f[l[k]].prev == NIL || f[l[k]].prev < |f|) && (f[l[k]].next == NIL || f[l[k]].next < |f|)
    ensures SameFrames(f, Unlink(f, l[k]))
    ensures var f' := Unlink(f, l[k]);
      |f'| == |f| && forall i :: 0 <= i < |f| ==> f'[i].state == f[i].state && f'[i].refs == f[i].refs && f'[i].share == f[i].share
    ensures Chain(Unlink(f, l[k]), UnlinkFirst(f, first, l[k]), l[..k] + l[k + 1..])
  {
    Neighbours(f, first, l, k);
    var f', l' := Unlink(f, l[k]), l[..k] + l[k + 1..];
    forall i | 0 <= i < |l'| ensures LinkedAt(f', l', i) {
      UnlinkedAt(f, first, l, k, i);
    }
  }

  lemma UnlinkedAt(f: seq<Frame>, first: nat, l: seq<nat>, k: nat, i: nat)
    requires Chain(f, first, l) && k < |l| && |f| < NIL && i + 1 < |l| && l[k] < |f|
    requires (f[l[k]].prev == NIL || f[l[k]].prev < |f|) && (f[l[k]].next == NIL || f[l[k]].next < |f|)
    ensures LinkedAt(Unlink(f, l[k]), l[..k] + l[k + 1..], i)
  {
    Neighbours(f, first, l, k);
    var l' := l[..k] + l[k + 1..];
    assert l'[i] == (if i < k then l[i] else l[i + 1]) && (i > 0 ==> l'[i - 1] == if i - 1 < k then l[i - 1] else l[i]);
    assert LinkedAt(f, l, if i < k then i else i + 1);
    if k > 0 { assert LinkedAt(f, l, k - 1); }
    if k + 1 < |l| { assert LinkedAt(f, l, k + 1); }
  }

  lemma RestMembers(l: seq<nat>, k: nat)
    requires Distinct(l) && k < |l|
    ensures forall x :: x in l[..k] + l[k + 1..] <==> x in l && x != l[k]
  {
    forall x | x in l && x != l[k] ensures x in l[..k] + l[k + 1..] {
      var i :| 0 <= i < |l| && l[i] == x;
      assert (l[..k] + l[k + 1..])[if i < k then i else i - 1] == x;
    }
  }

  /** A frame put in front of a chain that it is on already: the links form a circle and spell out no list any more. */
  lemma InsertTwice(f: seq<Frame>, first: nat, l: seq<nat>, x: nat, l': seq<nat>)
    requires Chain(f, first, l) && x in l && x < |f| && |f| < NIL
    ensures (first != NIL ==> first < |f|) && !Chain(InsertHead(f, first, x), x, l')
  {
    assert LinkedAt(f, l, 0);
    var f' := InsertHead(f, first, x);
    var k :| 0 <= k < |l| && l[k] == x;
    if k > 0 {
      assert LinkedAt(f, l, k - 1);
      assert f'[l[k - 1]].next == x;
    }
    if Chain(f', x, l') {
      if k > 0 { CircleAt(f, first, l, k, l', k - 1); }
      NoWayBack(f', x, l', k);
    }
  }

  /** No frame of a chain leads to its first frame. */
  lemma NoWayBack(f: seq<Frame>, first: nat, l: seq<nat>, i: nat)
    requires Chain(f, first, l) && first < |f| < NIL
    ensures f[first].prev == NIL && (i < |l| ==> l[i] < |f| && f[l[i]].next != first)
  {
    assert LinkedAt(f, l, 0);
    if i < |l| { assert LinkedAt(f, l, i); }
  }

  /** From such a frame the links lead to the old first frame, and on along the old list. */
  lemma {:induction false} CircleAt(f: seq<Frame>, first: nat, l: seq<nat>, k: nat, l': seq<nat>, j: nat)
    requires Chain(f, first, l) && j < k < |l| && l[k] < |f| < NIL && first < |f|
    requires Chain(InsertHead(f, first, l[k]), l[k], l')
    ensures j + 1 < |l'| && l'[j + 1] == l[j]
  {
    var f' := InsertHead(f, first, l[k]);
    assert LinkedAt(f, l, 0) && LinkedAt(f, l, j) && LinkedAt(f', l', 0);
    if j > 0 {
      CircleAt(f, first, l, k, l', j - 1);
      assert LinkedAt(f, l, j - 1) && LinkedAt(f', l', j);
    }
  }
}
