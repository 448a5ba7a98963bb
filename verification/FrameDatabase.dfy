/** The physical frame database (veakrnl/mm/pip.c) and the reference counting of locked pages
    (MmProbeAndLockPages, MmUnlockPages in veakrnl/mm/mapping.c). */
module FrameDatabase {
  import opened FrameLists

  const PAGE_SIZE := 4096

  function One(b: bool): nat { if b then 1 else 0 }

  /** Who holds a frame: its owner, the lists of locked pages it is on, or the zeroing thread. */
  datatype Holders = Holders(owned: set<nat>, locks: map<nat, nat>, zeroing: set<nat>)

  /** A frame is on the list of its state, and its counts are its holders. */
  ghost predicate FrameOK(f: seq<Frame>, free: seq<nat>, zeroed: seq<nat>, h: Holders, i: nat)
  {
    && i < |f| && i in h.locks
    && (f[i].state.Free? <==> i in free) && (f[i].state.Zeroed? <==> i in zeroed)
    && f[i].refs == One(i in h.owned) + h.locks[i] && f[i].share == One(i in h.owned)
    && (f[i].refs > 0 || i in h.zeroing <==> f[i].state.Active?)
    && (i in h.zeroing ==> f[i].refs == 0)
  }

  ghost predicate DatabaseOK(f: seq<Frame>, firstFree: nat, firstZeroed: nat, free: seq<nat>, zeroed: seq<nat>, h: Holders)
  {
    && 0 < |f| < NIL && f[0].state.Reserved?
    && Chain(f, firstFree, free) && Chain(f, firstZeroed, zeroed)
    && (forall i :: i in h.owned || i in h.zeroing ==> i < |f|) 
    && (forall i :: i in h.locks <==> 0 <= i < |f|)
    && forall i {:trigger FrameOK(f, free, zeroed, h, i)} :: 0 <= i < |f| ==> FrameOK(f, free, zeroed, h, i)
  }

  /** No frame somebody holds, by owning or by locking it, is on either list, and none is on both. */
  lemma HeldNotListed(f: seq<Frame>, firstFree: nat, firstZeroed: nat, free: seq<nat>, zeroed: seq<nat>, h: Holders, x: nat)
    requires DatabaseOK(f, firstFree, firstZeroed, free, zeroed, h)
    ensures x in h.owned || (x in h.locks && h.locks[x] > 0) ==> x !in free && x !in zeroed && x !in h.zeroing
    ensures !(x in free && x in zeroed)
  {
    forall y | y in free || y in zeroed ensures y < |f| {
      if y in free {
        var k :| 0 <= k < |free| && free[k] == y;
        assert LinkedAt(f, free, k);
      } else {
        var k :| 0 <= k < |zeroed| && zeroed[k] == y;
        assert LinkedAt(f, zeroed, k);
      }
    }
    if x < |f| { assert FrameOK(f, free, zeroed, h, x); }
  }

  // ---------------------------------------------------------------- what one frame's change does

  /** Frame x taken from the free list at position k, with new contents. */
  lemma TakeOK(f: seq<Frame>, firstFree: nat, firstZeroed: nat, free: seq<nat>, zeroed: seq<nat>, h: Holders, k: nat,
               f': seq<Frame>, h': Holders, refs: nat, share: nat)
    requires DatabaseOK(f, firstFree, firstZeroed, free, zeroed, h) && k < |free| && free[k] < |f|
    requires (f[free[k]].prev == NIL || f[free[k]].prev < |f|) && (f[free[k]].next == NIL || f[free[k]].next < |f|)
    requires var u := Unlink(f, free[k]); f' == u[free[k] := u[free[k]].(state := Active, refs := refs, share := share)]
    requires if refs == 0 then h' == h.(zeroing := h.zeroing + {free[k]}) && share == 0
             else h' == h.(owned := h.owned + {free[k]}) && refs == 1 && share == 1
    ensures DatabaseOK(f', UnlinkFirst(f, firstFree, free[k]), firstZeroed, free[..k] + free[k + 1..], zeroed, h')
  {
    var x := free[k];
    UnlinkChain(f, firstFree, free, k);
    RestMembers(free, k);
    var free' := free[..k] + free[k + 1..];
    var u := Unlink(f, x);
    assert FrameOK(f, free, zeroed, h, x) && FrameOK(f, free, zeroed, h, 0);
    ChainFrame(u, f', UnlinkFirst(f, firstFree, x), free');
    Untouched(f, firstFree, firstZeroed, free, zeroed, h, k);
    ChainFrame(f, f', firstZeroed, zeroed);
    forall i | 0 <= i < |f'| ensures FrameOK(f', free', zeroed, h', i) {
      assert FrameOK(f, free, zeroed, h, i);
    }
  }

  /** Unlinking a free frame does not touch the links of a zeroed frame. */
  lemma Untouched(f: seq<Frame>, firstFree: nat, firstZeroed: nat, free: seq<nat>, zeroed: seq<nat>, h: Holders, k: nat)
    requires DatabaseOK(f, firstFree, firstZeroed, free, zeroed, h) && k < |free| && free[k] < |f|
    requires (f[free[k]].prev == NIL || f[free[k]].prev < |f|) && (f[free[k]].next == NIL || f[free[k]].next < |f|)
    ensures forall z :: z in zeroed && z < |f| ==> z != free[k] && Unlink(f, free[k])[z] == f[z]
  {
    Neighbours(f, firstFree, free, k);
    forall z | z in zeroed && z < |f| ensures z !in free {
      assert FrameOK(f, free, zeroed, h, z);
    }
  }

  /** Frame x put on the free list when its last reference goes. */
  lemma GiveOK(f: seq<Frame>, firstFree: nat, firstZeroed: nat, free: seq<nat>, zeroed: seq<nat>, h: Holders, x: nat,
               h': Holders, g: seq<Frame>)
    requires DatabaseOK(f, firstFree, firstZeroed, free, zeroed, h) && x < |f| && f[x].state.Active? && x !in h.zeroing
    requires g == f[x := f[x].(state := Free, refs := 0, share := 0)] && (firstFree != NIL ==> firstFree < |g|)
    requires h'.zeroing == h.zeroing && x in h'.locks && h'.locks[x] == 0 && h'.owned == h.owned - {x}
    requires h'.locks.Keys == h.locks.Keys && forall i :: i in h.locks && i != x ==> h'.locks[i] == h.locks[i]
    ensures DatabaseOK(InsertHead(g, firstFree, x), x, firstZeroed, [x] + free, zeroed, h')
  {
    assert FrameOK(f, free, zeroed, h, x) && FrameOK(f, free, zeroed, h, 0);
    ChainFrame(f, g, firstFree, free);
    InsertHeadChain(g, firstFree, free, x);
    var f' := InsertHead(g, firstFree, x);
    forall z | z in zeroed && z < |f| ensures z != x && z !in free {
      assert FrameOK(f, free, zeroed, h, z);
    }
    ChainFrame(f, f', firstZeroed, zeroed);
    forall i | 0 <= i < |f'| ensures FrameOK(f', [x] + free, zeroed, h', i) {
      assert FrameOK(f, free, zeroed, h, i);
    }
  }

  /** A count that changes without reaching zero moves nothing. */
  lemma CountOK(f: seq<Frame>, firstFree: nat, firstZeroed: nat, free: seq<nat>, zeroed: seq<nat>, h: Holders, x: nat,
                h': Holders, f': seq<Frame>)
    requires DatabaseOK(f, firstFree, firstZeroed, free, zeroed, h) && x < |f| && f[x].state.Active? && x !in h.zeroing
    requires |f'| == |f| && f' == f[x := f[x].(refs := f'[x].refs, share := f'[x].share)] && f'[x].refs > 0
    requires h'.zeroing == h.zeroing && x in h'.locks && h'.locks.Keys == h.locks.Keys
    requires f'[x].refs == One(x in h'.owned) + h'.locks[x] && f'[x].share == One(x in h'.owned)
    requires forall i :: i != x ==> (i in h'.owned <==> i in h.owned)
    requires forall i :: i in h.locks && i != x ==> h'.locks[i] == h.locks[i]
    ensures DatabaseOK(f', firstFree, firstZeroed, free, zeroed, h')
  {
    ChainFrame(f, f', firstFree, free);
    ChainFrame(f, f', firstZeroed, zeroed);
    assert FrameOK(f, free, zeroed, h, 0);
    forall i | 0 <= i < |f'| ensures FrameOK(f', free, zeroed, h', i) {
      assert FrameOK(f, free, zeroed, h, i);
    }
  }

  /** A zeroed frame joins the zeroed list. */
  lemma ZeroedOK(f: seq<Frame>, firstFree: nat, firstZeroed: nat, free: seq<nat>, zeroed: seq<nat>, h: Holders, x: nat,
                 g: seq<Frame>)
    requires DatabaseOK(f, firstFree, firstZeroed, free, zeroed, h) && x in h.zeroing && x < |f|
    requires g == f[x := f[x].(state := Zeroed)] && (firstZeroed != NIL ==> firstZeroed < |g|)
    ensures DatabaseOK(InsertHead(g, firstZeroed, x), firstFree, x, free, [x] + zeroed, h.(zeroing := h.zeroing - {x}))
  {
    assert FrameOK(f, free, zeroed, h, x) && FrameOK(f, free, zeroed, h, 0);
    ChainFrame(f, g, firstZeroed, zeroed);
    InsertHeadChain(g, firstZeroed, zeroed, x);
    var f', h' := InsertHead(g, firstZeroed, x), h.(zeroing := h.zeroing - {x});
    forall z | z in free && z < |f| ensures z != x && z !in zeroed {
      assert FrameOK(f, free, zeroed, h, z);
    }
    ChainFrame(f, f', firstFree, free);
    forall i | 0 <= i < |f'| ensures FrameOK(f', free, [x] + zeroed, h', i) {
      assert FrameOK(f, free, zeroed, h, i);
    }
  }

  /** The first list of frames the boot code links: frame x, not linked anywhere yet, goes last. */
  lemma AppendChain(f: seq<Frame>, first: nat, l: seq<nat>, x: nat, f': seq<Frame>)
    requires Chain(f, first, l) && x < |f| < NIL && x !in l && f[x].next == NIL && f[x].prev == NIL
    requires l != [] ==> l[|l| - 1] < |f|
    requires f' == if l == [] then f else
                   f[l[|l| - 1] := f[l[|l| - 1]].(next := x)][x := f[x].(prev := l[|l| - 1])]
    ensures Chain(f', if l == [] then x else first, l + [x]) && SameFrames(f, f')
  {
    var l' := l + [x];
    forall i | 0 <= i < |l'| ensures LinkedAt(f', l', i) {
      if i < |l| { assert LinkedAt(f, l, i) && l[i] in l; }
    }
  }

  /** A run of n free frames starting at s. */
  ghost predicate FreeRun(f: seq<Frame>, s: nat, n: nat)
  {
    s + n <= |f| && forall j :: s <= j < s + n ==> f[j].state.Free?
  }

  /** A run of free frames is one on the free list. */
  lemma RunsListed(f: seq<Frame>, firstFree: nat, firstZeroed: nat, free: seq<nat>, zeroed: seq<nat>, h: Holders, n: nat)
    requires DatabaseOK(f, firstFree, firstZeroed, free, zeroed, h)
    ensures n > 0 ==> forall s: nat :: FreeRun(f, s, n) <==> Frames(s, n) <= set x | x in free
  {
    forall i: nat ensures i in free <==> i < |f| && f[i].state.Free? {
      if i in free {
        var k :| 0 <= k < |free| && free[k] == i;
        assert LinkedAt(f, free, k);
      }
      if i < |f| { assert FrameOK(f, free, zeroed, h, i); }
    }
    if n > 0 {
      forall s: nat ensures FreeRun(f, s, n) <==> Frames(s, n) <= set x | x in free {
        assert s + n - 1 in Frames(s, n);
        if Frames(s, n) <= set x | x in free {
          forall j | s <= j < s + n ensures j < |f| && f[j].state.Free? { assert j in Frames(s, n); }
        }
      }
    }
  }

  ghost function Frames(s: nat, n: nat): (r: set<nat>)
    ensures forall x :: x in r <==> s <= x < s + n
  {
    if n == 0 then {} else Frames(s, n - 1) + {s + n - 1}
  }

  /** No frame locked yet. */
  function Unlocked(n: nat): (r: map<nat, nat>)
    ensures forall x :: x in r <==> 0 <= x < n
    ensures forall x :: x in r ==> r[x] == 0
  {
    if n == 0 then map[] else Unlocked(n - 1)[n - 1 := 0]
  }

  lemma EmptyChain(f: seq<Frame>, first: nat, l: seq<nat>)
    requires Chain(f, first, l) && |f| < NIL
    ensures first == NIL <==> l == []
    ensures l != [] ==> first == l[0] < |f|
  {
    if l != [] { assert LinkedAt(f, l, 0); }
  }

  /** How often frame i is locked by a list of pages. */
  function Locked(pages: seq<nat>, i: nat): nat
  {
    if pages == [] then 0 else Locked(pages[..|pages| - 1], i) + One(pages[|pages| - 1] == i)
  }

  lemma {:induction false} LockedIs(pages: seq<nat>, i: nat)
    ensures Locked(pages, i) == multiset(pages)[i]
  {
    if pages != [] {
      var n := |pages| - 1;
      LockedIs(pages[..n], i);
      assert pages == pages[..n] + [pages[n]];
    }
  }

  /** Frames that are counted up or down as often as they occur in a list. */
  lemma MovedIs(before: Holders, after: Holders, pages: seq<nat>)
    ensures LocksMoved(before, after, pages, true) ==>
      forall x :: x in before.locks ==> x in after.locks && after.locks[x] == before.locks[x] + multiset(pages)[x]
    ensures LocksMoved(before, after, pages, false) ==>
      forall x :: x in before.locks ==> x in after.locks && before.locks[x] == after.locks[x] + multiset(pages)[x]
  {
    forall x | x in before.locks ensures x in before.locks.Keys && Locked(pages, x) == multiset(pages)[x] { LockedIs(pages, x); }
    if LocksMoved(before, after, pages, true) || LocksMoved(before, after, pages, false) {
      forall x | x in before.locks ensures x in after.locks { assert x in after.locks.Keys; }
    }
  }

  /** The database once one more or one less page list counts: what MmUnlockPages undoes. */
  ghost predicate LocksMoved(before: Holders, after: Holders, pages: seq<nat>, more: bool)
  {
    && after.owned == before.owned && after.zeroing == before.zeroing && after.locks.Keys == before.locks.Keys
    && forall i :: i in before.locks ==>
         if more then after.locks[i] == before.locks[i] + Locked(pages, i)
         else before.locks[i] == after.locks[i] + Locked(pages, i)
  }

  /** The database the boot loop leaves. */
  lemma BootOK(f: seq<Frame>, firstFree: nat, free: seq<nat>, h: Holders, usable: seq<bool>)
    requires 0 < |usable| == |f| < NIL && !usable[0] && Chain(f, firstFree, free) && h == Holders({}, Unlocked(|f|), {})
    requires forall x :: x in free <==> 0 <= x < |f| && usable[x]
    requires forall x :: 0 <= x < |f| ==> f[x].state == (if usable[x] then Free else Reserved) && f[x].refs == 0 && f[x].share == 0
    ensures DatabaseOK(f, firstFree, NIL, free, [], h)
  {
    forall x | 0 <= x < |f| ensures FrameOK(f, free, [], h, x) { }
  }

  /** A frame is active exactly while somebody holds it. */
  lemma ActiveIsHeld(f: seq<Frame>, firstFree: nat, firstZeroed: nat, free: seq<nat>, zeroed: seq<nat>, h: Holders)
    requires DatabaseOK(f, firstFree, firstZeroed, free, zeroed, h)
    ensures forall x :: 0 <= x < |f| ==> x in h.locks
    ensures forall x {:trigger f[x]} :: 0 <= x < |f| ==> (f[x].state.Active? <==> x in h.owned || h.locks[x] > 0 || x in h.zeroing)
    ensures forall x :: x in h.owned ==> x < |f|
  {
    forall x {:trigger f[x]} | 0 <= x < |f|
      ensures x in h.locks && (f[x].state.Active? <==> x in h.owned || h.locks[x] > 0 || x in h.zeroing) {
      assert FrameOK(f, free, zeroed, h, x);
    }
  }

  /** Whoever holds a frame of the run, its owner does too. */
  ghost predicate RunOwned(h: Holders, s: nat, n: nat)
  {
    forall x :: x in Frames(s, n) && x in h.locks && (h.locks[x] > 0 || x in h.zeroing) ==> x in h.owned
  }

  lemma RunIsOwned(f: seq<Frame>, firstFree: nat, firstZeroed: nat, free: seq<nat>, zeroed: seq<nat>, h: Holders, s: nat, n: nat)
    requires DatabaseOK(f, firstFree, firstZeroed, free, zeroed, h)
    requires forall x :: x in Frames(s, n) && x < |f| && f[x].state.Active? ==> x in h.owned
    ensures RunOwned(h, s, n)
  {
    ActiveIsHeld(f, firstFree, firstZeroed, free, zeroed, h);
  }

  /** After the first i frames of a run have been released by their owner. */
  ghost predicate Released(h0: Holders, h: Holders, free0: seq<nat>, free: seq<nat>, s: nat, i: nat)
  {
    && h == h0.(owned := h0.owned - Frames(s, i))
    && forall x :: x in free <==> x in free0 || (x in Frames(s, i) && x in h0.owned && x in h0.locks && h0.locks[x] == 0)
  }

  lemma ReleasedOn(h0: Holders, h: Holders, h': Holders, free0: seq<nat>, free: seq<nat>, free': seq<nat>, s: nat, i: nat)
    requires Released(h0, h, free0, free, s, i)
    requires s + i !in h.owned ==> h' == h && free' == free
    requires s + i in h.owned ==>
      && h' == h.(owned := h.owned - {s + i})
      && free' == if s + i in h'.locks && h'.locks[s + i] == 0 then [s + i] + free else free
    ensures Released(h0, h', free0, free', s, i + 1)
  {
    assert Frames(s, i + 1) == Frames(s, i) + {s + i};
    assert h'.owned == h0.owned - Frames(s, i + 1);
  }

  /** The i-th page of a run. */
  lemma PageOn(base: nat, i: nat)
    ensures (base + i * PAGE_SIZE) / PAGE_SIZE == base / PAGE_SIZE + i && (base + i * PAGE_SIZE) % PAGE_SIZE == base % PAGE_SIZE
  {
  }

  /** Memory descriptor list: the frames it holds while locked. */
  class PageList {
    var pages: seq<nat>
    var locked: bool
    var mapped: bool

    constructor () ensures !locked && !mapped && pages == [] { pages, locked, mapped := [], false, false; }
  }

  class Database {
    const frames: array<Frame>
    var firstFree: nat
    var firstZeroed: nat
    ghost var free: seq<nat>
    ghost var zeroed: seq<nat>
    ghost var holders: Holders

    ghost predicate Valid()
      reads this, frames
    {
      DatabaseOK(frames[..], firstFree, firstZeroed, free, zeroed, holders)
    }

    /** MmInitializePip once the map is read: `usable` says which frames are free after the boot reservations. */
    constructor (usable: seq<bool>)
      requires 0 < |usable| < NIL && !usable[0]
      ensures Valid() && fresh(frames) && frames.Length == |usable|
      ensures forall i :: 0 <= i < |usable| ==> (i in free <==> usable[i])
      ensures forall i, j :: 0 <= i < j < |free| ==> free[i] < free[j]
      ensures zeroed == [] && holders.owned == {} && holders.zeroing == {}
      ensures forall i :: 0 <= i < |usable| ==> i in holders.locks && holders.locks[i] == 0
    {
      frames := new Frame[|usable|](i requires 0 <= i < |usable| =>
        Frame(if usable[i] then Free else Reserved, 0, 0, NIL, NIL));
      firstFree, firstZeroed := NIL, NIL;
      zeroed := [];
      holders := Holders({}, Unlocked(|usable|), {});
      new;
      LinkFree(usable);
    }

    /** The boot loop that threads the free frames in ascending order. */
    method LinkFree(usable: seq<bool>)
      requires 0 < |usable| == frames.Length < NIL && !usable[0] && firstFree == firstZeroed == NIL && zeroed == []
      requires holders == Holders({}, Unlocked(|usable|), {})
      requires forall x :: 0 <= x < frames.Length ==>
        frames[x] == Frame(if usable[x] then Free else Reserved, 0, 0, NIL, NIL)
      modifies this`firstFree, this`free, frames
      ensures Valid()
      ensures forall x :: 0 <= x < |usable| ==> (x in free <==> usable[x])
      ensures forall a, b :: 0 <= a < b < |free| ==> free[a] < free[b]
    {
      free := [];
      var i, last := 0, NIL;
      while i < frames.Length
        invariant 0 <= i <= frames.Length
        invariant Chain(frames[..], firstFree, free) && last == (if free == [] then NIL else free[|free| - 1])
        invariant forall x :: x in free <==> 0 <= x < i && usable[x]
        invariant forall a, b :: 0 <= a < b < |free| ==> free[a] < free[b]
        invariant forall x :: 0 <= x < frames.Length ==>
          frames[x].state == (if usable[x] then Free else Reserved) && frames[x].refs == 0 && frames[x].share == 0
        invariant forall x :: i <= x < frames.Length ==> frames[x].next == NIL && frames[x].prev == NIL
      {
        if frames[i].state.Free? {
          assert free != [] ==> free[|free| - 1] in free;
          LinkLast(i, last);
          last := i;
        }
        i := i + 1;
      }
      BootOK(frames[..], firstFree, free, holders, usable);
    }

    /** One more frame goes behind the last. */
    method LinkLast(i: nat, last: nat)
      requires i < frames.Length < NIL && i !in free && frames[i].next == NIL && frames[i].prev == NIL
      requires Chain(frames[..], firstFree, free) && last == (if free == [] then NIL else free[|free| - 1])
      modifies this`firstFree, this`free, frames
      ensures free == old(free) + [i] && Chain(frames[..], firstFree, free)
      ensures SameFrames(old(frames[..]), frames[..])
      ensures forall x :: 0 <= x < frames.Length && x != i && x !in old(free) ==> frames[x] == old(frames[x])
    {
      ghost var f, first := frames[..], firstFree;
      EmptyChain(f, firstFree, free);
      if free != [] { assert LinkedAt(f, free, |free| - 1); }
      if firstFree == NIL {
        firstFree := i;
        frames[i] := frames[i].(prev := NIL);
      } else {
        frames[last] := frames[last].(next := i);
        frames[i] := frames[i].(prev := last);
      }
      AppendChain(f, first, free, i, frames[..]);
      free := free + [i];
    }

    /** MmpUnlinkFreePage. */
    method Pull(x: nat)
      requires x < frames.Length < NIL
      requires frames[x].prev == NIL || frames[x].prev < frames.Length
      requires frames[x].next == NIL || frames[x].next < frames.Length
      modifies frames, this`firstFree
      ensures frames[..] == Unlink(old(frames[..]), x)
      ensures firstFree == UnlinkFirst(old(frames[..]), old(firstFree), x)
    {
      var n, p := frames[x].next, frames[x].prev;
      if p != NIL {
        frames[p] := frames[p].(next := n);
      } else {
        firstFree := n;
      }
      if n != NIL {
        frames[n] := frames[n].(prev := p);
      }
      frames[x] := frames[x].(next := NIL);
      frames[x] := frames[x].(prev := NIL);
    }

    /** MmpInsertFreePageHead. */
    method PushFree(x: nat)
      requires x < frames.Length && (firstFree != NIL ==> firstFree < frames.Length)
      modifies frames, this`firstFree
      ensures frames[..] == InsertHead(old(frames[..]), old(firstFree), x) && firstFree == x
    {
      frames[x] := frames[x].(next := firstFree);
      frames[x] := frames[x].(prev := NIL);
      if firstFree != NIL {
        frames[firstFree] := frames[firstFree].(prev := x);
      }
      firstFree := x;
    }

    /** MmpInsertZeroedPageHead. */
    method PushZeroed(x: nat)
      requires x < frames.Length && (firstZeroed != NIL ==> firstZeroed < frames.Length)
      modifies frames, this`firstZeroed
      ensures frames[..] == InsertHead(old(frames[..]), old(firstZeroed), x) && firstZeroed == x
    {
      frames[x] := frames[x].(next := firstZeroed);
      frames[x] := frames[x].(prev := NIL);
      if firstZeroed != NIL {
        frames[firstZeroed] := frames[firstZeroed].(prev := x);
      }
      firstZeroed := x;
    }

    /** Frame x leaves place k of the free list, for its owner (`owner`) or for the zeroing thread. */
    method TakeFrame(x: nat, ghost k: nat, owner: bool)
      requires Valid() && k < |free| && free[k] == x
      modifies this`firstFree, this`free, this`holders, frames
      ensures Valid() && free == old(free)[..k] + old(free)[k + 1..]
      ensures x < frames.Length && frames[x].state.Active?
      ensures holders == if owner then old(holders).(owned := old(holders.owned) + {x})
                         else old(holders).(zeroing := old(holders.zeroing) + {x})
      ensures forall i :: 0 <= i < frames.Length && i != x ==> frames[i].state == old(frames[i].state)
    {
      ghost var f, h, first := frames[..], holders, firstFree;
      UnlinkChain(f, firstFree, free, k);
      assert FrameOK(f, free, zeroed, holders, x);
      Pull(x);
      frames[x] := frames[x].(state := Active);
      if owner {
        frames[x] := frames[x].(refs := 1, share := 1);
        holders := holders.(owned := holders.owned + {x});
      } else {
        holders := holders.(zeroing := holders.zeroing + {x});
      }
      TakeOK(f, first, firstZeroed, free, zeroed, h, k, frames[..], holders, One(owner), One(owner));
      free := free[..k] + free[k + 1..];
    }

    /** Frame x, its counts now gone, joins the free list. */
    method GiveFrame(x: nat, ghost h': Holders)
      requires Valid() && x < frames.Length && frames[x].state.Active? && x !in holders.zeroing
      requires h'.zeroing == holders.zeroing && x in h'.locks && h'.locks[x] == 0 && h'.owned == holders.owned - {x}
      requires h'.locks.Keys == holders.locks.Keys
      requires forall i :: i in holders.locks && i != x ==> h'.locks[i] == holders.locks[i]
      modifies this`firstFree, this`free, this`holders, frames
      ensures Valid() && free == [x] + old(free) && holders == h'
    {
      ghost var f, first, h := frames[..], firstFree, holders;
      if free != [] { assert LinkedAt(f, free, 0); }
      frames[x] := frames[x].(state := Free, refs := 0, share := 0);
      ghost var g := frames[..];
      PushFree(x);
      GiveOK(f, first, firstZeroed, free, zeroed, h, x, h', g);
      free := [x] + free;
      holders := h';
    }

    /** MmAllocatePhysicalPage: address 0 stands for "none". */
    method AllocatePage() returns (address: nat)
      requires Valid()
      modifies this`firstFree, this`free, this`holders, frames
      ensures Valid() && (address == 0 <==> old(free) == [])
      ensures address == 0 ==> holders == old(holders) && free == old(free) && frames[..] == old(frames[..])
      ensures address != 0 ==> address == old(free)[0] * 4096 && free == old(free)[1..]
      ensures address != 0 ==> holders == old(holders).(owned := old(holders.owned) + {old(free)[0]})
      ensures address != 0 ==> old(free)[0] !in old(holders.owned)
    {
      EmptyChain(frames[..], firstFree, free);
      if firstFree == NIL {
        return 0;
      }
      var x := firstFree;
      assert FrameOK(frames[..], free, zeroed, holders, 0);
      assert x < frames.Length && FrameOK(frames[..], free, zeroed, holders, x);
      assert frames[x].state.Free?;
      TakeFrame(x, 0, true);
      assert old(free)[..0] + old(free)[1..] == old(free)[1..];
      return x * PAGE_SIZE;
    }

    /** MmFreePhysicalPage: the owner's release; the last holder to let go puts the frame on the free list. The database
        survives exactly when the frame is not active or has its owner. */
    method FreePage(address: nat) returns (freed: bool)
      requires Valid()
      modifies this`firstFree, this`free, this`holders, frames
      ensures Valid() <==> !(address % 4096 == 0 && address / 4096 < frames.Length
                             && old(frames[..])[address / 4096].state.Active? && address / 4096 !in old(holders.owned))
      ensures (address % 4096 != 0 || address / 4096 >= frames.Length
               || !old(frames[..])[address / 4096].state.Active?) ==>
        !freed && holders == old(holders) && free == old(free) && frames[..] == old(frames[..])
      ensures address % 4096 == 0 && address / 4096 in old(holders.owned) ==>
        && holders == old(holders).(owned := old(holders.owned) - {address / 4096})
        && (freed <==> address / 4096 in holders.locks && holders.locks[address / 4096] == 0)
        && free == if freed then [address / 4096] + old(free) else old(free)
    {
      freed := false;
      var x := address / PAGE_SIZE;
      ActiveIsHeld(frames[..], firstFree, firstZeroed, free, zeroed, holders);
      if address % PAGE_SIZE != 0 || x >= frames.Length { return; }
      if frames[x].state != Active { return; }
      if frames[x].share > 0 {
        freed := ReleaseOwned(x);
      } else {
        freed := ReleaseOther(x);
      }
    }

    /** The owner lets go. */
    method ReleaseOwned(x: nat) returns (freed: bool)
      requires Valid() && x < frames.Length && frames[x].state.Active? && frames[x].share > 0
      modifies this`firstFree, this`free, this`holders, frames
      ensures Valid() && x in old(holders.owned) && holders == old(holders).(owned := old(holders.owned) - {x})
      ensures freed <==> x in holders.locks && holders.locks[x] == 0
      ensures free == if freed then [x] + old(free) else old(free)
    {
      freed := false;
      assert FrameOK(frames[..], free, zeroed, holders, x);
      ghost var f, h, h' := frames[..], holders, holders.(owned := holders.owned - {x});
      if frames[x].refs > 1 {
        frames[x] := frames[x].(share := frames[x].share - 1, refs := frames[x].refs - 1);
        CountOK(f, firstFree, firstZeroed, free, zeroed, h, x, h', frames[..]);
        holders := h';
      } else {
        GiveFrame(x, h');
        freed := true;
      }
    }

    /** The same code on an active frame that has no owner: it takes a lock's reference away, or frees a frame that is
        being zeroed. */
    method ReleaseOther(x: nat) returns (freed: bool)
      requires Valid() && x < frames.Length && frames[x].state.Active? && frames[x].share == 0
      modifies this`firstFree, frames
      ensures !Valid() && x !in holders.owned
    {
      assert FrameOK(frames[..], free, zeroed, holders, x);
      EmptyChain(frames[..], firstFree, free);
      if frames[x].refs > 0 {
        frames[x] := frames[x].(refs := frames[x].refs - 1);
      }
      freed := frames[x].refs == 0;
      if freed {
        frames[x] := frames[x].(state := Free);
        ghost var state := frames[x].state;
        PushFree(x);
      }
      assert !FrameOK(frames[..], free, zeroed, holders, x);
    }

    /** The least that counting needs: every frame has a place in the ledger, and the list starts somewhere. */
    ghost predicate Sized()
      reads this, frames
    {
      (forall i :: i in holders.locks <==> 0 <= i < frames.Length) && (firstFree != NIL ==> firstFree < frames.Length)
    }

    lemma ValidSized()
      requires Valid()
      ensures Sized()
    {
      EmptyChain(frames[..], firstFree, free);
    }

    /** MmReferencePhysicalPage. It does not look at the frame: the database survives exactly when somebody holds it. */
    method Reference(address: nat)
      requires Sized()
      modifies this`holders, frames
      ensures Sized()
      ensures old(Valid()) ==> (Valid() <==> address / 4096 >= frames.Length || old(frames[..])[address / 4096].refs > 0)
      ensures address / 4096 < frames.Length ==>
        && LocksMoved(old(holders), holders, [address / 4096], true)
        && holders == old(holders).(locks := old(holders.locks)[address / 4096 := old(holders.locks)[address / 4096] + 1])
        && frames[..] == Raised(old(frames[..]), address / 4096)
      ensures address / 4096 >= frames.Length ==> holders == old(holders) && frames[..] == old(frames[..])
    {
      var x := address / PAGE_SIZE;
      if x >= frames.Length { return; }
      ghost var f, h := frames[..], holders;
      frames[x] := frames[x].(refs := frames[x].refs + 1);
      holders := holders.(locks := holders.locks[x := holders.locks[x] + 1]);
      if DatabaseOK(f, firstFree, firstZeroed, free, zeroed, h) { RaisedOK(f, firstFree, firstZeroed, free, zeroed, h, x); }
    }

    /** MmDereferencePhysicalPage: one lock less; the last holder puts the frame on the free list. A frame that nobody has
        counted is left alone. A right database stays so exactly when there is such a lock, or nothing to take. */
    method Dereference(address: nat)
      requires Sized()
      modifies this`firstFree, this`free, this`holders, frames
      ensures old(Valid()) ==> (Valid() <==> address / 4096 >= frames.Length || old(holders.locks)[address / 4096] > 0
                                             || old(frames[..])[address / 4096].refs == 0)
      ensures old(Valid()) && address / 4096 < frames.Length && old(holders.locks)[address / 4096] > 0 ==>
        && LocksMoved(old(holders), holders, [address / 4096], false)
        && free == if holders.locks[address / 4096] == 0 && address / 4096 !in holders.owned
                   then [address / 4096] + old(free) else old(free)
      ensures address / 4096 >= frames.Length || old(frames[..])[address / 4096].refs == 0 ==>
        holders == old(holders) && free == old(free) && frames[..] == old(frames[..])
      // whatever the database
      ensures address / 4096 < frames.Length ==>
        && frames[..] == Dropped(old(frames[..]), old(firstFree), address / 4096)
        && (old(frames[..])[address / 4096].refs > 0 ==> holders == Let(old(holders), address / 4096))
        && firstFree == (if old(frames[..])[address / 4096].refs == 1 then address / 4096 else old(firstFree))
        && free == (if old(frames[..])[address / 4096].refs == 1 then [address / 4096] + old(free) else old(free))
    {
      var x := address / PAGE_SIZE;
      if x >= frames.Length { return; }
      ghost var f, first, l, h := frames[..], firstFree, free, holders;
      if frames[x].refs > 0 {
        frames[x] := frames[x].(refs := frames[x].refs - 1);
        if frames[x].refs == 0 {
          frames[x] := frames[x].(share := 0);
          frames[x] := frames[x].(state := Free);
          PushFree(x);
          free := [x] + free;
        }
        holders := Let(holders, x);
      }
      assert frames[..] == Dropped(f, first, x);
      if DatabaseOK(f, first, firstZeroed, l, zeroed, h) {
        if h.locks[x] > 0 { LetMoves(h, x); }
        DroppedOK(f, first, firstZeroed, l, zeroed, h, x);
      }
    }

    /** Locking a frame and unlocking it again puts everything back exactly when somebody held the frame. Otherwise the
        frame joins the free list: a reserved one can be allocated from then on, and with a free one the list becomes a
        circle. */
    method LockUnlock(address: nat)
      requires Valid() && address / 4096 < frames.Length
      modifies this`firstFree, this`free, this`holders, frames
      ensures holders == old(holders)
      ensures old(frames[..])[address / 4096].refs > 0 <==> frames[..] == old(frames[..]) && firstFree == old(firstFree)
      ensures old(frames[..])[address / 4096].refs > 0 ==> Valid() && free == old(free)
      ensures old(frames[..])[address / 4096].refs == 0 ==>
        && free == [address / 4096] + old(free) && frames[address / 4096].state.Free?
        && (Valid() <==> old(frames[..])[address / 4096].state.Reserved? && address / 4096 != 0)
        && (old(frames[..])[address / 4096].state.Free? ==> forall l :: !Chain(frames[..], firstFree, l))
    {
      var x := address / PAGE_SIZE;
      ghost var f, first, l, h := frames[..], firstFree, free, holders;
      ValidSized();
      Reference(address);
      Dereference(address);
      LetRaised(h, x);
      Relocked(f, first, x);
      if f[x].refs == 0 { RelistedOK(f, first, firstZeroed, l, zeroed, h, x); }
    }

    /** The first critical section of the zeroing thread: a free frame is taken, still uncounted. */
    method BeginZeroing() returns (taken: bool, x: nat)
      requires Valid()
      modifies this`firstFree, this`free, this`holders, frames
      ensures Valid() && (taken <==> old(free) != [])
      ensures !taken ==> holders == old(holders) && free == old(free)
      ensures taken ==> x == old(free)[0] && free == old(free)[1..]
      ensures taken ==> holders == old(holders).(zeroing := old(holders.zeroing) + {x})
    {
      taken, x := false, 0;
      EmptyChain(frames[..], firstFree, free);
      if firstFree == NIL {
        return;
      }
      x := firstFree;
      TakeFrame(x, 0, false);
      taken := true;
      assert old(free)[..0] + old(free)[1..] == old(free)[1..];
    }

    /** The second one: the frame, now zero, joins the zeroed list. */
    method EndZeroing(x: nat)
      requires Valid() && x in holders.zeroing
      modifies this`firstZeroed, this`zeroed, this`holders, frames
      ensures Valid() && zeroed == [x] + old(zeroed)
      ensures holders == old(holders).(zeroing := old(holders.zeroing) - {x})
    {
      ghost var f, h, first := frames[..], holders, firstZeroed;
      if zeroed != [] { assert LinkedAt(f, zeroed, 0); }
      frames[x] := frames[x].(state := Zeroed);
      ghost var g := frames[..];
      PushZeroed(x);
      ZeroedOK(f, firstFree, first, free, zeroed, h, x, g);
      zeroed := [x] + zeroed;
      holders := holders.(zeroing := holders.zeroing - {x});
    }

    /** MmAllocateContiguousPhysicalPages: the lowest run of n free frames, or 0 exactly when there is none. */
    method AllocateContiguous(n: nat) returns (address: nat)
      requires Valid()
      modifies this`firstFree, this`free, this`holders, frames
      ensures Valid()
      ensures address % 4096 == 0
      ensures address == 0 <==> n == 0 || forall s: nat :: !(Frames(s, n) <= set x | x in old(free))
      ensures address == 0 ==> holders == old(holders) && free == old(free) && frames[..] == old(frames[..])
      ensures address != 0 ==> Frames(address / 4096, n) <= set x | x in old(free)
      ensures address != 0 ==> forall s: nat :: s < address / 4096 ==> !(Frames(s, n) <= set x | x in old(free))
      ensures address != 0 ==> forall x :: x in free <==>
        x in old(free) && !(address / 4096 <= x < address / 4096 + n)
      ensures address != 0 ==> holders == old(holders).(owned := old(holders.owned) + Frames(address / 4096, n))
    {
      address := FirstRun(n);
      RunsListed(old(frames[..]), old(firstFree), firstZeroed, old(free), zeroed, old(holders), n);
    }

    /** The scan for the first run long enough. */
    method FirstRun(n: nat) returns (address: nat)
      requires Valid()
      modifies this`firstFree, this`free, this`holders, frames
      ensures Valid() && address % PAGE_SIZE == 0
      ensures address == 0 <==> n == 0 || forall s :: 0 <= s <= frames.Length ==> !FreeRun(old(frames[..]), s, n)
      ensures address == 0 ==> holders == old(holders) && free == old(free) && frames[..] == old(frames[..])
      ensures address != 0 ==> FreeRun(old(frames[..]), address / PAGE_SIZE, n)
      ensures address != 0 ==> forall s :: 0 <= s < address / PAGE_SIZE ==> !FreeRun(old(frames[..]), s, n)
      ensures address != 0 ==> forall x :: x in free <==>
        x in old(free) && !(address / PAGE_SIZE <= x < address / PAGE_SIZE + n)
      ensures address != 0 ==> holders == old(holders).(owned := old(holders.owned) + Frames(address / PAGE_SIZE, n))
    {
      if n == 0 { return 0; }
      var found, start, i := 0, NIL, 0;
      ghost var f := frames[..];
      while i < frames.Length
        invariant 0 <= i <= frames.Length && found < n && frames[..] == f && found <= i
        invariant found > 0 ==> start == i - found
        invariant forall j :: i - found <= j < i ==> f[j].state.Free?
        invariant found == i || !f[i - found - 1].state.Free?
        invariant forall s :: 0 <= s && s + n <= i ==> !FreeRun(f, s, n)
        invariant Valid() && holders == old(holders) && free == old(free) && firstFree == old(firstFree)
      {
        if frames[i].state.Free? {
          if found == 0 { start := i; }
          found := found + 1;
          if found == n {
            assert FrameOK(f, free, zeroed, holders, 0);
            assert FreeRun(f, start, n);
            forall s | 0 <= s < start ensures !FreeRun(f, s, n) {
              if s + n == i + 1 {} else { assert s + n <= i; }
            }
            TakeRun(start, n);
            return start * PAGE_SIZE;
          }
          forall s | 0 <= s && s + n <= i + 1 ensures !FreeRun(f, s, n) {
            if s + n == i + 1 { assert !f[i - found].state.Free?; }
          }
        } else {
          found, start := 0, NIL;
        }
        i := i + 1;
      }
      assert forall s :: 0 <= s <= frames.Length ==> !FreeRun(f, s, n);
      return 0;
    }

    /** Every frame of a free run leaves the free list for its new owner. */
    method TakeRun(s: nat, n: nat)
      requires Valid() && FreeRun(frames[..], s, n)
      modifies this`firstFree, this`free, this`holders, frames
      ensures Valid() && holders == old(holders).(owned := old(holders.owned) + Frames(s, n))
      ensures forall x :: x in free <==> x in old(free) && !(s <= x < s + n)
    {
      var j := s;
      ghost var owned := holders.owned;
      while j < s + n
        invariant s <= j <= s + n && Valid()
        invariant forall x :: x in free <==> x in old(free) && !(s <= x < j)
        invariant holders == old(holders).(owned := owned + Frames(s, j - s))
        invariant forall x :: j <= x < s + n ==> frames[x].state.Free?
      {
        assert FrameOK(frames[..], free, zeroed, holders, j);
        ghost var k :| 0 <= k < |free| && free[k] == j;
        ghost var was := free;
        RestMembers(was, k);
        TakeFrame(j, k, true);
        assert forall x :: x in free <==> x in was && x != j;
        assert Frames(s, j + 1 - s) == Frames(s, j - s) + {j};
        assert owned + Frames(s, j - s) + {j} == owned + Frames(s, j + 1 - s);
        j := j + 1;
      }
    }

    /** MmFreeContiguousPhysicalPages: each frame of the run that the caller owns is released; frames of the run that are
        not active, and addresses without a frame, are passed over, and so is the whole run when it is not aligned. */
    method FreeContiguous(base: nat, n: nat)
      requires Valid()
      requires base % 4096 == 0 ==>
        forall x :: x in Frames(base / 4096, n) && x < frames.Length && frames[x].state.Active? ==> x in holders.owned
      modifies this`firstFree, this`free, this`holders, frames
      ensures Valid() && (base % 4096 != 0 ==> holders == old(holders) && free == old(free) && frames[..] == old(frames[..]))
      ensures base % 4096 == 0 ==> holders == old(holders).(owned := old(holders.owned) - Frames(base / 4096, n))
      ensures base % 4096 == 0 ==>
        forall x :: x in free <==> x in old(free) || (x in Frames(base / 4096, n) && x in old(holders.owned)
                                                      && x in holders.locks && holders.locks[x] == 0)
    {
      var i, address := 0, base;
      ghost var s, h0, free0 := base / PAGE_SIZE, holders, free;
      if base % PAGE_SIZE == 0 { RunIsOwned(frames[..], firstFree, firstZeroed, free, zeroed, holders, s, n); }
      while i < n
        invariant 0 <= i <= n && Valid() && address == base + i * PAGE_SIZE
        invariant base % PAGE_SIZE != 0 ==> holders == old(holders) && free == old(free) && frames[..] == old(frames[..])
        invariant base % PAGE_SIZE == 0 ==> Released(h0, holders, free0, free, s, i)
      {
        PageOn(base, i);
        FreeNext(address, s, i, n, h0, free0);
        address := address + PAGE_SIZE;
        i := i + 1;
      }
    }

    /** One page of the run. */
    method FreeNext(address: nat, ghost s: nat, ghost i: nat, ghost n: nat, ghost h0: Holders, ghost free0: seq<nat>)
      requires Valid()
      requires address % PAGE_SIZE == 0 ==>
        address / PAGE_SIZE == s + i && i < n && RunOwned(h0, s, n) && Released(h0, holders, free0, free, s, i)
      modifies this`firstFree, this`free, this`holders, frames
      ensures Valid() && (address % PAGE_SIZE == 0 ==> Released(h0, holders, free0, free, s, i + 1))
      ensures address % PAGE_SIZE != 0 ==> holders == old(holders) && free == old(free) && frames[..] == old(frames[..])
    {
      ghost var h, l := holders, free;
      ActiveIsHeld(frames[..], firstFree, firstZeroed, free, zeroed, holders);
      var freed := FreePage(address);
      if address % PAGE_SIZE == 0 { ReleasedOn(h0, h, holders, free0, l, free, s, i); }
    }

    /** MmProbeAndLockPages: the frames behind the list's pages, each already present, are referenced in turn. The database
        survives exactly when somebody holds each of them. */
    method LockPages(mdl: PageList, present: seq<nat>)
      requires Valid() && !mdl.locked
      modifies mdl, this`holders, frames
      ensures Valid() <==> AllHeld(old(frames[..]), present)
      ensures mdl.locked && mdl.mapped == old(mdl.mapped) && mdl.pages == present
      ensures LocksMoved(old(holders), holders, present, true)
      // each frame is counted up once for each time it is among the pages
      ensures holders.owned == old(holders).owned && holders.zeroing == old(holders).zeroing && free == old(free)
      ensures forall x :: x in old(holders).locks ==>
        x in holders.locks && holders.locks[x] == old(holders).locks[x] + multiset(present)[x]
      ensures forall x :: 0 <= x < frames.Length ==>
        frames[x] == old(frames[..])[x].(refs := old(frames[..])[x].refs + multiset(present)[x])
    {
      ghost var f0, h0 := frames[..], holders;
      LockAll(mdl, present);
      MovedIs(h0, holders, present);
      RaisedIs(f0, frames[..], present);
    }

    /** The loop over the pages. */
    method LockAll(mdl: PageList, present: seq<nat>)
      requires Valid() && !mdl.locked
      modifies mdl, this`holders, frames
      ensures Valid() <==> AllHeld(old(frames[..]), present)
      ensures mdl.locked && mdl.mapped == old(mdl.mapped) && mdl.pages == present
      ensures LocksMoved(old(holders), holders, present, true) && RaisedBy(old(frames[..]), frames[..], present)
    {
      mdl.pages := [];
      NoneLocked();
      var i := 0;
      ghost var f0, h0 := frames[..], holders;
      while i < |present|
        invariant 0 <= i <= |present| && mdl.mapped == old(mdl.mapped) && mdl.pages == present[..i]
        invariant Locking(f0, h0, present[..i])
      {
        NextPage(mdl, present, i, f0, h0);
        i := i + 1;
      }
      assert present[..i] == present;
      mdl.locked := true;
    }

    /** The first pages have been locked. */
    ghost predicate Locking(f0: seq<Frame>, h0: Holders, pages: seq<nat>)
      reads this, frames
    {
      && Sized() && LocksMoved(h0, holders, pages, true) && RaisedBy(f0, frames[..], pages)
      && DatabaseOK(f0, firstFree, firstZeroed, free, zeroed, h0) && (Valid() <==> AllHeld(f0, pages))
    }

    lemma NoneLocked()
      requires Valid()
      ensures Locking(frames[..], holders, [])
    {
      ValidSized();
    }

    /** A page is locked and noted in the list. */
    method NextPage(mdl: PageList, present: seq<nat>, i: nat, ghost f0: seq<Frame>, ghost h0: Holders)
      requires i < |present| && mdl.pages == present[..i] && Locking(f0, h0, present[..i])
      modifies mdl`pages, this`holders, frames
      ensures mdl.pages == present[..i + 1] && Locking(f0, h0, present[..i + 1])
    {
      mdl.pages := mdl.pages + [present[i]];
      assert present[..i + 1] == present[..i] + [present[i]];
      LockPage(present, i, f0, h0);
    }

    /** One page of the list. */
    method LockPage(present: seq<nat>, i: nat, ghost f0: seq<Frame>, ghost h0: Holders)
      requires i < |present| && Locking(f0, h0, present[..i])
      modifies this`holders, frames
      ensures Locking(f0, h0, present[..i + 1])
    {
      ghost var h, f := holders, frames[..];
      assert present[i] * PAGE_SIZE / PAGE_SIZE == present[i];
      HeldStep(f0, f, present, i);
      Reference(present[i] * PAGE_SIZE);
      LockedStep(h0, h, holders, present, i, frames.Length, true);
      RaisedOn(f0, f, frames[..], present, i);
      if !AllHeld(f0, present[..i + 1]) {
        UnheldLocked(f0, frames[..], firstFree, firstZeroed, free, zeroed, h0, holders, present[..i + 1]);
      }
    }

    method UnlockPage(pages: seq<nat>, i: nat, ghost h0: Holders)
      requires Valid() && i < |pages| && LocksMoved(h0, holders, pages[..i], false)
      requires forall k :: k in h0.locks ==> h0.locks[k] >= Locked(pages, k)
      modifies this`firstFree, this`free, this`holders, frames
      ensures Valid() && LocksMoved(h0, holders, pages[..i + 1], false)
      ensures forall x :: x in holders.locks <==> x in old(holders).locks
      ensures forall x :: x in holders.locks && x != pages[i] ==> holders.locks[x] == old(holders).locks[x]
      ensures holders.owned == old(holders).owned
      ensures free == if pages[i] in holders.locks && holders.locks[pages[i]] == 0 && pages[i] !in holders.owned
                         && pages[i] < frames.Length
                      then [pages[i]] + old(free) else old(free)
      ensures pages[i] in holders.locks ==> pages[i] in old(holders).locks && old(holders).locks[pages[i]] > 0
    {
      ghost var h := holders;
      assert pages[i] * PAGE_SIZE / PAGE_SIZE == pages[i];
      LockedMore(pages, i + 1);
      if pages[i] < frames.Length { assert FrameOK(frames[..], free, zeroed, holders, pages[i]); }
      ValidSized();
      Dereference(pages[i] * PAGE_SIZE);
      LockedStep(h0, h, holders, pages, i, frames.Length, false);
      MovedElsewhere(h, holders, pages[i], frames.Length);
    }

    /** MmUnlockPages: takes back exactly what locking added; frames nobody else holds become free. */
    method UnlockPages(mdl: PageList)
      requires Valid() && mdl.locked && !mdl.mapped
      requires forall i :: i in holders.locks ==> holders.locks[i] >= Locked(mdl.pages, i)
      modifies mdl, this`firstFree, this`free, this`holders, frames
      ensures Valid() && !mdl.locked && mdl.pages == old(mdl.pages)
      ensures LocksMoved(old(holders), holders, mdl.pages, false)
      ensures forall x :: x in old(holders).locks ==>
        x in holders.locks && old(holders).locks[x] == holders.locks[x] + multiset(mdl.pages)[x]
      ensures holders.owned == old(holders).owned && holders.zeroing == old(holders).zeroing
      ensures forall x :: x in free <==>
        x in old(free)
        || (x in mdl.pages && x < frames.Length && x in holders.locks && holders.locks[x] == 0 && x !in holders.owned)
    {
      var i, pages := 0, mdl.pages;
      ghost var free0, h0 := free, holders;
      while i < |pages|
        invariant 0 <= i <= |pages| && Valid() && mdl.pages == pages == old(mdl.pages)
        invariant LocksMoved(h0, holders, pages[..i], false) && Freed(free0, free, pages[..i], holders, frames.Length)
      {
        ghost var h, was := holders, free;
        UnlockPage(pages, i, h0);
        FreedStep(free0, was, free, pages, i, h, holders, frames.Length);
        i := i + 1;
      }
      assert pages[..i] == pages;
      mdl.locked := false;
      MovedIs(h0, holders, pages);
    }
  }

  // ---------------------------------------------------------------- counting a frame up and down

  function Raised(f: seq<Frame>, x: nat): seq<Frame>
    requires x < |f|
  {
    f[x := f[x].(refs := f[x].refs + 1)]
  }

  lemma RaisedOK(f: seq<Frame>, firstFree: nat, firstZeroed: nat, free: seq<nat>, zeroed: seq<nat>, h: Holders, x: nat)
    requires DatabaseOK(f, firstFree, firstZeroed, free, zeroed, h) && x < |f|
    ensures x in h.locks
    ensures DatabaseOK(Raised(f, x), firstFree, firstZeroed, free, zeroed, h.(locks := h.locks[x := h.locks[x] + 1]))
      <==> f[x].refs > 0
  {
    var f', h' := Raised(f, x), h.(locks := h.locks[x := h.locks[x] + 1]);
    assert FrameOK(f, free, zeroed, h, x);
    if f[x].refs > 0 {
      CountOK(f, firstFree, firstZeroed, free, zeroed, h, x, h', f');
    } else {
      assert !FrameOK(f', free, zeroed, h', x);
    }
  }

  /** A reference taken back. */
  function Dropped(f: seq<Frame>, first: nat, x: nat): seq<Frame>
    requires x < |f| && (first != NIL ==> first < |f|)
  {
    if f[x].refs == 0 then f
    else if f[x].refs > 1 then f[x := f[x].(refs := f[x].refs - 1)]
    else InsertHead(f[x := f[x].(state := Free, refs := 0, share := 0)], first, x)
  }

  /** One lock of x less, if there is one. */
  function Let(h: Holders, x: nat): Holders {
    if x in h.locks && h.locks[x] > 0 then h.(locks := h.locks[x := h.locks[x] - 1]) else h
  }

  lemma LetRaised(h: Holders, x: nat)
    requires x in h.locks
    ensures Let(h.(locks := h.locks[x := h.locks[x] + 1]), x) == h
  {
    assert h.locks[x := h.locks[x] + 1][x := h.locks[x]] == h.locks;
  }

  lemma LetMoves(h: Holders, x: nat)
    requires x in h.locks && h.locks[x] > 0
    ensures LocksMoved(h, Let(h, x), [x], false)
  {
    forall i ensures Locked([x], i) == One(x == i) { assert Locked([x], i) == Locked([x][..0], i) + One([x][0] == i); }
  }

  lemma DroppedOK(f: seq<Frame>, first: nat, firstZeroed: nat, free: seq<nat>, zeroed: seq<nat>, h: Holders, x: nat)
    requires DatabaseOK(f, first, firstZeroed, free, zeroed, h) && x < |f|
    ensures x in h.locks && (first != NIL ==> first < |f|)
    ensures var last := f[x].refs == 1;
      DatabaseOK(Dropped(f, first, x), if last then x else first, firstZeroed, if last then [x] + free else free, zeroed,
                 if f[x].refs > 0 then Let(h, x) else h)
      <==> h.locks[x] > 0 || f[x].refs == 0
    ensures h.locks[x] > 0 ==> f[x].refs > 0 && (f[x].refs == 1 <==> h.locks[x] == 1 && x !in h.owned)
  {
    assert FrameOK(f, free, zeroed, h, x);
    EmptyChain(f, first, free);
    var f', h' := Dropped(f, first, x), Let(h, x);
    if h.locks[x] > 0 {
      if f[x].refs > 1 {
        CountOK(f, first, firstZeroed, free, zeroed, h, x, h', f');
      } else {
        assert h.owned - {x} == h.owned;
        GiveOK(f, first, firstZeroed, free, zeroed, h, x, h', f[x := f[x].(state := Free, refs := 0, share := 0)]);
      }
    } else if f[x].refs > 0 {
      assert !FrameOK(f', [x] + free, zeroed, h, x);
    }
  }

  /** A frame nobody holds, after it has been locked and unlocked. */
  function Relisted(f: seq<Frame>, first: nat, x: nat): seq<Frame>
    requires x < |f| && (first != NIL ==> first < |f|)
  {
    InsertHead(f[x := f[x].(state := Free, refs := 0, share := 0)], first, x)
  }

  lemma Relocked(f: seq<Frame>, first: nat, x: nat)
    requires x < |f| && (first != NIL ==> first < |f|)
    ensures Dropped(Raised(f, x), first, x) == if f[x].refs > 0 then f else Relisted(f, first, x)
  {
  }

  lemma RelistedOK(f: seq<Frame>, first: nat, firstZeroed: nat, free: seq<nat>, zeroed: seq<nat>, h: Holders, x: nat)
    requires DatabaseOK(f, first, firstZeroed, free, zeroed, h) && x < |f| && f[x].refs == 0
    ensures first != NIL ==> first < |f|
    ensures DatabaseOK(Relisted(f, first, x), x, firstZeroed, [x] + free, zeroed, h) <==> f[x].state.Reserved? && x != 0
    ensures Relisted(f, first, x)[x].state.Free? && (first == x ==> Relisted(f, first, x) != f)
    ensures f[x].state.Free? ==> forall l :: !Chain(Relisted(f, first, x), x, l)
  {
    assert FrameOK(f, free, zeroed, h, x) && FrameOK(f, free, zeroed, h, 0);
    EmptyChain(f, first, free);
    var g := f[x := f[x].(state := Free, refs := 0, share := 0)];
    ChainFrame(f, g, first, free);
    if free != [] { assert LinkedAt(f, free, 0); }
    if f[x].state.Free? {
      forall l ensures !Chain(Relisted(f, first, x), x, l) { InsertTwice(g, first, free, x, l); }
    } else if f[x].state.Reserved? && x != 0 {
      ReservedListed(f, first, firstZeroed, free, zeroed, h, x);
    } else if x != 0 {
      assert !FrameOK(Relisted(f, first, x), [x] + free, zeroed, h, x);
    }
  }

  lemma ReservedListed(f: seq<Frame>, first: nat, firstZeroed: nat, free: seq<nat>, zeroed: seq<nat>, h: Holders, x: nat)
    requires DatabaseOK(f, first, firstZeroed, free, zeroed, h) && 0 < x < |f| && f[x].refs == 0 && f[x].state.Reserved?
    ensures first != NIL ==> first < |f|
    ensures DatabaseOK(Relisted(f, first, x), x, firstZeroed, [x] + free, zeroed, h)
  {
    assert FrameOK(f, free, zeroed, h, x) && FrameOK(f, free, zeroed, h, 0);
    EmptyChain(f, first, free);
    var g := f[x := f[x].(state := Free, refs := 0, share := 0)];
    ChainFrame(f, g, first, free);
    InsertHeadChain(g, first, free, x);
    var f' := Relisted(f, first, x);
    forall z | z in zeroed && z < |f| ensures z != x && z !in free { assert FrameOK(f, free, zeroed, h, z); }
    ChainFrame(f, f', firstZeroed, zeroed);
    forall i | 0 <= i < |f'| ensures FrameOK(f', [x] + free, zeroed, h, i) { assert FrameOK(f, free, zeroed, h, i); }
  }

  /** Somebody holds each of the frames. */
  predicate AllHeld(f: seq<Frame>, pages: seq<nat>) {
    forall k :: 0 <= k < |pages| && pages[k] < |f| ==> f[pages[k]].refs > 0
  }

  /** Each frame is counted up as often as it is on the list. */
  ghost predicate RaisedBy(f0: seq<Frame>, f: seq<Frame>, pages: seq<nat>) {
    |f| == |f0| && forall x :: 0 <= x < |f0| ==> f[x] == f0[x].(refs := f0[x].refs + Locked(pages, x))
  }

  lemma RaisedIs(f0: seq<Frame>, f: seq<Frame>, pages: seq<nat>)
    requires RaisedBy(f0, f, pages)
    ensures |f| == |f0| && forall x :: 0 <= x < |f0| ==> f[x] == f0[x].(refs := f0[x].refs + multiset(pages)[x])
  {
    forall x | 0 <= x < |f0| ensures f[x] == f0[x].(refs := f0[x].refs + multiset(pages)[x]) { LockedIs(pages, x); }
  }

  lemma HeldStep(f0: seq<Frame>, f: seq<Frame>, pages: seq<nat>, k: nat)
    requires k < |pages| && RaisedBy(f0, f, pages[..k])
    ensures AllHeld(f0, pages[..k + 1]) <==> AllHeld(f0, pages[..k]) && (pages[k] < |f0| ==> f0[pages[k]].refs > 0)
    ensures AllHeld(f0, pages[..k]) && pages[k] < |f0| && f0[pages[k]].refs == 0 ==> f[pages[k]].refs == 0
  {
    assert pages[..k + 1] == pages[..k] + [pages[k]];
    if AllHeld(f0, pages[..k]) && pages[k] < |f0| && f0[pages[k]].refs == 0 {
      forall i | 0 <= i < k ensures pages[..k][i] != pages[k] { assert pages[..k][i] < |f0| ==> f0[pages[..k][i]].refs > 0; }
      NotLocked(pages[..k], pages[k]);
    }
  }

  lemma {:induction false} NotLocked(pages: seq<nat>, x: nat)
    requires x !in pages
    ensures Locked(pages, x) == 0
  {
    if pages != [] { NotLocked(pages[..|pages| - 1], x); }
  }

  lemma {:induction false} LockedIn(pages: seq<nat>, x: nat)
    requires x in pages
    ensures Locked(pages, x) > 0
  {
    var n := |pages| - 1;
    if pages[n] != x {
      assert pages == pages[..n] + [pages[n]];
      LockedIn(pages[..n], x);
    }
  }

  lemma RaisedOn(f0: seq<Frame>, f: seq<Frame>, f': seq<Frame>, pages: seq<nat>, k: nat)
    requires k < |pages| && RaisedBy(f0, f, pages[..k]) && f' == if pages[k] < |f| then Raised(f, pages[k]) else f
    ensures RaisedBy(f0, f', pages[..k + 1])
  {
    assert pages[..k + 1][..k] == pages[..k];
  }

  /** A lock on a frame that was not held is never right. */
  lemma UnheldLocked(f0: seq<Frame>, f: seq<Frame>, firstFree: nat, firstZeroed: nat, free: seq<nat>, zeroed: seq<nat>, h0: Holders,
                     h: Holders, pages: seq<nat>)
    requires DatabaseOK(f0, firstFree, firstZeroed, free, zeroed, h0) && RaisedBy(f0, f, pages) && !AllHeld(f0, pages)
    requires h.zeroing == h0.zeroing
    ensures !DatabaseOK(f, firstFree, firstZeroed, free, zeroed, h)
  {
    var k :| 0 <= k < |pages| && pages[k] < |f0| && f0[pages[k]].refs == 0;
    LockedIn(pages, pages[k]);
    assert FrameOK(f0, free, zeroed, h0, pages[k]);
    assert !FrameOK(f, free, zeroed, h, pages[k]);
  }

  /** The frames that have become free are those on the list that nobody holds any more. */
  ghost predicate Freed(free0: seq<nat>, free: seq<nat>, pages: seq<nat>, h: Holders, n: nat) {
    forall x :: x in free <==> x in free0 || (x in pages && x < n && x in h.locks && h.locks[x] == 0 && x !in h.owned)
  }

  lemma FreedStep(free0: seq<nat>, was: seq<nat>, free: seq<nat>, pages: seq<nat>, i: nat, h: Holders, h': Holders, n: nat)
    requires i < |pages| && Freed(free0, was, pages[..i], h, n) && h'.owned == h.owned
    requires forall x :: x in h'.locks <==> x in h.locks
    requires forall x :: x in h'.locks && x != pages[i] ==> h'.locks[x] == h.locks[x]
    requires pages[i] in h'.locks ==> pages[i] in h.locks && h.locks[pages[i]] > 0
    requires free == if pages[i] in h'.locks && h'.locks[pages[i]] == 0 && pages[i] !in h'.owned && pages[i] < n
                     then [pages[i]] + was else was
    ensures Freed(free0, free, pages[..i + 1], h', n)
  {
    assert pages[..i + 1] == pages[..i] + [pages[i]];
  }

  /** One release moves one frame's count only. */
  lemma MovedElsewhere(h1: Holders, h2: Holders, p: nat, n: nat)
    requires if p < n then LocksMoved(h1, h2, [p], false) else h2 == h1
    ensures forall x :: x in h2.locks <==> x in h1.locks
    ensures forall x :: x in h2.locks && x != p ==> h2.locks[x] == h1.locks[x]
  {
    if p < n {
      forall x | x in h1.locks ensures x in h2.locks && (x != p ==> h2.locks[x] == h1.locks[x]) {
        assert x in h1.locks.Keys && x in h2.locks.Keys;
        assert Locked([p], x) == Locked([p][..0], x) + One(p == x);
      }
      forall x | x in h2.locks ensures x in h1.locks { assert x in h2.locks.Keys && x in h1.locks.Keys; }
    }
  }

  lemma {:induction false} LockedMore(pages: seq<nat>, k: nat)
    requires 0 < k <= |pages|
    ensures forall i :: Locked(pages[..k], i) <= Locked(pages, i)
    ensures Locked(pages[..k], pages[k - 1]) == Locked(pages[..k - 1], pages[k - 1]) + 1
    decreases |pages|
  {
    assert pages[..k][..k - 1] == pages[..k - 1];
    if k < |pages| {
      var rest := pages[..|pages| - 1];
      LockedMore(rest, k);
      assert rest[..k] == pages[..k];
    } else {
      assert pages[..k] == pages;
    }
  }

  /** One more page of the list. */
  lemma LockedStep(h0: Holders, h1: Holders, h2: Holders, pages: seq<nat>, k: nat, n: nat, more: bool)
    requires k < |pages| && LocksMoved(h0, h1, pages[..k], more) && forall i :: i in h0.locks <==> 0 <= i < n
    requires if pages[k] < n then LocksMoved(h1, h2, [pages[k]], more) else h2 == h1
    ensures LocksMoved(h0, h2, pages[..k + 1], more)
  {
    assert pages[..k + 1][..k] == pages[..k] && [pages[k]][..0] == [];
    forall i | i in h0.locks
      ensures i in h2.locks
      ensures if more then h2.locks[i] == h0.locks[i] + Locked(pages[..k + 1], i)
              else h0.locks[i] == h2.locks[i] + Locked(pages[..k + 1], i)
    {
      var one := [pages[k]];
      assert i in h0.locks.Keys && i in h1.locks.Keys && i in h1.locks && i in h2.locks.Keys;
      assert Locked(one, i) == Locked(one[..0], i) + One(pages[k] == i) == One(pages[k] == i);
      assert Locked(pages[..k + 1], i) == Locked(pages[..k], i) + One(pages[k] == i);
    }
  }
}
