/** Runs of the pool: what a heap looks like after frees in any order, and after freeing a fresh block. */
module PoolHistory {
  import opened PoolHeap

  /** A heap as the pool leaves it between two public calls. */
  ghost predicate Settled(h: Heap)
  {
    Inv(h) && NoIdlePage(h)
  }

  ghost predicate Distinct(ps: seq<Unit>)
  {
    forall i, j :: 0 <= i < j < |ps| ==> ps[i] != ps[j]
  }

  /** Free the blocks of `ps` one after the other. */
  ghost function FreeAll(h: Heap, ps: seq<Unit>): (r: Heap)
    requires Settled(h) && Distinct(ps) && forall a :: a in ps ==> a in Live(h)
    ensures Settled(r) && Live(r) == Live(h) - (set a | a in ps)
    decreases |ps|
  {
    if ps == [] then
      assert Live(h) == Live(h) - {};
      h
    else
      assert ps[0] in Live(h);
      ReleaseLive(h, ps[0]);
      ReleaseInv(h, ps[0]);
      ReleaseNoIdle(h, ps[0]);
      var h1 := Release(h, ps[0]);
      assert (set a | a in ps) == {ps[0]} + (set a | a in ps[1..]);
      assert forall a :: a in ps[1..] ==> a in Live(h1);
      var r := FreeAll(h1, ps[1..]);
      assert Live(r) == Live(h) - (set a | a in ps);
      r
  }

  /** Freeing the same blocks in two different orders leaves the same pages, tiling and headers. */
  lemma FreeOrderIrrelevant(h: Heap, ps: seq<Unit>, qs: seq<Unit>)
    requires Settled(h) && Distinct(ps) && Distinct(qs)
    requires (forall a :: a in ps ==> a in Live(h)) && (forall a :: a in qs ==> a in Live(h))
    requires forall a :: a in ps <==> a in qs
    ensures var h1, h2 := FreeAll(h, ps), FreeAll(h, qs);
      && h1.starts == h2.starts && h1.pages == h2.pages
      && forall a :: a in h1.starts ==> a in h1.mem && a in h2.mem && h1.mem[a].(tag := 0) == h2.mem[a].(tag := 0)
  {
    assert (set a | a in ps) == (set a | a in qs);
    LiveDeterminesHeap(FreeAll(h, ps), FreeAll(h, qs));
  }

  /** Freeing everything unmaps everything. */
  lemma FreeingAllUnmapsAll(h: Heap, ps: seq<Unit>)
    requires Settled(h) && Distinct(ps) && (forall a :: a in ps <==> a in Live(h))
    ensures FreeAll(h, ps).pages == map[]
  {
    var r := FreeAll(h, ps);
    assert Live(r) == map[];
    if p :| p in r.pages {
      var a := BusyPage(r, p);
    }
  }

  /** The heap an allocation carves from: the current one, or the current one with a page mapped for it. */
  ghost predicate Supplied(h: Heap, p: nat, t: nat, h0: Heap)
  {
    h0 == h || (p !in h.pages && t < 2 && h0 == AddPage(h, p, t))
  }

  /** An allocation from a supplied heap settles and adds one live block to the old live blocks. */
  lemma AllocateSettles(h: Heap, h0: Heap, a: Unit, n: nat, t: nat, tag: nat) returns (got: nat)
    requires Settled(h) && Supplied(h, a.page, t, h0) && Inv(h0)
    requires a in h0.starts && IsFree(h0, a) && 2 <= n <= h0.mem[a].blockSize
    requires a.page in h0.pages && h0.pages[a.page] == t
    ensures Settled(Carve(h0, a, n, t, tag)) && a !in Live(h) && n <= got <= n + 1
    ensures Live(Carve(h0, a, n, t, tag)) == Live(h)[a := LiveBlock(got, t + 1, tag)]
  {
    if h0 != h {
      AddPageLive(h, a.page, t);
    }
    CarveInv(h0, a, n, t, tag);
    CarveNoIdle(h0, a, n, t, tag);
    got := CarveLive(h0, a, n, t, tag);
  }

  lemma AddedAndRemoved(live: map<Unit, LiveBlock>, a: Unit, b: LiveBlock)
    requires a !in live
    ensures live[a := b] - {a} == live
  {
  }

  /** Freeing a just-allocated block restores the state before the allocation, mapped pages included. */
  lemma FreeUndoesAllocate(h: Heap, h0: Heap, a: Unit, n: nat, t: nat, tag: nat)
    requires Settled(h) && Supplied(h, a.page, t, h0) && Inv(h0)
    requires a in h0.starts && IsFree(h0, a) && 2 <= n <= h0.mem[a].blockSize
    requires a.page in h0.pages && h0.pages[a.page] == t
    ensures Inv(Carve(h0, a, n, t, tag)) && a in Live(Carve(h0, a, n, t, tag))
    ensures var h' := Release(Carve(h0, a, n, t, tag), a);
      && h'.starts == h.starts && h'.pages == h.pages
      && forall b :: b in h.starts ==> b in h.mem && b in h'.mem && h'.mem[b].(tag := 0) == h.mem[b].(tag := 0)
  {
    var got := AllocateSettles(h, h0, a, n, t, tag);
    var h' := Carve(h0, a, n, t, tag);
    ReleaseLive(h', a);
    ReleaseInv(h', a);
    ReleaseNoIdle(h', a);
    assert Live(Release(h', a)) == Live(h) by { AddedAndRemoved(Live(h), a, LiveBlock(got, t + 1, tag)); }
    LiveDeterminesHeap(Release(h', a), h);
  }
}
