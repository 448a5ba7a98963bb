/** The pages of the small-block pool (veakrnl/mm/ulpool.c) as a boundary-tag heap.

    A page holds 512 units of 8 bytes. Every block starts with a one-unit header that records
    its own size and its left neighbour's size, both in nine-bit fields; unit 511 is an end marker
    of a type that never coalesces. A `Heap` value is what the headers in memory say, together with
    which units currently start a block and which pages are mapped for which pool type.
    Stale headers inside merged blocks stay in `mem`, as they do in the kernel. */
module PoolHeap {
  const SPAN := 511          // POOL_MAX_BLOCKS - 1: index of the end marker
  const FREE_TAG := 0x65657246   // the characters eerF
  const END_TAG := 0x20646e45    // the characters dnE behind a space

  /** A nine-bit header field: writing a larger value would not verify. */
  type Bits9 = x: int | 0 <= x < 512

  /** An 8-byte unit: unit `off` of page `page`. */
  datatype Unit = Unit(page: nat, off: int)

  datatype Header = Header(prevSize: Bits9, blockSize: Bits9, poolType: nat, tag: nat)

  datatype Heap = Heap(mem: map<Unit, Header>, starts: set<Unit>, pages: map<nat, nat>)

  /** What a caller of the pool can observe of a live block. */
  datatype LiveBlock = LiveBlock(units: nat, poolType: nat, tag: nat)

  const EmptyHeap := Heap(map[], {}, map[])

  function Next(h: Heap, a: Unit): Unit
    requires a in h.mem
  {
    Unit(a.page, a.off + h.mem[a].blockSize)
  }

  function Left(h: Heap, a: Unit): Unit
    requires a in h.mem
  {
    Unit(a.page, a.off - h.mem[a].prevSize)
  }

  predicate IsFree(h: Heap, a: Unit)
  {
    a in h.mem && h.mem[a].poolType == 0
  }

  /** The block at `a` agrees with both of its neighbours and with its page. */
  ghost predicate BlockOK(h: Heap, a: Unit)
  {
    && a in h.mem && a.page in h.pages && 0 <= a.off
    && 2 <= h.mem[a].blockSize && a.off + h.mem[a].blockSize <= SPAN
    && Next(h, a) in h.mem && h.mem[Next(h, a)].prevSize == h.mem[a].blockSize
    && (Next(h, a).off != SPAN ==> Next(h, a) in h.starts)
    && (h.mem[a].poolType != 0 ==> h.mem[a].poolType == h.pages[a.page] + 1)
    && (h.mem[a].prevSize == 0 <==> a.off == 0)
    && (a.off != 0 ==> Left(h, a) in h.starts && Left(h, a) in h.mem && h.mem[Left(h, a)].blockSize == h.mem[a].prevSize)
    && (IsFree(h, a) ==> !IsFree(h, Next(h, a)))
  }

  /** A mapped page starts with a block and ends with its marker. */
  ghost predicate PageOK(h: Heap, p: nat)
  {
    && p in h.pages && h.pages[p] < 2
    && Unit(p, 0) in h.starts
    && Unit(p, SPAN) in h.mem && Unit(p, SPAN) !in h.starts
    && h.mem[Unit(p, SPAN)].blockSize == 1
    && h.mem[Unit(p, SPAN)].poolType == h.pages[p] + 1
  }

  ghost predicate Inv(h: Heap)
  {
    && (forall a {:trigger BlockOK(h, a)} :: a in h.starts ==> BlockOK(h, a))
    && (forall p {:trigger PageOK(h, p)} :: p in h.pages ==> PageOK(h, p))
  }

  function Live(h: Heap): map<Unit, LiveBlock>
  {
    map a | a in h.starts && a in h.mem && h.mem[a].poolType != 0 ::
      LiveBlock(h.mem[a].blockSize, h.mem[a].poolType, h.mem[a].tag)
  }

  // ---------------------------------------------------------------- tiling

  /** Two blocks of one page never overlap: the left one ends at or before the right one. */
  lemma {:induction false} Ordered(h: Heap, a: Unit, b: Unit)
    requires Inv(h) && a in h.starts && b in h.starts && a.page == b.page && a.off < b.off
    ensures a in h.mem && a.off + h.mem[a].blockSize <= b.off
    decreases b.off + a.off, b.off
  {
    assert BlockOK(h, a) && BlockOK(h, b);
    var l := Left(h, b);
    assert BlockOK(h, l);
    if a.off < l.off {
      Ordered(h, a, l);
    } else if l.off < a.off {
      Ordered(h, l, a);
    }
  }

  /** Every unit before the end marker of a mapped page lies in a block. */
  lemma {:induction false} Covered(h: Heap, p: nat, u: int) returns (a: Unit)
    requires Inv(h) && p in h.pages && 0 <= u < SPAN
    ensures a in h.starts && a in h.mem && a.page == p && a.off <= u < a.off + h.mem[a].blockSize
  {
    assert PageOK(h, p);
    if u == 0 {
      a := Unit(p, 0);
      assert BlockOK(h, a);
    } else {
      a := Covered(h, p, u - 1);
      assert BlockOK(h, a);
      if u == Next(h, a).off {
        a := Next(h, a);
        assert BlockOK(h, a);
      }
    }
  }

  /** The blocks of a page tile it exactly up to the end marker: each unit lies in one block and no other. */
  lemma TilesExactly(h: Heap, p: nat, u: int)
    requires Inv(h) && p in h.pages && 0 <= u < SPAN
    ensures exists a :: a in h.starts && a in h.mem && a.page == p && a.off <= u < a.off + h.mem[a].blockSize
    ensures forall a, b :: (a in h.starts && a in h.mem && a.page == p && a.off <= u < a.off + h.mem[a].blockSize &&
                            b in h.starts && b in h.mem && b.page == p && b.off <= u < b.off + h.mem[b].blockSize) ==> a == b
  {
    var _ := Covered(h, p, u);
    forall a, b | a in h.starts && a in h.mem && a.page == p && a.off <= u < a.off + h.mem[a].blockSize &&
                  b in h.starts && b in h.mem && b.page == p && b.off <= u < b.off + h.mem[b].blockSize
      ensures a == b
    {
      if a.off < b.off {
        Ordered(h, a, b);
      } else if b.off < a.off {
        Ordered(h, b, a);
      }
    }
  }

  // ---------------------------------------------------------------- expand

  /** UlExpandPool: one free block of 511 units and an end marker in a newly mapped page. */
  function AddPage(h: Heap, p: nat, t: nat): Heap
  {
    var first := Header(0, SPAN, 0, FREE_TAG);
    var marker := Header(SPAN, 1, t + 1, END_TAG);
    Heap(h.mem[Unit(p, 0) := first][Unit(p, SPAN) := marker], h.starts + {Unit(p, 0)}, h.pages[p := t])
  }

  lemma AddPageInv(h: Heap, p: nat, t: nat)
    requires Inv(h) && p !in h.pages && t < 2
    ensures Inv(AddPage(h, p, t))
    ensures var h' := AddPage(h, p, t);
      && Unit(p, 0) in h'.mem && h'.mem[Unit(p, 0)] == Header(0, 511, 0, 0x6565_7246)
      && Unit(p, 511) in h'.mem && h'.mem[Unit(p, 511)] == Header(511, 1, t + 1, 0x2064_6E45)
      && Live(h') == Live(h)
  {
    var h' := AddPage(h, p, t);
    AddPageLive(h, p, t);
    forall a | a in h.starts ensures a.page != p {
      assert BlockOK(h, a);
    }
    forall a | a in h'.starts ensures BlockOK(h', a) {
      if a != Unit(p, 0) {
        assert BlockOK(h, a);
      }
    }
    forall q | q in h'.pages ensures PageOK(h', q) {
      if q != p {
        assert PageOK(h, q);
      }
    }
  }

  lemma AddPageLive(h: Heap, p: nat, t: nat)
    requires Inv(h) && p !in h.pages
    ensures Live(AddPage(h, p, t)) == Live(h)
  {
    var h' := AddPage(h, p, t);
    forall a | a in h.starts ensures a.page != p && a in h.mem && a in h'.mem && h'.mem[a] == h.mem[a] {
      assert BlockOK(h, a);
    }
  }

  // ---------------------------------------------------------------- allocate

  /** Take `n` units from the front of the free block at `a`; split only when at least two units remain. */
  function Carve(h: Heap, a: Unit, n: nat, t: nat, tag: nat): Heap
    requires Inv(h) && a in h.starts && IsFree(h, a) && 1 <= n <= h.mem[a].blockSize
  {
    assert BlockOK(h, a);
    var size := h.mem[a].blockSize;
    if size > n + 1 then
      var r := Unit(a.page, a.off + n);
      var rest: Bits9 := size - n;
      var e := Next(h, a);
      var oldTag := if r in h.mem then h.mem[r].tag else 0;
      var m1 := h.mem[a := Header(h.mem[a].prevSize, n, t + 1, tag)];
      var m2 := m1[r := Header(n, rest, 0, oldTag)];
      Heap(m2[e := h.mem[e].(prevSize := rest)], h.starts + {r}, h.pages)
    else
      h.(mem := h.mem[a := h.mem[a].(poolType := t + 1, tag := tag)])
  }

  /** A header fixes its right neighbour's back link, so two blocks never share an end. */
  lemma SameEnd(h: Heap, a: Unit, b: Unit)
    requires Inv(h) && a in h.starts && b in h.starts
    requires BlockOK(h, a) && BlockOK(h, b) && Next(h, a) == Next(h, b)
    ensures a == b
  {
  }

  /** The part of BlockOK about a block itself and the header behind it. */
  ghost predicate RightOK(h: Heap, a: Unit)
  {
    && a in h.mem && a.page in h.pages && 0 <= a.off
    && 2 <= h.mem[a].blockSize && a.off + h.mem[a].blockSize <= SPAN
    && Next(h, a) in h.mem && h.mem[Next(h, a)].prevSize == h.mem[a].blockSize
    && (Next(h, a).off != SPAN ==> Next(h, a) in h.starts)
    && (h.mem[a].poolType != 0 ==> h.mem[a].poolType == h.pages[a.page] + 1)
    && (IsFree(h, a) ==> !IsFree(h, Next(h, a)))
  }

  /** The part about the block in front of it. */
  ghost predicate LeftOK(h: Heap, a: Unit)
  {
    && a in h.mem && (h.mem[a].prevSize == 0 <==> a.off == 0)
    && (a.off != 0 ==> Left(h, a) in h.starts && Left(h, a) in h.mem && h.mem[Left(h, a)].blockSize == h.mem[a].prevSize)
  }

  lemma CarveApart(h: Heap, a: Unit, n: nat, t: nat, tag: nat, b: Unit)
    requires Inv(h) && a in h.starts && IsFree(h, a) && 2 <= n <= h.mem[a].blockSize
    requires b in h.starts && b != a
    ensures BlockOK(h, a) && BlockOK(h, b) && Next(h, b) != Next(h, a)
    ensures h.mem[a].blockSize > n + 1 ==> b != Unit(a.page, a.off + n) && Next(h, b) != Unit(a.page, a.off + n)
  {
    assert BlockOK(h, a) && BlockOK(h, b);
    if Next(h, b) == Next(h, a) { SameEnd(h, a, b); }
    if b.page == a.page {
      if b.off < a.off { Ordered(h, b, a); } else { Ordered(h, a, b); }
    }
  }

  lemma CarveRight(h: Heap, a: Unit, n: nat, t: nat, tag: nat, b: Unit)
    requires Inv(h) && a in h.starts && IsFree(h, a) && 2 <= n <= h.mem[a].blockSize
    requires a.page in h.pages && h.pages[a.page] == t
    requires b in Carve(h, a, n, t, tag).starts
    ensures RightOK(Carve(h, a, n, t, tag), b)
  {
    assert BlockOK(h, a) && PageOK(h, a.page);
    if b in h.starts && b != a { CarveApart(h, a, n, t, tag, b); }
  }

  lemma CarveLeft(h: Heap, a: Unit, n: nat, t: nat, tag: nat, b: Unit)
    requires Inv(h) && a in h.starts && IsFree(h, a) && 2 <= n <= h.mem[a].blockSize
    requires a.page in h.pages && h.pages[a.page] == t
    requires b in Carve(h, a, n, t, tag).starts
    ensures LeftOK(Carve(h, a, n, t, tag), b)
  {
    assert BlockOK(h, a) && PageOK(h, a.page);
    if b in h.starts {
      assert BlockOK(h, b);
      if b != a { CarveApart(h, a, n, t, tag, b); }
      if b.off != 0 && Left(h, b) != a { CarveApart(h, a, n, t, tag, Left(h, b)); }
    }
  }

  lemma CarveBlock(h: Heap, a: Unit, n: nat, t: nat, tag: nat, b: Unit)
    requires Inv(h) && a in h.starts && IsFree(h, a) && 2 <= n <= h.mem[a].blockSize
    requires a.page in h.pages && h.pages[a.page] == t
    requires b in Carve(h, a, n, t, tag).starts
    ensures BlockOK(Carve(h, a, n, t, tag), b)
  {
    CarveRight(h, a, n, t, tag, b);
    CarveLeft(h, a, n, t, tag, b);
  }

  lemma CarveInv(h: Heap, a: Unit, n: nat, t: nat, tag: nat)
    requires Inv(h) && a in h.starts && IsFree(h, a) && 2 <= n <= h.mem[a].blockSize
    requires a.page in h.pages && h.pages[a.page] == t
    ensures Inv(Carve(h, a, n, t, tag))
  {
    var h' := Carve(h, a, n, t, tag);
    assert BlockOK(h, a);
    forall b | b in h'.starts ensures BlockOK(h', b) {
      CarveBlock(h, a, n, t, tag, b);
    }
    forall q | q in h'.pages ensures PageOK(h', q) {
      assert PageOK(h, q);
    }
  }

  /** A request for no bytes asks for one unit. The heap survives that exactly when the block it is served from has two
      units, and so is handed out whole. */
  lemma CarveOneUnit(h: Heap, a: Unit, t: nat, tag: nat)
    requires Inv(h) && a in h.starts && IsFree(h, a) && a.page in h.pages && h.pages[a.page] == t
    ensures a in h.mem && h.mem[a].blockSize >= 2
    ensures Inv(Carve(h, a, 1, t, tag)) <==> h.mem[a].blockSize == 2
  {
    assert BlockOK(h, a);
    if h.mem[a].blockSize == 2 {
      CarveInv(h, a, 2, t, tag);
      assert Carve(h, a, 1, t, tag) == Carve(h, a, 2, t, tag);
    } else {
      var h' := Carve(h, a, 1, t, tag);
      assert a in h'.starts && h'.mem[a].blockSize == 1;
      assert !BlockOK(h', a);
    }
  }

  /** Every other live block stays as it is, and the rest of the carved one is free. */
  lemma CarveOthers(h: Heap, a: Unit, n: nat, t: nat, tag: nat, b: Unit)
    requires Inv(h) && a in h.starts && IsFree(h, a) && 2 <= n <= h.mem[a].blockSize && b != a
    ensures b in Live(Carve(h, a, n, t, tag)) <==> b in Live(h)
    ensures b in Live(Carve(h, a, n, t, tag)) ==> Live(Carve(h, a, n, t, tag))[b] == Live(h)[b]
  {
    assert BlockOK(h, a);
    if b in h.starts { CarveApart(h, a, n, t, tag, b); }
  }

  /** Allocation adds exactly one live block, of at least the requested size and at most one unit more. */
  lemma CarveLive(h: Heap, a: Unit, n: nat, t: nat, tag: nat) returns (got: nat)
    requires Inv(h) && a in h.starts && IsFree(h, a) && 2 <= n <= h.mem[a].blockSize
    ensures a !in Live(h) && n <= got <= n + 1
    ensures Live(Carve(h, a, n, t, tag)) == Live(h)[a := LiveBlock(got, t + 1, tag)]
  {
    var h' := Carve(h, a, n, t, tag);
    assert BlockOK(h, a);
    got := h'.mem[a].blockSize;
    forall b | b != a
      ensures b in Live(h') <==> b in Live(h)
      ensures b in Live(h') ==> Live(h')[b] == Live(h)[b]
    {
      CarveOthers(h, a, n, t, tag, b);
    }
    assert Live(h') == Live(h)[a := LiveBlock(got, t + 1, tag)];
  }

  // ---------------------------------------------------------------- free

  /** The block that absorbs `a`: its free left neighbour, or `a` itself. */
  function Absorber(h: Heap, a: Unit): Unit
    requires Inv(h) && a in h.starts
  {
    assert BlockOK(h, a);
    if h.mem[a].prevSize != 0 && IsFree(h, Left(h, a)) then Left(h, a) else a
  }

  /** The size of the free block that replaces `a` once both neighbours are merged. */
  function MergedSize(h: Heap, a: Unit): Bits9
    requires Inv(h) && a in h.starts
  {
    assert BlockOK(h, a);
    var l := Absorber(h, a);
    assert BlockOK(h, l);
    var s := if l == a then h.mem[a].blockSize else h.mem[l].blockSize + h.mem[a].blockSize;
    var r := Unit(a.page, l.off + s);
    assert r.off != SPAN ==> BlockOK(h, r);
    assert PageOK(h, a.page);
    if IsFree(h, r) then s + h.mem[r].blockSize else s
  }

  /** Two-sided coalescing around a live block. */
  function Coalesce(h: Heap, a: Unit): Heap
    requires Inv(h) && a in h.starts
  {
    assert BlockOK(h, a) && PageOK(h, a.page);
    var l := Absorber(h, a);
    assert BlockOK(h, l);
    var size := MergedSize(h, a);
    var e := Unit(a.page, l.off + size);
    var r := Next(h, a);
    assert r.off != SPAN ==> BlockOK(h, r);
    var gone := (if l == a then {} else {a}) + (if IsFree(h, r) then {r} else {});
    Heap(h.mem[l := Header(h.mem[l].prevSize, size, 0, FREE_TAG)][e := h.mem[e].(prevSize := size)],
         h.starts - gone, h.pages)
  }

  function DropPage(h: Heap, p: nat): Heap
  {
    Heap((map u | u in h.mem && u.page != p :: h.mem[u]), (set u | u in h.starts && u.page != p), h.pages - {p})
  }

  /** UlFreePoolWithTag on a live block: coalesce, and give the page back when nothing else is left in it. */
  function Release(h: Heap, a: Unit): Heap
    requires Inv(h) && a in h.starts
  {
    if MergedSize(h, a) == SPAN then DropPage(Coalesce(h, a), a.page) else Coalesce(h, a)
  }

  /** The blocks around a freed block: what is merged, and what bounds the merged block. */
  lemma Neighbours(h: Heap, a: Unit)
    requires Inv(h) && a in h.starts && !IsFree(h, a)
    ensures BlockOK(h, a) && BlockOK(h, Absorber(h, a)) && PageOK(h, a.page)
    ensures Absorber(h, a) in h.starts && Absorber(h, a).page == a.page
    ensures Absorber(h, a) != a ==> IsFree(h, Absorber(h, a)) && Next(h, Absorber(h, a)) == a
    ensures IsFree(h, Next(h, a)) ==> Next(h, a) in h.starts && BlockOK(h, Next(h, a))
    ensures var e := Unit(a.page, Absorber(h, a).off + MergedSize(h, a));
            && e in h.mem && e == (if IsFree(h, Next(h, a)) then Next(h, Next(h, a)) else Next(h, a))
            && e.off <= SPAN && !IsFree(h, e) && (e.off != SPAN ==> e in h.starts && BlockOK(h, e))
    ensures var l := Absorber(h, a); l.off != 0 ==> BlockOK(h, Left(h, l)) && !IsFree(h, Left(h, l))
  {
    assert BlockOK(h, a) && PageOK(h, a.page);
    var l, r := Absorber(h, a), Next(h, a);
    assert BlockOK(h, l);
    assert r.off != SPAN ==> BlockOK(h, r);
    assert l.off != 0 ==> BlockOK(h, Left(h, l));
    var e := Unit(a.page, l.off + MergedSize(h, a));
    assert e.off != SPAN ==> BlockOK(h, e);
  }

  /** The block behind a block away from the merge is none of the merged ones but the first, and not the one behind them. */
  lemma NextAway(h: Heap, a: Unit, b: Unit)
    requires Inv(h) && a in h.starts && !IsFree(h, a) && b in Coalesce(h, a).starts && b != Absorber(h, a)
    ensures a in h.mem && BlockOK(h, b) && Next(h, b) != Next(h, a)
    ensures Next(h, b) != Unit(a.page, Absorber(h, a).off + MergedSize(h, a))
    ensures Absorber(h, a) != a ==> Next(h, b) != a
  {
    Neighbours(h, a);
    var l, r := Absorber(h, a), Next(h, a);
    assert BlockOK(h, b);
    if Next(h, b) == r { SameEnd(h, a, b); }
    if IsFree(h, r) && Next(h, b) == Next(h, r) { SameEnd(h, r, b); }
    if l != a && Next(h, b) == a { SameEnd(h, l, b); }
  }

  lemma CoalesceRight(h: Heap, a: Unit, b: Unit)
    requires Inv(h) && a in h.starts && !IsFree(h, a) && b in Coalesce(h, a).starts
    requires b != Absorber(h, a) && b != Unit(a.page, Absorber(h, a).off + MergedSize(h, a))
    ensures RightOK(Coalesce(h, a), b)
  {
    Neighbours(h, a);
    NextAway(h, a, b);
  }

  /** The block in front of a block away from the merge is none of the merged ones. */
  lemma LeftAway(h: Heap, a: Unit, b: Unit)
    requires Inv(h) && a in h.starts && !IsFree(h, a) && b in Coalesce(h, a).starts
    requires b != Absorber(h, a) && b != Unit(a.page, Absorber(h, a).off + MergedSize(h, a))
    ensures BlockOK(h, b) && (b.off != 0 ==> Left(h, b) in Coalesce(h, a).starts && Left(h, b) != Absorber(h, a))
  {
    Neighbours(h, a);
    assert BlockOK(h, b);
    if b.off != 0 { assert BlockOK(h, Left(h, b)); }
  }

  lemma CoalesceLeft(h: Heap, a: Unit, b: Unit)
    requires Inv(h) && a in h.starts && !IsFree(h, a) && b in Coalesce(h, a).starts
    requires b != Absorber(h, a) && b != Unit(a.page, Absorber(h, a).off + MergedSize(h, a))
    ensures LeftOK(Coalesce(h, a), b)
  {
    LeftAway(h, a, b);
  }

  /** A block away from the merge keeps both its neighbours. */
  lemma CoalesceOther(h: Heap, a: Unit, b: Unit)
    requires Inv(h) && a in h.starts && !IsFree(h, a) && b in Coalesce(h, a).starts
    requires b != Absorber(h, a) && b != Unit(a.page, Absorber(h, a).off + MergedSize(h, a))
    ensures BlockOK(Coalesce(h, a), b)
  {
    CoalesceRight(h, a, b);
    CoalesceLeft(h, a, b);
  }

  lemma CoalesceAbsorberRight(h: Heap, a: Unit)
    requires Inv(h) && a in h.starts && !IsFree(h, a)
    ensures RightOK(Coalesce(h, a), Absorber(h, a))
  {
    Neighbours(h, a);
    var h', l := Coalesce(h, a), Absorber(h, a);
    var e := Unit(a.page, l.off + MergedSize(h, a));
    assert l != e && h'.mem[l] == Header(h.mem[l].prevSize, MergedSize(h, a), 0, FREE_TAG) && Next(h', l) == e;
  }

  lemma CoalesceAbsorberLeft(h: Heap, a: Unit)
    requires Inv(h) && a in h.starts && !IsFree(h, a)
    ensures LeftOK(Coalesce(h, a), Absorber(h, a))
  {
    Neighbours(h, a);
    var h', l := Coalesce(h, a), Absorber(h, a);
    if l.off != 0 {
      var k := Left(h, l);
      assert BlockOK(h, l) && k != l && k != a;
      assert h'.mem[k] == h.mem[k] && Left(h', l) == k;
    }
  }

  lemma CoalesceAbsorber(h: Heap, a: Unit)
    requires Inv(h) && a in h.starts && !IsFree(h, a)
    ensures BlockOK(Coalesce(h, a), Absorber(h, a))
  {
    CoalesceAbsorberRight(h, a);
    CoalesceAbsorberLeft(h, a);
  }

  lemma CoalesceEndRight(h: Heap, a: Unit, e: Unit)
    requires Inv(h) && a in h.starts && !IsFree(h, a)
    requires e == Unit(a.page, Absorber(h, a).off + MergedSize(h, a)) && e.off != SPAN
    ensures RightOK(Coalesce(h, a), e)
  {
    Neighbours(h, a);
    var h', l, n := Coalesce(h, a), Absorber(h, a), Next(h, e);
    assert h'.mem[e] == h.mem[e].(prevSize := MergedSize(h, a)) && Next(h', e) == n;
    assert n.off > e.off > l.off && h'.mem[n] == h.mem[n];
    if n.off != SPAN { assert BlockOK(h, n); }
  }

  lemma CoalesceEndLeft(h: Heap, a: Unit, e: Unit)
    requires Inv(h) && a in h.starts && !IsFree(h, a)
    requires e == Unit(a.page, Absorber(h, a).off + MergedSize(h, a)) && e.off != SPAN
    ensures LeftOK(Coalesce(h, a), e)
  {
    Neighbours(h, a);
  }

  lemma CoalesceEnd(h: Heap, a: Unit, e: Unit)
    requires Inv(h) && a in h.starts && !IsFree(h, a)
    requires e == Unit(a.page, Absorber(h, a).off + MergedSize(h, a)) && e.off != SPAN
    ensures e in Coalesce(h, a).starts ==> BlockOK(Coalesce(h, a), e)
  {
    CoalesceEndRight(h, a, e);
    CoalesceEndLeft(h, a, e);
  }

  lemma CoalesceBlock(h: Heap, a: Unit, b: Unit)
    requires Inv(h) && a in h.starts && !IsFree(h, a) && b in Coalesce(h, a).starts
    ensures BlockOK(Coalesce(h, a), b)
  {
    assert PageOK(h, a.page) by { assert BlockOK(h, a); }
    if b == Absorber(h, a) {
      CoalesceAbsorber(h, a);
    } else if b == Unit(a.page, Absorber(h, a).off + MergedSize(h, a)) {
      CoalesceEnd(h, a, b);
    } else {
      CoalesceOther(h, a, b);
    }
  }

  lemma CoalesceInv(h: Heap, a: Unit)
    requires Inv(h) && a in h.starts && !IsFree(h, a)
    ensures Inv(Coalesce(h, a))
  {
    var h' := Coalesce(h, a);
    forall b | b in h'.starts ensures BlockOK(h', b) {
      CoalesceBlock(h, a, b);
    }
    forall q | q in h'.pages ensures PageOK(h', q) {
      CoalescePage(h, a, q);
    }
  }

  lemma CoalescePage(h: Heap, a: Unit, q: nat)
    requires Inv(h) && a in h.starts && !IsFree(h, a) && q in h.pages
    ensures PageOK(Coalesce(h, a), q)
  {
    assert BlockOK(h, a);
    assert BlockOK(h, Absorber(h, a));
    assert PageOK(h, q);
  }

  lemma CoalesceLive(h: Heap, a: Unit)
    requires Inv(h) && a in h.starts && !IsFree(h, a)
    ensures Live(Coalesce(h, a)) == Live(h) - {a}
  {
    var h' := Coalesce(h, a);
    assert BlockOK(h, a) && PageOK(h, a.page);
    var l := Absorber(h, a);
    assert BlockOK(h, l);
    var e := Unit(a.page, l.off + MergedSize(h, a));
    forall b | b in h'.starts
      ensures b in Live(h') <==> b in Live(h) - {a}
      ensures b in Live(h') ==> Live(h')[b] == Live(h)[b]
    {
      assert BlockOK(h, b);
    }
  }

  lemma DropPageInv(h: Heap, p: nat)
    requires Inv(h)
    ensures Inv(DropPage(h, p))
  {
    var h' := DropPage(h, p);
    forall b | b in h'.starts ensures BlockOK(h', b) {
      assert BlockOK(h, b);
      if Next(h, b).off != SPAN { assert BlockOK(h, Next(h, b)); }
    }
    forall q | q in h'.pages ensures PageOK(h', q) {
      assert PageOK(h, q);
    }
  }

  /** A block of 511 units is the only block of its page. */
  lemma AloneInPage(h: Heap, l: Unit)
    requires Inv(h) && l in h.starts && l in h.mem && h.mem[l].blockSize == SPAN
    ensures forall b :: b in h.starts && b.page == l.page ==> b == l
  {
    forall b | b in h.starts && b.page == l.page ensures b == l {
      assert BlockOK(h, b) && BlockOK(h, l);
      if b != l { Ordered(h, l, b); }
    }
  }

  lemma ReleaseInv(h: Heap, a: Unit)
    requires Inv(h) && a in h.starts && !IsFree(h, a)
    ensures Inv(Release(h, a))
  {
    CoalesceInv(h, a);
    DropPageInv(Coalesce(h, a), a.page);
  }

  /** Freeing removes exactly the freed block from the live blocks. */
  lemma ReleaseLive(h: Heap, a: Unit)
    requires Inv(h) && a in h.starts && !IsFree(h, a)
    ensures a in Live(h) && Live(Release(h, a)) == Live(h) - {a}
  {
    assert BlockOK(h, a);
    CoalesceLive(h, a);
    if MergedSize(h, a) == SPAN {
      Neighbours(h, a);
      CoalesceInv(h, a);
      AloneInPage(Coalesce(h, a), Absorber(h, a));
    }
  }

  // ---------------------------------------------------------------- idle pages

  /** No mapped page is wholly free. */
  ghost predicate NoIdlePage(h: Heap)
  {
    forall p :: p in h.pages && Unit(p, 0) in h.mem ==> !(IsFree(h, Unit(p, 0)) && h.mem[Unit(p, 0)].blockSize == SPAN)
  }

  /** A page that is not wholly free holds a live block. */
  lemma BusyPage(h: Heap, p: nat) returns (a: Unit)
    requires Inv(h) && NoIdlePage(h) && p in h.pages
    ensures a in Live(h) && a.page == p && Live(h)[a].poolType == h.pages[p] + 1
  {
    assert PageOK(h, p);
    a := Unit(p, 0);
    assert BlockOK(h, a);
    if IsFree(h, a) {
      a := Next(h, a);
      assert BlockOK(h, a);
    }
  }

  lemma CarveNoIdle(h: Heap, a: Unit, n: nat, t: nat, tag: nat)
    requires Inv(h) && a in h.starts && IsFree(h, a) && 2 <= n <= h.mem[a].blockSize
    requires forall p :: p in h.pages && p != a.page && Unit(p, 0) in h.mem ==>
                           !(IsFree(h, Unit(p, 0)) && h.mem[Unit(p, 0)].blockSize == SPAN)
    ensures NoIdlePage(Carve(h, a, n, t, tag))
  {
    assert BlockOK(h, a);
    if a.page in h.pages { assert PageOK(h, a.page); }
    if a.off != 0 { assert BlockOK(h, Unit(a.page, 0)); Ordered(h, Unit(a.page, 0), a); }
  }

  lemma ReleaseNoIdle(h: Heap, a: Unit)
    requires Inv(h) && NoIdlePage(h) && a in h.starts && !IsFree(h, a)
    ensures NoIdlePage(Release(h, a))
  {
    Neighbours(h, a);
    var l := Absorber(h, a);
    if l.off != 0 {
      var f := Unit(a.page, 0);
      assert BlockOK(h, f);
      Ordered(h, f, l);
    }
  }

  // ---------------------------------------------------------------- history independence

  /** The end of a free block is a live block or the end marker, and live blocks are common. */
  lemma NotLonger(h1: Heap, h2: Heap, a: Unit)
    requires Inv(h1) && Inv(h2) && Live(h1) == Live(h2) && a in h1.starts && a in h2.starts && IsFree(h1, a)
    ensures a in h2.mem && h2.mem[a].blockSize <= h1.mem[a].blockSize
  {
    assert BlockOK(h1, a) && BlockOK(h2, a);
    var e := Next(h1, a);
    if e.off != SPAN {
      assert BlockOK(h1, e);
      assert e in Live(h1) && e in Live(h2);
      Ordered(h2, a, e);
    }
  }

  lemma SameSize(h1: Heap, h2: Heap, a: Unit)
    requires Inv(h1) && Inv(h2) && Live(h1) == Live(h2) && a in h1.starts && a in h2.starts
    ensures a in h1.mem && a in h2.mem && h1.mem[a].blockSize == h2.mem[a].blockSize
    ensures h1.mem[a].poolType == h2.mem[a].poolType
  {
    assert BlockOK(h1, a) && BlockOK(h2, a);
    assert a in Live(h1) <==> a in Live(h2);
    if IsFree(h1, a) {
      NotLonger(h1, h2, a);
      NotLonger(h2, h1, a);
    } else {
      assert Live(h1)[a] == Live(h2)[a];
    }
  }

  /** The walk over a page from a common block visits the same blocks in both heaps. */
  lemma {:induction false} SameFrom(h1: Heap, h2: Heap, a: Unit, b: Unit)
    requires Inv(h1) && Inv(h2) && Live(h1) == Live(h2) && a in h1.starts && a in h2.starts
    requires b in h1.starts && b.page == a.page && a.off <= b.off
    ensures b in h2.starts
    ensures a != b ==> b in h1.mem && b in h2.mem && h1.mem[b].prevSize == h2.mem[b].prevSize
    decreases b.off - a.off
  {
    assert BlockOK(h1, a) && BlockOK(h2, a);
    SameSize(h1, h2, a);
    if a != b {
      Ordered(h1, a, b);
      assert BlockOK(h1, b);
      SameFrom(h1, h2, Next(h1, a), b);
    }
  }

  lemma SameBlock(h1: Heap, h2: Heap, b: Unit)
    requires Inv(h1) && Inv(h2) && Live(h1) == Live(h2) && NoIdlePage(h1) && b in h1.starts
    ensures b in h2.starts && b in h1.mem && b in h2.mem && b.page in h1.pages && b.page in h2.pages
    ensures h1.mem[b].(tag := 0) == h2.mem[b].(tag := 0)
    ensures h1.pages[b.page] == h2.pages[b.page]
  {
    assert BlockOK(h1, b);
    var w := BusyPage(h1, b.page);
    assert w in Live(h2);
    assert BlockOK(h2, w);
    assert PageOK(h1, b.page) && PageOK(h2, b.page);
    assert BlockOK(h1, Unit(b.page, 0)) && BlockOK(h2, Unit(b.page, 0));
    SameFrom(h1, h2, Unit(b.page, 0), b);
    SameSize(h1, h2, b);
    assert BlockOK(h2, b);
    assert Live(h1)[w] == Live(h2)[w];
  }

  /** History independence: the live blocks alone determine the mapped pages, the tiling of every page
      and every header field of every block (tags of free blocks apart). */
  lemma LiveDeterminesHeap(h1: Heap, h2: Heap)
    requires Inv(h1) && Inv(h2) && NoIdlePage(h1) && NoIdlePage(h2) && Live(h1) == Live(h2)
    ensures h1.starts == h2.starts && h1.pages == h2.pages
    ensures forall a :: a in h1.starts ==> a in h1.mem && a in h2.mem && h1.mem[a].(tag := 0) == h2.mem[a].(tag := 0)
  {
    forall b | b in h1.starts
      ensures b in h2.starts && b in h1.mem && b in h2.mem && h1.mem[b].(tag := 0) == h2.mem[b].(tag := 0)
    {
      SameBlock(h1, h2, b);
    }
    forall b | b in h2.starts ensures b in h1.starts {
      SameBlock(h2, h1, b);
    }
    forall p | p in h1.pages ensures p in h2.pages && h1.pages[p] == h2.pages[p] {
      assert PageOK(h1, p);
      SameBlock(h1, h2, Unit(p, 0));
    }
    forall p | p in h2.pages ensures p in h1.pages {
      assert PageOK(h2, p);
      SameBlock(h2, h1, Unit(p, 0));
    }
  }
}
