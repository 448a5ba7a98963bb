/** The pool allocator (veakrnl/mm/ulpool.c): UlExpandPool, UlAllocatePoolWithTag, UlFreePoolWithTag. */
module UlPool {
  import opened PoolHeap
  import opened PoolHistory
  import opened PoolLists
  import opened Sums
  import opened Wrappers
  import BigPageTable

  datatype FreeResult = Freed | NullPointer | BugCheck(parameter: nat)

  const PAGE_BYTES := 4096
  const ULONG_MAX := 0xFFFF_FFFF

  // ---------------------------------------------------------------- pointers

  /** The address a caller gets for the block at `a`: the byte after its header. */
  function Pointer(a: Unit): int
  {
    a.page * PAGE_BYTES + a.off * 8 + 8
  }

  lemma PageIsAligned(p: nat)
    requires p % PAGE_BYTES == 0
    ensures p % 8 == 0
  {
    Multiple(512 * (p / PAGE_BYTES));
  }

  lemma Multiple(k: nat)
    ensures 8 * k % 8 == 0
  {
  }

  function HeaderOf(p: nat): Unit
  {
    Unit(p / PAGE_BYTES, p % PAGE_BYTES / 8 - 1)
  }

  /** Small-block pointers are 8-byte aligned, never page aligned, and give their header back;
      so the alignment test of UlFreePoolWithTag tells small blocks from big ones. */
  lemma PointerRoundTrip(h: Heap, a: Unit)
    requires Inv(h) && a in h.starts
    ensures Pointer(a) > 0 && Pointer(a) % 8 == 0 && Pointer(a) % PAGE_BYTES != 0
    ensures HeaderOf(Pointer(a)) == a
  {
    assert BlockOK(h, a);
    assert Pointer(a) / PAGE_BYTES == a.page && Pointer(a) % PAGE_BYTES == a.off * 8 + 8;
  }

  /** The units a request needs, header included. */
  function Units(bytes: nat): nat
  {
    ((bytes + 8) + 7) / 8 * 8 / 8
  }

  /** A request goes to the lists up to 4080 bytes; the units are those of the request and a header, rounded up. */
  lemma UnitsIs(bytes: nat)
    ensures Units(bytes) == (bytes + 15) / 8 && (Units(bytes) < 512 <==> bytes <= 4080)
  {
  }

  /** A block holds the request, and has room for list links exactly when the request is not empty. */
  lemma UnitsSuffice(bytes: nat)
    ensures 8 * Units(bytes) - 8 >= bytes
    ensures 8 * Units(bytes) - 8 < bytes + 8
    ensures Units(bytes) >= 2 <==> bytes >= 1
  {
  }

  // ---------------------------------------------------------------- header checks

  /** UlpIsValidPoolBlockHeader (its size tests) and UlpCheckHeader: what must hold not to stop the system. */
  predicate HeaderChecks(m: map<Unit, Header>, a: Unit)
  {
    && a in m && m[a].blockSize != 0 && a.off + m[a].blockSize <= SPAN
    && (if m[a].prevSize != 0 then
          var l := Unit(a.page, a.off - m[a].prevSize);
          0 <= l.off && l in m && m[l].blockSize == m[a].prevSize
        else a.off == 0)
    && (var n := Unit(a.page, a.off + m[a].blockSize);
        n.off % 512 != 0 ==> n in m && m[n].prevSize == m[a].blockSize)
  }

  /** The consistency checks never fire on a block of the pool. */
  lemma ChecksPass(h: Heap, a: Unit)
    requires Inv(h) && a in h.starts
    ensures HeaderChecks(h.mem, a)
  {
    assert BlockOK(h, a);
    if a.off != 0 { assert BlockOK(h, Left(h, a)); }
  }

  // ---------------------------------------------------------------- free lists hold exactly the free blocks

  ghost predicate FreeIn(h: Heap, a: Unit, id: HeadId)
  {
    && a in h.starts && IsFree(h, a) && h.mem[a].blockSize == id.size
    && a.page in h.pages && h.pages[a.page] == id.pool
  }

  /** ListHeads[k] of a pool type holds exactly the free blocks of k units of its pages. */
  ghost predicate Exact(h: Heap, order: map<HeadId, seq<Unit>>)
  {
    forall id, a {:trigger FreeIn(h, a, id)} :: id in order ==> (a in order[id] <==> FreeIn(h, a, id))
  }

  lemma CarveFreeIn(h: Heap, a: Unit, n: nat, t: nat, tag: nat, x: Unit, id: HeadId)
    requires Inv(h) && a in h.starts && IsFree(h, a) && 2 <= n <= h.mem[a].blockSize
    requires a.page in h.pages && h.pages[a.page] == t
    ensures var rest := h.mem[a].blockSize - n;
            FreeIn(Carve(h, a, n, t, tag), x, id) <==>
              (x != a && FreeIn(h, x, id)) || (rest > 1 && x == Unit(a.page, a.off + n) && id == HeadId(t, rest))
  {
    assert BlockOK(h, a);
    var r := Unit(a.page, a.off + n);
    if h.mem[a].blockSize > n + 1 && r in h.starts { Ordered(h, a, r); }
    if x in h.starts { assert BlockOK(h, x); }
  }

  lemma CoalesceFreeIn(h: Heap, a: Unit, x: Unit, id: HeadId)
    requires Inv(h) && a in h.starts && !IsFree(h, a)
    ensures a in h.mem && a.page in h.pages
    ensures var l, r := Absorber(h, a), Next(h, a);
            FreeIn(Coalesce(h, a), x, id) <==>
              (x == l && id == HeadId(h.pages[a.page], MergedSize(h, a))) || (x != l && x != r && FreeIn(h, x, id))
  {
    Neighbours(h, a);
    if x in h.starts { assert BlockOK(h, x); }
  }

  lemma DropPageFreeIn(h: Heap, p: nat, x: Unit, id: HeadId)
    ensures FreeIn(DropPage(h, p), x, id) <==> x.page != p && FreeIn(h, x, id)
  {
  }

  // ---------------------------------------------------------------- accounting

  ghost function SmallBytes(live: map<Unit, LiveBlock>, t: nat): map<Unit, nat>
  {
    map a | a in live && live[a].poolType == t + 1 :: 8 * live[a].units
  }

  ghost function BigBytes(m: map<nat, BigPageTable.BigAlloc>, t: nat): map<nat, nat>
  {
    map va | va in m && m[va].pool == t :: m[va].bytes
  }

  ghost function BigPages(m: map<nat, BigPageTable.BigAlloc>, t: nat): map<nat, nat>
  {
    map va | va in m && m[va].pool == t :: m[va].pages
  }

  ghost function PagesIn(pages: map<nat, nat>, t: nat): set<nat>
  {
    set p | p in pages && pages[p] == t
  }

  ghost function PagesOf(h: Heap, t: nat): set<nat>
  {
    PagesIn(h.pages, t)
  }

  /** Bytes a pool type has handed out: its live small blocks, headers included, and its big allocations. */
  ghost function Allocated(h: Heap, big: map<nat, BigPageTable.BigAlloc>, t: nat): nat
  {
    Total(SmallBytes(Live(h), t)) + Total(BigBytes(big, t))
  }

  ghost function Mapped(h: Heap, big: map<nat, BigPageTable.BigAlloc>, t: nat): nat
  {
    PAGE_BYTES * (|PagesOf(h, t)| + Total(BigPages(big, t)))
  }

  lemma AllocateAccounts(live: map<Unit, LiveBlock>, a: Unit, b: LiveBlock, t: nat)
    requires a !in live
    ensures Total(SmallBytes(live[a := b], t)) == Total(SmallBytes(live, t)) + (if b.poolType == t + 1 then 8 * b.units else 0)
  {
    if b.poolType == t + 1 {
      TotalAdd(SmallBytes(live, t), a, 8 * b.units);
      assert SmallBytes(live[a := b], t) == SmallBytes(live, t)[a := 8 * b.units];
    } else {
      assert SmallBytes(live[a := b], t) == SmallBytes(live, t);
    }
  }

  lemma FreeAccounts(live: map<Unit, LiveBlock>, a: Unit, t: nat)
    requires a in live
    ensures Total(SmallBytes(live, t)) ==
              Total(SmallBytes(live - {a}, t)) + (if live[a].poolType == t + 1 then 8 * live[a].units else 0)
  {
    AllocateAccounts(live - {a}, a, live[a], t);
    assert (live - {a})[a := live[a]] == live;
  }

  lemma BigAccounts(m: map<nat, BigPageTable.BigAlloc>, va: nat, b: BigPageTable.BigAlloc, t: nat)
    requires va !in m
    ensures Total(BigBytes(m[va := b], t)) == Total(BigBytes(m, t)) + (if b.pool == t then b.bytes else 0)
    ensures Total(BigPages(m[va := b], t)) == Total(BigPages(m, t)) + (if b.pool == t then b.pages else 0)
  {
    if b.pool == t {
      TotalAdd(BigBytes(m, t), va, b.bytes);
      TotalAdd(BigPages(m, t), va, b.pages);
      assert BigBytes(m[va := b], t) == BigBytes(m, t)[va := b.bytes];
      assert BigPages(m[va := b], t) == BigPages(m, t)[va := b.pages];
    } else {
      assert BigBytes(m[va := b], t) == BigBytes(m, t) && BigPages(m[va := b], t) == BigPages(m, t);
    }
  }

  lemma BigFreeAccounts(m: map<nat, BigPageTable.BigAlloc>, va: nat, t: nat)
    requires va in m
    ensures Total(BigBytes(m, t)) == Total(BigBytes(m - {va}, t)) + (if m[va].pool == t then m[va].bytes else 0)
    ensures Total(BigPages(m, t)) == Total(BigPages(m - {va}, t)) + (if m[va].pool == t then m[va].pages else 0)
  {
    BigAccounts(m - {va}, va, m[va], t);
    assert (m - {va})[va := m[va]] == m;
  }

  /** The four counters of each pool descriptor. */
  datatype Counters = Counters(pages: int, bigPages: int, bytesMapped: int, bytesAllocated: int)

  ghost predicate Accounted(h: Heap, big: map<nat, BigPageTable.BigAlloc>, c: seq<Counters>, t: nat)
  {
    t < |c| && c[t] == Counters(|PagesOf(h, t)|, Total(BigPages(big, t)), Mapped(h, big, t), Allocated(h, big, t))
  }

  ghost predicate Accounts(h: Heap, big: map<nat, BigPageTable.BigAlloc>, c: seq<Counters>)
  {
    |c| == 2 && forall t {:trigger Accounted(h, big, c, t)} :: 0 <= t < 2 ==> Accounted(h, big, c, t)
  }

  lemma EmptyAccounts()
    ensures Accounts(EmptyHeap, map[], [Counters(0, 0, 0, 0), Counters(0, 0, 0, 0)])
  {
    var none: map<nat, BigPageTable.BigAlloc> := map[];
    var c := [Counters(0, 0, 0, 0), Counters(0, 0, 0, 0)];
    forall t | 0 <= t < 2 ensures Accounted(EmptyHeap, none, c, t) {
      assert SmallBytes(Live(EmptyHeap), t) == map[] && BigBytes(none, t) == map[];
      assert BigPages(none, t) == map[] && PagesOf(EmptyHeap, t) == {};
    }
  }

  ghost function GainPage(c: seq<Counters>, t: nat): seq<Counters>
    requires |c| == 2 && t < 2
  {
    c[t := c[t].(pages := c[t].pages + 1, bytesMapped := c[t].bytesMapped + PAGE_BYTES)]
  }

  lemma PagesAdded(pages: map<nat, nat>, p: nat, t: nat, i: nat)
    requires p !in pages
    ensures PagesIn(pages[p := t], i) == PagesIn(pages, i) + (if i == t then {p} else {})
  {
  }

  lemma AddPagePages(h: Heap, p: nat, t: nat, i: nat)
    requires p !in h.pages
    ensures |PagesOf(AddPage(h, p, t), i)| == |PagesOf(h, i)| + (if i == t then 1 else 0)
  {
    PagesAdded(h.pages, p, t, i);
    assert p !in PagesOf(h, i);
  }

  lemma AddPageAccounts(h: Heap, big: map<nat, BigPageTable.BigAlloc>, c: seq<Counters>, p: nat, t: nat)
    requires Inv(h) && Accounts(h, big, c) && p !in h.pages && t < 2
    ensures Accounts(AddPage(h, p, t), big, GainPage(c, t))
  {
    AddPageLive(h, p, t);
    forall i | 0 <= i < 2 ensures Accounted(AddPage(h, p, t), big, GainPage(c, t), i) {
      assert Accounted(h, big, c, i);
      AddPagePages(h, p, t, i);
    }
  }

  lemma AddPageExact(h: Heap, order: map<HeadId, seq<Unit>>, p: nat, t: nat)
    requires Inv(h) && Exact(h, order) && p !in h.pages && HeadId(t, SPAN) in order
    ensures forall id :: id in order ==> Unit(p, 0) !in order[id]
    ensures Exact(AddPage(h, p, t), order[HeadId(t, SPAN) := order[HeadId(t, SPAN)] + [Unit(p, 0)]])
  {
    var h' := AddPage(h, p, t);
    forall x | x in h.starts ensures x.page != p {
      assert BlockOK(h, x);
    }
    forall id, x | id in order
      ensures x in order[id] <==> FreeIn(h, x, id)
      ensures FreeIn(h', x, id) <==> FreeIn(h, x, id) || (x == Unit(p, 0) && id == HeadId(t, SPAN))
    {
      if x in h.starts { assert BlockOK(h, x); }
    }
  }

  ghost function Charge(c: seq<Counters>, t: nat, bytes: int): seq<Counters>
    requires |c| == 2 && t < 2
  {
    c[t := c[t].(bytesAllocated := c[t].bytesAllocated + bytes)]
  }

  lemma CarveAccounts(h: Heap, big: map<nat, BigPageTable.BigAlloc>, c: seq<Counters>, a: Unit, n: nat, t: nat, tag: nat)
    requires Inv(h) && Accounts(h, big, c) && t < 2
    requires a in h.starts && IsFree(h, a) && 2 <= n <= h.mem[a].blockSize
    ensures a in Carve(h, a, n, t, tag).mem
    ensures Accounts(Carve(h, a, n, t, tag), big, Charge(c, t, 8 * Carve(h, a, n, t, tag).mem[a].blockSize))
  {
    var h' := Carve(h, a, n, t, tag);
    var got := CarveLive(h, a, n, t, tag);
    assert BlockOK(h, a);
    assert a in Live(h') && Live(h')[a].units == h'.mem[a].blockSize;
    var c' := Charge(c, t, 8 * h'.mem[a].blockSize);
    forall i | 0 <= i < 2 ensures Accounted(h', big, c', i) {
      assert Accounted(h, big, c, i);
      AllocateAccounts(Live(h), a, LiveBlock(got, t + 1, tag), i);
      assert PagesOf(h', i) == PagesOf(h, i);
    }
  }

  ghost predicate AllHeads(order: map<HeadId, seq<Unit>>)
  {
    forall id {:trigger id in order} :: id in order <==> id.pool < 2 && id.size < 512
  }

  /** The lists after the head of class `id` has been carved. */
  ghost function CarvedLists(order: map<HeadId, seq<Unit>>, id: HeadId, n: nat): map<HeadId, seq<Unit>>
    requires AllHeads(order) && id in order && order[id] != [] && n <= id.size
  {
    var a := order[id][0];
    var o := order[id := order[id][1..]];
    var rest := HeadId(id.pool, id.size - n);
    if id.size > n + 1 then o[rest := o[rest] + [Unit(a.page, a.off + n)]] else o
  }

  lemma CarveExact(h: Heap, order: map<HeadId, seq<Unit>>, id: HeadId, n: nat, tag: nat)
    requires Inv(h) && Exact(h, order) && AllHeads(order) && id in order && NoDuplicates(order[id])
    requires order[id] != [] && 2 <= n <= id.size
    ensures var a := order[id][0];
            && FreeIn(h, a, id)
            && (id.size > n + 1 ==> forall j :: j in order ==> Unit(a.page, a.off + n) !in order[j])
            && Exact(Carve(h, a, n, id.pool, tag), CarvedLists(order, id, n))
  {
    var a := order[id][0];
    assert a in order[id];
    assert FreeIn(h, a, id);
    assert BlockOK(h, a);
    var r := Unit(a.page, a.off + n);
    if id.size > n + 1 && r in h.starts { Ordered(h, a, r); }
    forall j | j in order ensures id.size > n + 1 ==> r !in order[j] {
      assert r in order[j] <==> FreeIn(h, r, j);
    }
    var h', order' := Carve(h, a, n, id.pool, tag), CarvedLists(order, id, n);
    forall j, x | j in order' ensures x in order'[j] <==> FreeIn(h', x, j) {
      CarveFreeIn(h, a, n, id.pool, tag, x, j);
      assert x in order[j] <==> FreeIn(h, x, j);
      assert order[id] == [a] + order[id][1..];
    }
  }

  lemma BigChargeAccounts(h: Heap, big: map<nat, BigPageTable.BigAlloc>, c: seq<Counters>, va: nat, b: BigPageTable.BigAlloc)
    requires Accounts(h, big, c) && va !in big && b.pool < 2
    ensures Accounts(h, big[va := b], ChargeBig(c, b))
  {
    var big', c' := big[va := b], ChargeBig(c, b);
    forall i | 0 <= i < 2 ensures Accounted(h, big', c', i) {
      assert Accounted(h, big, c, i);
      BigAccounts(big, va, b, i);
    }
  }

  ghost function ChargeBig(c: seq<Counters>, b: BigPageTable.BigAlloc): seq<Counters>
    requires |c| == 2 && b.pool < 2
  {
    var x := c[b.pool];
    c[b.pool := Counters(x.pages, x.bigPages + b.pages, x.bytesMapped + b.pages * PAGE_BYTES, x.bytesAllocated + b.bytes)]
  }

  lemma BigRefundAccounts(h: Heap, big: map<nat, BigPageTable.BigAlloc>, c: seq<Counters>, va: nat)
    requires Accounts(h, big, c) && va in big && big[va].pool < 2
    ensures Accounts(h, big - {va}, RefundBig(c, big[va]))
  {
    var big', c' := big - {va}, RefundBig(c, big[va]);
    forall i | 0 <= i < 2 ensures Accounted(h, big', c', i) {
      assert Accounted(h, big, c, i);
      BigFreeAccounts(big, va, i);
    }
  }

  ghost function RefundBig(c: seq<Counters>, b: BigPageTable.BigAlloc): seq<Counters>
    requires |c| == 2 && b.pool < 2
  {
    var x := c[b.pool];
    c[b.pool := Counters(x.pages, x.bigPages - b.pages, x.bytesMapped - b.pages * PAGE_BYTES, x.bytesAllocated - b.bytes)]
  }

  ghost function LosePage(c: seq<Counters>, t: nat): seq<Counters>
    requires |c| == 2 && t < 2
  {
    c[t := c[t].(pages := c[t].pages - 1, bytesMapped := c[t].bytesMapped - PAGE_BYTES)]
  }

  ghost function ReleaseCounters(h: Heap, c: seq<Counters>, a: Unit): seq<Counters>
    requires Inv(h) && a in h.starts && |c| == 2
  {
    assert BlockOK(h, a) && PageOK(h, a.page);
    var t := h.pages[a.page];
    Charge(if MergedSize(h, a) == SPAN then LosePage(c, t) else c, t, -8 * h.mem[a].blockSize)
  }

  lemma ReleasePages(h: Heap, a: Unit, t: nat)
    requires Inv(h) && a in h.starts
    ensures a.page in h.pages
    ensures |PagesOf(Release(h, a), t)| == |PagesOf(h, t)| - if MergedSize(h, a) == SPAN && h.pages[a.page] == t then 1 else 0
  {
    assert BlockOK(h, a);
    if MergedSize(h, a) == SPAN {
      assert PagesOf(Release(h, a), t) == PagesOf(h, t) - {a.page};
      assert a.page in PagesOf(h, t) <==> h.pages[a.page] == t;
    } else {
      assert PagesOf(Release(h, a), t) == PagesOf(h, t);
    }
  }

  lemma ReleaseAccounts(h: Heap, big: map<nat, BigPageTable.BigAlloc>, c: seq<Counters>, a: Unit)
    requires Inv(h) && Accounts(h, big, c) && a in h.starts && !IsFree(h, a)
    ensures Accounts(Release(h, a), big, ReleaseCounters(h, c, a))
  {
    assert BlockOK(h, a) && PageOK(h, a.page);
    ReleaseLive(h, a);
    var h', c' := Release(h, a), ReleaseCounters(h, c, a);
    forall i | 0 <= i < 2 ensures Accounted(h', big, c', i) {
      assert Accounted(h, big, c, i);
      FreeAccounts(Live(h), a, i);
      ReleasePages(h, a, i);
    }
  }

  /** `order1` is `order` without the free neighbours of the block being freed. */
  ghost predicate Detached(h: Heap, a: Unit, order: map<HeadId, seq<Unit>>, order1: map<HeadId, seq<Unit>>)
    requires Inv(h) && a in h.starts
  {
    && order1.Keys == order.Keys && a in h.mem
    && forall j, x {:trigger FreeIn(h, x, j)} :: j in order ==>
         (x in order1[j] <==> x in order[j] && x != Absorber(h, a) && x != Next(h, a))
  }

  lemma CoalesceExact(h: Heap, a: Unit, order: map<HeadId, seq<Unit>>, order1: map<HeadId, seq<Unit>>, id: HeadId)
    requires Inv(h) && a in h.starts && !IsFree(h, a) && Exact(h, order) && Detached(h, a, order, order1)
    requires a.page in h.pages && id == HeadId(h.pages[a.page], MergedSize(h, a)) && id in order
    ensures forall j :: j in order1 ==> Absorber(h, a) !in order1[j]
    ensures Exact(Coalesce(h, a), order1[id := [Absorber(h, a)] + order1[id]])
  {
    var h', l := Coalesce(h, a), Absorber(h, a);
    forall j | j in order1 ensures l !in order1[j] {
      assert FreeIn(h, l, j) || !FreeIn(h, l, j);
    }
    var order' := order1[id := [l] + order1[id]];
    forall j, x | j in order' ensures x in order'[j] <==> FreeIn(h', x, j) {
      CoalesceFreeIn(h, a, x, j);
      assert x in order[j] <==> FreeIn(h, x, j);
    }
  }

  /** When the merged block is a whole page, detaching the neighbours leaves nothing of the page listed. */
  lemma DropExact(h: Heap, a: Unit, order: map<HeadId, seq<Unit>>, order1: map<HeadId, seq<Unit>>)
    requires Inv(h) && a in h.starts && !IsFree(h, a) && Exact(h, order) && Detached(h, a, order, order1)
    requires MergedSize(h, a) == SPAN
    ensures Exact(Release(h, a), order1)
  {
    var h1, l, h' := Coalesce(h, a), Absorber(h, a), Release(h, a);
    CoalesceInv(h, a);
    Neighbours(h, a);
    AloneInPage(h1, l);
    forall j, x | j in order1 ensures x in order1[j] <==> FreeIn(h', x, j) {
      DropPageFreeIn(h1, a.page, x, j);
      CoalesceFreeIn(h, a, x, j);
      assert x in order[j] <==> FreeIn(h, x, j);
    }
  }

  /** Two writes to one header around a write to another. */
  lemma WriteTwice(m: map<Unit, Header>, l: Unit, e: Unit, a: Header, b: Header, c: Header)
    requires l != e
    ensures m[l := a][e := b][l := c] == m[l := c][e := b]
  {
  }

  /** The merged block ends behind its right neighbour if that is free, else in front of it. */
  lemma MergedIs(h: Heap, a: Unit, right: Unit)
    requires Inv(h) && a in h.starts && !IsFree(h, a)
    requires a in h.mem && Absorber(h, a) in h.mem
    requires var l := Absorber(h, a);
      right == Unit(l.page, l.off + if l == a then h.mem[a].blockSize else h.mem[a].blockSize + h.mem[l].blockSize)
    ensures right == Next(h, a) && right in h.mem && 0 < right.off < 512 && (IsFree(h, right) ==> right in h.starts)
    ensures right != Absorber(h, a)
    ensures Absorber(h, a).off + MergedSize(h, a) == right.off + if IsFree(h, right) then h.mem[right].blockSize else 0
  {
    Neighbours(h, a);
  }

  /** A block other than the one taken off is still listed exactly where it is free. */
  lemma StillListed(h: Heap, order: map<HeadId, seq<Unit>>, order1: map<HeadId, seq<Unit>>, l: Unit, x: Unit)
    requires Exact(h, order) && order1.Keys == order.Keys && x != l
    requires forall j, y :: j in order1 ==> (y in order1[j] <==> y in order[j] && y != l)
    ensures forall j :: j in order1 ==> (x in order1[j] <==> FreeIn(h, x, j))
  {
    forall j | j in order1 ensures x in order1[j] <==> FreeIn(h, x, j) {
      assert j in order.Keys && (x in order[j] <==> FreeIn(h, x, j));
    }
  }

  lemma CoalesceIs(h: Heap, a: Unit, l: Unit, size: Bits9)
    requires Inv(h) && a in h.starts && !IsFree(h, a) && l == Absorber(h, a) && size == MergedSize(h, a)
    ensures a in h.mem && l in h.mem && Unit(l.page, l.off + size) in h.mem && 0 < l.off + size < 512
    ensures var e, w := Unit(l.page, l.off + size), h.mem[l].(blockSize := size);
      Coalesce(h, a).mem == h.mem[l := w][e := h.mem[e].(prevSize := size)][l := w.(poolType := 0, tag := FREE_TAG)]
    ensures Coalesce(h, a).starts == h.starts - ((if l == a then {} else {a}) + (if IsFree(h, Next(h, a)) then {Next(h, a)} else {}))
    ensures Coalesce(h, a).pages == h.pages
  {
    Neighbours(h, a);
    var e, w := Unit(l.page, l.off + size), h.mem[l].(blockSize := size);
    WriteTwice(h.mem, l, e, w, h.mem[e].(prevSize := size), w.(poolType := 0, tag := FREE_TAG));
  }

  /** What a carve of the head of a class keeps. */
  lemma CarveKeeps(h: Heap, big: map<nat, BigPageTable.BigAlloc>, c: seq<Counters>, order: map<HeadId, seq<Unit>>, id: HeadId,
                   n: nat, tag: nat)
    requires Inv(h) && Exact(h, order) && AllHeads(order) && id in order && NoDuplicates(order[id]) && Accounts(h, big, c)
    requires order[id] != [] && 2 <= n <= id.size
    ensures var a := order[id][0];
            && FreeIn(h, a, id) && HeaderChecks(h.mem, a)
            && (id.size > n + 1 ==> forall j :: j in order ==> Unit(a.page, a.off + n) !in order[j])
    ensures var h' := Carve(h, order[id][0], n, id.pool, tag);
            && Inv(h') && Exact(h', CarvedLists(order, id, n)) && order[id][0] in h'.mem
            && Accounts(h', big, Charge(c, id.pool, 8 * h'.mem[order[id][0]].blockSize))
  {
    CarveExact(h, order, id, n, tag);
    ChecksPass(h, order[id][0]);
    CarveInv(h, order[id][0], n, id.pool, tag);
    CarveAccounts(h, big, c, order[id][0], n, id.pool, tag);
  }

  /** Class k is the smallest one with a free block among those of n units and more. */
  ghost predicate SmallestFirst(order: map<HeadId, seq<Unit>>, t: nat, n: nat, k: nat)
  {
    && n <= k < 512 && t < 2 && HeadId(t, k) in order && order[HeadId(t, k)] != []
    && forall j :: n <= j < k ==> HeadId(t, j) in order && order[HeadId(t, j)] == []
  }

  class Pool {
    const lists: FreeLists
    const table: BigPageTable.Table
    var mem: map<Unit, Header>
    var counters: seq<Counters>
    ghost var starts: set<Unit>
    ghost var pages: map<nat, nat>

    ghost function Now(): Heap
      reads this
    {
      Heap(mem, starts, pages)
    }

    ghost predicate Consistent()
      reads this, lists, table, table.slots
    {
      && lists.Valid() && table.Valid()
      && Inv(Now()) && Exact(Now(), lists.order) && Accounts(Now(), table.entries, counters)
    }

    /** What holds between two public calls. */
    ghost predicate Valid()
      reads this, lists, table, table.slots
    {
      Consistent() && NoIdlePage(Now())
    }

    constructor ()
      ensures Valid() && Live(Now()) == map[] && table.entries == map[]
      ensures fresh(lists) && fresh(table) && fresh(table.slots)
    {
      lists := new FreeLists();
      table := new BigPageTable.Table();
      mem, starts, pages := map[], {}, map[];
      counters := [Counters(0, 0, 0, 0), Counters(0, 0, 0, 0)];
      EmptyAccounts();
    }

    /** UlExpandPool; `page` is what MmAllocatePoolPage answers. */
    method Expand(t: nat, page: Option<nat>) returns (ok: bool)
      requires Consistent() && (page.Some? ==> page.value !in pages)
      modifies this, lists
      ensures Consistent() && ok == (t < 2 && page.Some?)
      ensures !ok ==> Now() == old(Now()) && lists.order == old(lists.order)
      ensures ok ==> Now() == AddPage(old(Now()), page.value, t)
      ensures ok ==> var id := HeadId(t, SPAN);
                     id in old(lists.order) && lists.order == old(lists.order)[id := old(lists.order[id]) + [Unit(page.value, 0)]]
    {
      if t >= 2 || page.None? { return false; }
      ghost var h, big, cs := Now(), table.entries, counters;
      var p := page.value;
      AddPageInv(h, p, t);
      AddPageExact(h, lists.order, p, t);
      AddPageAccounts(h, table.entries, counters, p, t);
      mem := mem[Unit(p, 0) := Header(0, SPAN, 0, FREE_TAG)];
      mem := mem[Unit(p, SPAN) := Header(SPAN, 1, t + 1, END_TAG)];
      starts, pages := starts + {Unit(p, 0)}, pages[p := t];
      lists.InsertTail(HeadId(t, SPAN), Unit(p, 0));
      var c := counters[t];
      counters := counters[t := c.(pages := c.pages + 1, bytesMapped := c.bytesMapped + PAGE_BYTES)];
      assert Now() == AddPage(h, p, t) && table.entries == big;
      assert counters == GainPage(cs, t);
      assert Accounts(Now(), table.entries, counters);
      return true;
    }

    /** The search of UlAllocatePoolWithTag: the smallest non-empty class that is large enough, 512 if none. */
    method FirstClass(t: nat, n: nat) returns (k: nat)
      requires lists.Valid() && t < 2 && n < 512
      ensures n <= k <= 512
      ensures forall j :: n <= j < k ==> HeadId(t, j) in lists.order && lists.order[HeadId(t, j)] == []
      ensures k < 512 ==> HeadId(t, k) in lists.order && lists.order[HeadId(t, k)] != []
    {
      k := n;
      while k < 512
        invariant n <= k <= 512
        invariant forall j :: n <= j < k ==> HeadId(t, j) in lists.order && lists.order[HeadId(t, j)] == []
      {
        var empty := lists.IsEmpty(HeadId(t, k));
        if !empty { return; }
        k := k + 1;
      }
    }

    /** The header writes of an allocation: mark the block, and when two or more units remain, give the
        remainder a header of its own and tell the block after it. */
    method Split(a: Unit, n: nat, t: nat, tag: nat)
      requires Inv(Now()) && a in starts && IsFree(Now(), a) && 2 <= n <= mem[a].blockSize
      modifies `mem, `starts
      ensures Now() == Carve(old(Now()), a, n, t, tag)
    {
      ghost var h := Now();
      assert BlockOK(h, a);
      var size := mem[a].blockSize;
      if size > n + 1 {
        CutOff(a, n, size);
        ghost var r, next := Unit(a.page, a.off + n), Unit(a.page, a.off + size);
        MarkedLast(h.mem, a, r, next, mem[a], mem[r], mem[next], mem[a].(poolType := t + 1, tag := tag));
      }
      mem := mem[a := mem[a].(poolType := t + 1, tag := tag)];
    }

    /** It does not matter when the block is marked. */
    static lemma MarkedLast(m: map<Unit, Header>, a: Unit, r: Unit, e: Unit, x: Header, y: Header, z: Header, w: Header)
      requires a != r && a != e
      ensures m[a := x][r := y][e := z][a := w] == m[a := w][r := y][e := z]
    {
    }

    /** The headers of the front, of the rest behind it, and of the block behind that. */
    method CutOff(a: Unit, n: nat, size: nat)
      requires Inv(Now()) && a in starts && a in mem && size == mem[a].blockSize && n + 1 < size
      modifies `mem, `starts
      ensures a in old(mem) && starts == old(starts) + {Unit(a.page, a.off + n)}
      ensures var r, next := Unit(a.page, a.off + n), Unit(a.page, a.off + size);
        next in old(mem)
        && mem == old(mem)[a := old(mem)[a].(blockSize := n)]
                          [r := Header(n, size - n, 0, if r in old(mem) then old(mem)[r].tag else 0)]
                          [next := old(mem)[next].(prevSize := size - n)]
    {
      assert BlockOK(Now(), a);
      var rest := size - n;
      var r := Unit(a.page, a.off + n);
      var next := Unit(a.page, a.off + size);
      mem := mem[a := mem[a].(blockSize := n)];
      mem := mem[r := Header(n, rest, 0, if r in mem then mem[r].tag else 0)];
      mem := mem[next := mem[next].(prevSize := rest)];
      starts := starts + {r};
    }

    /** Take the head of class k, split it, and hand its front out. */
    method Take(t: nat, n: nat, k: nat, tag: nat) returns (a: Unit)
      requires Consistent() && t < 2 && 2 <= n <= k < 512
      requires HeadId(t, k) in lists.order && lists.order[HeadId(t, k)] != []
      modifies this, lists
      ensures Consistent() && a == old(lists.order)[HeadId(t, k)][0] && FreeIn(old(Now()), a, HeadId(t, k))
      ensures Now() == Carve(old(Now()), a, n, t, tag)
    {
      ghost var h, big, cs, os, id := Now(), table.entries, counters, lists.order, HeadId(t, k);
      assert NoDuplicates(os[id]) by { assert ListOK(lists.flink, lists.blink, os, id); }
      CarveKeeps(h, big, cs, os, id, n, tag);
      a := lists.RemoveHead(HeadId(t, k));
      Split(a, n, t, tag);
      KeepRest(a, t, n, k, os);
      Bill(t, 8 * mem[a].blockSize);
    }

    /** A remainder of more than one unit goes last on the list of its size. */
    method KeepRest(a: Unit, t: nat, n: nat, k: nat, ghost os: map<HeadId, seq<Unit>>)
      requires lists.Valid() && AllHeads(os) && t < 2 && n <= k < 512 && HeadId(t, k) in os && os[HeadId(t, k)] != []
      requires a == os[HeadId(t, k)][0] && lists.order == os[HeadId(t, k) := os[HeadId(t, k)][1..]]
      requires k > n + 1 ==> forall j :: j in os ==> Unit(a.page, a.off + n) !in os[j]
      modifies lists
      ensures lists.Valid() && lists.order == CarvedLists(os, HeadId(t, k), n)
    {
      if k > n + 1 {
        lists.InsertTail(HeadId(t, k - n), Unit(a.page, a.off + n));
      }
    }

    method Bill(t: nat, bytes: int)
      requires |counters| == 2 && t < 2
      modifies `counters
      ensures counters == Charge(old(counters), t, bytes)
    {
      var c := counters[t];
      counters := counters[t := c.(bytesAllocated := c.bytesAllocated + bytes)];
    }

    /** The small-request path. The retry after a successful UlExpandPool always finds a block, so the
        loop runs at most twice. */
    method AllocateSmall(t: nat, n: nat, tag: nat, page: Option<nat>) returns (r: Option<Unit>, ghost got: nat)
      requires Valid() && t < 2 && 2 <= n < 512 && (page.Some? ==> page.value !in pages)
      modifies this, lists
      ensures Valid()
      ensures r.None? <==> page.None? && forall k :: n <= k < 512 ==> old(lists.order)[HeadId(t, k)] == []
      ensures r.None? ==> Now() == old(Now()) && lists.order == old(lists.order)
      ensures r.Some? ==> r.value !in Live(old(Now())) && n <= got <= n + 1
      ensures r.Some? ==> Live(Now()) == Live(old(Now()))[r.value := LiveBlock(got, t + 1, tag)]
      // smallest adequate class first, and a new page only when every adequate class is empty
      ensures r.Some? ==>
                if forall k :: n <= k < 512 ==> old(lists.order)[HeadId(t, k)] == [] then
                  page.Some? && r.value == Unit(page.value, 0)
                else
                  exists k :: SmallestFirst(old(lists.order), t, n, k) && r.value == old(lists.order)[HeadId(t, k)][0]
    {
      ghost var h, os := Now(), lists.order;
      var expanded := false;
      while true
        invariant Consistent()
        invariant !expanded ==> Now() == h && lists.order == os
        invariant expanded ==> page.Some? && Now() == AddPage(h, page.value, t) &&
                               lists.order == os[HeadId(t, SPAN) := os[HeadId(t, SPAN)] + [Unit(page.value, 0)]]
        invariant expanded ==> forall k :: n <= k < 512 ==> HeadId(t, k) in os && os[HeadId(t, k)] == []
        decreases if expanded then 0 else 1
      {
        var k := FirstClass(t, n);
        if k < 512 {
          ghost var h0 := Now();
          var a := Take(t, n, k, tag);
          got := AllocateSettles(h, h0, a, n, t, tag);
          assert !expanded ==> SmallestFirst(os, t, n, k);
          return Some(a), got;
        }
        var ok := Expand(t, page);
        if !ok { return None, 0; }
        expanded := true;
      }
    }

    /** The big-request path; `va` is what MmAllocatePoolPages answers. */
    method AllocateBig(t: nat, bytes: nat, tag: nat, va: Option<nat>) returns (r: Option<nat>)
      requires Valid() && t < 2 && bytes > 0
      requires va.Some? ==> BigPageTable.IsPage(va.value) && va.value !in table.entries
      modifies this, table, table.slots
      ensures Valid() && Now() == old(Now())
      ensures r.Some? ==> r == va
      ensures r.None? <==> va.None? || forall i :: 0 <= i < BigPageTable.SLOTS ==> BigPageTable.Occupied(old(table.slots[..])[i])
      ensures table.entries ==
                if r.None? then old(table.entries)
                else old(table.entries)[r.value := BigPageTable.BigAlloc(tag, (bytes - 1) / PAGE_BYTES + 1, bytes, t)]
    {
      if va.None? { return None; }
      var b := BigPageTable.BigAlloc(tag, (bytes - 1) / PAGE_BYTES + 1, bytes, t);
      ghost var h, big, cs := Now(), table.entries, counters;
      var tracked := table.Insert(va.value, b);
      if !tracked { return None; }
      BigChargeAccounts(h, big, cs, va.value, b);
      BillBig(b);
      return va;
    }

    method BillBig(b: BigPageTable.BigAlloc)
      requires |counters| == 2 && b.pool < 2
      modifies `counters
      ensures counters == ChargeBig(old(counters), b)
    {
      var c := counters[b.pool];
      counters := counters[b.pool := Counters(c.pages, c.bigPages + b.pages,
                                              c.bytesMapped + b.pages * PAGE_BYTES, c.bytesAllocated + b.bytes)];
    }

    /** UlAllocatePoolWithTag: NULL for a bad pool type or for more than 0xFFFFFFF0 bytes, whose rounding would wrap. Up to
        4080 bytes come from the lists, and are had exactly when a large enough class has a block or a page can be mapped;
        more come as whole pages, and are had exactly when there are such and the table has a slot. */
    method Allocate(t: nat, bytes: nat, tag: nat, page: Option<nat>, va: Option<nat>) returns (p: nat, ghost got: nat)
      requires Valid() && bytes >= 1
      requires page.Some? ==> page.value !in pages
      requires va.Some? ==> BigPageTable.IsPage(va.value) && va.value !in table.entries
      modifies this, lists, table, table.slots
      ensures Valid()
      ensures t >= 2 || bytes > 0xFFFF_FFF0 ==> p == 0
      ensures p == 0 ==> Now() == old(Now()) && table.entries == old(table.entries)
      ensures t < 2 && bytes <= 4080 ==>
        (p == 0 <==> page.None? && forall k :: (bytes + 15) / 8 <= k < 512 ==> old(lists.order)[HeadId(t, k)] == [])
      ensures t < 2 && 4080 < bytes <= 0xFFFF_FFF0 ==>
        (p == 0 <==> va.None? || forall i :: 0 <= i < 1024 ==> old(table.slots[..])[i].va !in {0, 0xFFFF_FFFF})
      ensures p != 0 && bytes <= 4080 ==>
        var a := Unit(p / 4096, p % 4096 / 8 - 1);
        && p % 4096 != 0 && p % 8 == 0 && a !in Live(old(Now())) && (bytes + 15) / 8 <= got <= (bytes + 15) / 8 + 1
        && Live(Now()) == Live(old(Now()))[a := LiveBlock(got, t + 1, tag)] && table.entries == old(table.entries)
      ensures p != 0 && bytes > 4080 ==>
        && p % 4096 == 0 && Some(p) == va && Now() == old(Now())
        && table.entries == old(table.entries)[p := BigPageTable.BigAlloc(tag, (bytes - 1) / 4096 + 1, bytes, t)]
    {
      if t >= 2 || bytes > ULONG_MAX - 8 - 7 { return 0, 0; }
      UnitsSuffice(bytes);
      UnitsIs(bytes);
      var n := Units(bytes);
      if n >= 512 {
        var big := AllocateBig(t, bytes, tag, va);
        return if big.Some? then big.value else 0, 0;
      }
      var a;
      a, got := AllocateSmall(t, n, tag, page);
      if a.None? { return 0, 0; }
      assert a.value in Live(Now());
      PointerRoundTrip(Now(), a.value);
      p := Pointer(a.value);
    }

    /** UlpRemoveEntry on a free block. */
    method Unlink(x: Unit, ghost id: HeadId)
      requires lists.Valid() && id in lists.order && x in lists.order[id]
      modifies lists
      ensures lists.Valid() && lists.order.Keys == old(lists.order).Keys
      ensures forall j, y :: j in lists.order ==> (y in lists.order[j] <==> y in old(lists.order)[j] && y != x)
    {
      ghost var os := lists.order;
      assert ListOK(lists.flink, lists.blink, os, id);
      ghost var k :| 0 <= k < |os[id]| && os[id][k] == x;
      Shrink(os[id], k);
      lists.RemoveEntry(x, id, k);
    }

    /** A neighbour is taken off its list if it is free. */
    method UnlinkFree(x: Unit) returns (units: int)
      requires lists.Valid() && Inv(Now()) && x in mem && (IsFree(Now(), x) ==> x in starts)
      requires AllHeads(lists.order) && forall j :: j in lists.order ==> (x in lists.order[j] <==> FreeIn(Now(), x, j))
      modifies lists
      ensures lists.Valid() && lists.order.Keys == old(lists.order).Keys
      ensures units == if IsFree(Now(), x) then mem[x].blockSize else 0
      ensures forall j, y :: j in lists.order ==> (y in lists.order[j] <==> y in old(lists.order)[j] && y != x)
    {
      units := 0;
      if mem[x].poolType == 0 {
        ChecksPass(Now(), x);
        assert BlockOK(Now(), x) && PageOK(Now(), x.page);
        ghost var id := HeadId(pages[x.page], mem[x].blockSize);
        assert FreeIn(Now(), x, id);
        Unlink(x, id);
        units := mem[x].blockSize;
      }
    }

    /** The left neighbour, if there is one. */
    method DetachLeft(a: Unit) returns (l: Unit, units: int)
      requires Consistent() && AllHeads(lists.order) && a in starts && !IsFree(Now(), a)
      modifies lists
      ensures lists.Valid() && lists.order.Keys == old(lists.order).Keys && l == Absorber(Now(), a)
      ensures a in mem && units == if l == a then mem[a].blockSize else mem[a].blockSize + mem[l].blockSize
      ensures l in mem
      ensures forall j, y :: j in lists.order ==> (y in lists.order[j] <==> y in old(lists.order)[j] && y != l)
    {
      ghost var h, os := Now(), lists.order;
      Neighbours(h, a);
      assert BlockOK(h, a);
      l, units := a, mem[a].blockSize;
      if mem[a].prevSize != 0 {
        var left := Unit(a.page, a.off - mem[a].prevSize);
        assert left == Left(h, a) && BlockOK(h, left);
        forall j | j in lists.order ensures left in lists.order[j] <==> FreeIn(h, left, j) { }
        var more := UnlinkFree(left);
        if mem[left].poolType == 0 { l, units := left, units + more; }
      }
      forall j, y | j in os ensures y in lists.order[j] <==> y in os[j] && y != l {
        assert y in os[j] <==> FreeIn(h, y, j);
      }
    }

    /** Detach the free neighbours of `a` from their lists and measure the block that absorbs all three. */
    method Detach(a: Unit) returns (l: Unit, size: Bits9)
      requires Consistent() && AllHeads(lists.order) && a in starts && !IsFree(Now(), a)
      modifies lists
      ensures lists.Valid() && l == Absorber(Now(), a) && size == MergedSize(Now(), a)
      ensures Detached(Now(), a, old(lists.order), lists.order)
    {
      ghost var os := lists.order;
      var units;
      l, units := DetachLeft(a);
      size := DetachRight(a, l, units, os);
    }

    /** The right neighbour, which may be the end marker. */
    method DetachRight(a: Unit, l: Unit, units: int, ghost os: map<HeadId, seq<Unit>>) returns (size: Bits9)
      requires lists.Valid() && Inv(Now()) && Exact(Now(), os) && AllHeads(os) && a in starts && !IsFree(Now(), a)
      requires l == Absorber(Now(), a) && a in mem && l in mem
      requires units == if l == a then mem[a].blockSize else mem[a].blockSize + mem[l].blockSize
      requires lists.order.Keys == os.Keys
      requires forall j, y :: j in lists.order ==> (y in lists.order[j] <==> y in os[j] && y != l)
      modifies lists
      ensures lists.Valid() && size == MergedSize(Now(), a) && Detached(Now(), a, os, lists.order)
    {
      var right := Unit(l.page, l.off + units);
      MergedIs(Now(), a, right);
      var all := units;
      if right.off % 512 != 0 {
        StillListed(Now(), os, lists.order, l, right);
        var more := UnlinkFree(right);
        all := units + more;
      }
      size := all;
    }

    /** The header writes of a free. */
    method Merge(a: Unit, l: Unit, size: Bits9)
      requires Inv(Now()) && a in starts && !IsFree(Now(), a)
      requires l == Absorber(Now(), a) && size == MergedSize(Now(), a)
      modifies `mem, `starts
      ensures Now() == Coalesce(old(Now()), a)
    {
      CoalesceIs(Now(), a, l, size);
      ghost var right := Next(Now(), a);
      starts := starts - ((if l == a then {} else {a}) + (if IsFree(Now(), right) then {right} else {}));
      mem := mem[l := mem[l].(blockSize := size)];
      var next := Unit(l.page, l.off + size);
      if next.off % 512 != 0 {
        mem := mem[next := mem[next].(prevSize := size)];
      }
      mem := mem[l := mem[l].(poolType := 0, tag := FREE_TAG)];
    }

    /** UlFreePoolWithTag on a small block. A free block, a block tagged like one, and a wrong tag stop the system. */
    method FreeSmall(a: Unit, tag: nat) returns (r: FreeResult)
      requires Valid() && a in starts
      modifies this, lists
      ensures Valid() && table.entries == old(table.entries)
      ensures r == BugCheck(4) <==> a !in Live(old(Now()))
      ensures r == BugCheck(2) <==> a in Live(old(Now())) && Live(old(Now()))[a].tag == FREE_TAG
      ensures r == BugCheck(3) <==> a in Live(old(Now())) && Live(old(Now()))[a].tag !in {FREE_TAG, tag} && tag != 0
      ensures r == Freed || r in {BugCheck(2), BugCheck(3), BugCheck(4)}
      ensures r != Freed ==> Now() == old(Now())
      ensures r == Freed ==> Now() == Release(old(Now()), a) && Live(Now()) == Live(old(Now())) - {a}
    {
      assert BlockOK(Now(), a) && PageOK(Now(), a.page);
      var index := mem[a].poolType;
      if index == 0 || index > 2 { return BugCheck(4); }
      if mem[a].tag == FREE_TAG { return BugCheck(2); }
      if tag != 0 && mem[a].tag != tag { return BugCheck(3); }
      ReleaseLive(Now(), a);
      Coalesced(a);
      return Freed;
    }

    /** The part of UlFreePoolWithTag after its argument checks. */
    method Coalesced(a: Unit)
      requires Valid() && AllHeads(lists.order) && a in starts && !IsFree(Now(), a)
      modifies this, lists
      ensures Valid() && Now() == Release(old(Now()), a)
    {
      ghost var h, big, cs, os := Now(), table.entries, counters, lists.order;
      assert BlockOK(h, a) && PageOK(h, a.page);
      ChecksPass(h, a);
      var t := mem[a].poolType - 1;
      var units: int := mem[a].blockSize;
      ReleaseInv(h, a);
      ReleaseNoIdle(h, a);
      ReleaseAccounts(h, big, cs, a);
      var l, size := Detach(a);
      Merge(a, l, size);
      Settle(a, l, size, t, h, os);
      Bill(t, -8 * units);
    }

    /** A page that is wholly free is given back; else the merged block goes first on the list of its size. */
    method Settle(a: Unit, l: Unit, size: Bits9, t: nat, ghost h: Heap, ghost os: map<HeadId, seq<Unit>>)
      requires Inv(h) && a in h.starts && !IsFree(h, a) && Now() == Coalesce(h, a) && lists.Valid()
      requires Exact(h, os) && Detached(h, a, os, lists.order) && AllHeads(os)
      requires l == Absorber(h, a) && size == MergedSize(h, a) && a.page in h.pages && t == h.pages[a.page] < 2 && |counters| == 2
      modifies `mem, `starts, `pages, `counters, lists
      ensures lists.Valid() && Now() == Release(h, a) && Exact(Now(), lists.order)
      ensures counters == if size == SPAN then LosePage(old(counters), t) else old(counters)
    {
      if size == SPAN {
        DropExact(h, a, os, lists.order);
        var c := counters[t];
        counters := counters[t := c.(pages := c.pages - 1, bytesMapped := c.bytesMapped - PAGE_BYTES)];
        Unmap(a.page);
      } else {
        CoalesceExact(h, a, os, lists.order, HeadId(t, size));
        lists.InsertHead(HeadId(t, size), l);
      }
    }

    /** MmFreePoolPage: the page and whatever its memory said are gone. */
    method Unmap(p: nat)
      modifies `mem, `starts, `pages
      ensures Now() == DropPage(old(Now()), p)
    {
      mem := map u | u in mem && u.page != p :: mem[u];
      starts := set u | u in starts && u.page != p;
      pages := pages - {p};
    }

    /** UlFreePoolWithTag on a page-aligned pointer. */
    method FreeBig(p: nat, tag: nat) returns (r: FreeResult)
      requires Valid() && BigPageTable.IsPage(p)
      modifies this, table, table.slots
      ensures Valid() && Now() == old(Now())
      ensures r == BugCheck(10) <==> p !in old(table.entries)
      ensures r == BugCheck(3) <==> p in old(table.entries) && tag != 0 && old(table.entries)[p].tag != tag
      ensures r == Freed || r in {BugCheck(10), BugCheck(3)}
      ensures table.entries == if r == Freed then old(table.entries) - {p} else old(table.entries)
    {
      ghost var h, big, cs := Now(), table.entries, counters;
      var found := table.Remove(p, tag);
      match found
      case Missing => return BugCheck(10);
      case WrongTag(_) => return BugCheck(3);
      case Removed(b) =>
        BigRefundAccounts(h, big, cs, p);
        Refund(b);
        return Freed;
    }

    method Refund(b: BigPageTable.BigAlloc)
      requires |counters| == 2 && b.pool < 2
      modifies `counters
      ensures counters == RefundBig(old(counters), b)
    {
      var c := counters[b.pool];
      counters := counters[b.pool := Counters(c.pages, c.bigPages - b.pages,
                                              c.bytesMapped - b.pages * PAGE_BYTES, c.bytesAllocated - b.bytes)];
    }

    /** UlFreePoolWithTag: the alignment of the pointer chooses the path. `p` is NULL, misaligned, a page
        address, or the pointer of a block of the pool. */
    method Free(p: nat, tag: nat) returns (r: FreeResult)
      requires Valid() && (p % 4096 == 0 ==> p < BigPageTable.TOMBSTONE)
      requires p % 4096 != 0 && p % 8 == 0 ==> Unit(p / 4096, p % 4096 / 8 - 1) in starts
      modifies this, lists, table, table.slots
      ensures Valid()
      ensures r == NullPointer <==> p == 0
      ensures r == BugCheck(1) <==> p % 8 != 0
      // a page address is freed exactly when the table knows it under this tag, or when no tag is asked for
      ensures p != 0 && p % 4096 == 0 ==>
        && (r == BugCheck(10) <==> p !in old(table.entries))
        && (r == Freed <==> p in old(table.entries) && (tag == 0 || old(table.entries)[p].tag == tag))
      // a pointer into a page exactly when its block is live, not tagged like a free one, and the tag matches
      ensures p % 4096 != 0 && p % 8 == 0 ==>
        var a, live := Unit(p / 4096, p % 4096 / 8 - 1), Live(old(Now()));
        && (r == BugCheck(4) <==> a !in live)
        && (r == BugCheck(2) <==> a in live && live[a].tag == 0x6565_7246)
        && (r == Freed <==> a in live && live[a].tag != 0x6565_7246 && (tag == 0 || live[a].tag == tag))
      ensures r in {Freed, NullPointer, BugCheck(1), BugCheck(2), BugCheck(3), BugCheck(4), BugCheck(10)}
      ensures r != Freed ==> Now() == old(Now()) && table.entries == old(table.entries)
      ensures r == Freed && p % 4096 == 0 ==>
        p in old(table.entries) && table.entries == old(table.entries) - {p} && Now() == old(Now())
      ensures r == Freed && p % 4096 != 0 ==>
        var a := Unit(p / 4096, p % 4096 / 8 - 1);
        a in Live(old(Now())) && Live(Now()) == Live(old(Now())) - {a} && table.entries == old(table.entries)
    {
      if p % PAGE_BYTES == 0 { PageIsAligned(p); }
      if p == 0 { return NullPointer; }
      if p % PAGE_BYTES == 0 {
        r := FreeBig(p, tag);
        return;
      }
      if p % 8 != 0 { return BugCheck(1); }
      r := FreeSmall(HeaderOf(p), tag);
    }
  }

  lemma TakenBack<K, V>(m: map<K, V>, k: K, v: V)
    requires k !in m
    ensures m[k := v] - {k} == m
  {
  }

  /** A caller that frees what it got under its own tag: the free succeeds and the live blocks and the big allocations are
      those from before. Only a tag that looks like the one of a free block is refused, and only for small requests. */
  method AllocateThenFree(pool: Pool, t: nat, bytes: nat, tag: nat, page: Option<nat>, va: Option<nat>)
    returns (p: nat, r: FreeResult)
    requires pool.Valid() && bytes >= 1
    requires page.Some? ==> page.value !in pool.pages
    requires va.Some? ==> BigPageTable.IsPage(va.value) && va.value !in pool.table.entries
    modifies pool, pool.lists, pool.table, pool.table.slots
    ensures pool.Valid()
    ensures p != 0 ==> (r == Freed <==> tag != 0x6565_7246 || bytes > 4080)
    ensures r == Freed || p == 0 ==>
      Live(pool.Now()) == Live(old(pool.Now())) && pool.table.entries == old(pool.table.entries)
  {
    UnitsIs(bytes);
    ghost var live, big := Live(pool.Now()), pool.table.entries;
    ghost var got: nat;
    p, got := pool.Allocate(t, bytes, tag, page, va);
    ghost var live1, big1 := Live(pool.Now()), pool.table.entries;
    if p != 0 && p % PAGE_BYTES == 0 {
      TakenBack(big, p, big1[p]);
    } else if p != 0 {
      TakenBack(live, HeaderOf(p), live1[HeaderOf(p)]);
    }
    r := pool.Free(p, tag);
  }
}
