/** Kernel virtual ranges (veakrnl/mm/virt.c): first fit over the tree of ranges. */
module VirtualRanges {
  import opened AvlTree

  const PAGE := 4096
  const START := 0xC100_0000
  const LIMIT := 0xFFC0_0000
  const LOW := START / PAGE
  const HIGH := LIMIT / PAGE
  const WORD := 0x1_0000_0000

  predicate Covers(x: Range, vpn: nat) { x.first <= vpn <= x.last }

  /** Ranges inside the kernel window, in order, none touching another's pages. */
  ghost predicate RangesOK(s: seq<Range>) {
    && (forall i :: 0 <= i < |s| ==> LOW <= s[i].first <= s[i].last < HIGH)
    && (forall i, j :: 0 <= i < j < |s| ==> s[i].last < s[j].first)
  }

  /** n pages from page p on that no range uses. */
  ghost predicate FreeRun(s: seq<Range>, p: nat, n: nat) {
    forall i :: 0 <= i < |s| ==> s[i].last < p || p + n <= s[i].first
  }

  /** The lowest place for n pages. */
  ghost predicate LowestFit(s: seq<Range>, p: nat, n: nat) {
    LOW <= p && FreeRun(s, p, n) && forall q :: LOW <= q < p ==> !FreeRun(s, q, n)
  }

  ghost predicate HoldsPage(s: seq<Range>, vpn: nat) { exists y :: y in s && Covers(y, vpn) }

  /** The end of a new range, as 32-bit arithmetic computes it, is refused. */
  predicate Refused(p: nat, n: nat) { (p * PAGE + n * PAGE) % WORD >= LIMIT }

  /** The answer to a request for n pages: the lowest place p, or 0 when the end of the run is refused. */
  ghost predicate Chosen(s: seq<Range>, n: nat, p: nat, va: nat) {
    LowestFit(s, p, n) && va == if HIGH <= p + n < WORD / PAGE then 0 else p * PAGE
  }

  lemma RefusedIs(p: nat, n: nat)
    requires LOW <= p <= HIGH && 0 < n <= HIGH - LOW
    ensures Refused(p, n) <==> HIGH <= p + n < WORD / PAGE
    ensures p * PAGE + n * PAGE < WORD <==> p + n < WORD / PAGE
  {
  }

  /** The check keeps ranges below the limit exactly as long as the sum does not wrap. */
  lemma CheckSound(p: nat, n: nat)
    requires LOW <= p <= HIGH && 0 < n <= HIGH - LOW
    ensures (!Refused(p, n) ==> p + n < HIGH) <==> p * PAGE + n * PAGE < WORD
  {
  }

  lemma LeastUnique(s: seq<Range>, p: nat, q: nat, n: nat)
    requires LowestFit(s, p, n) && LowestFit(s, q, n)
    ensures p == q
  {
  }

  lemma Descend(l: seq<Range>, x: Range, r: seq<Range>, vpn: nat)
    requires RangesOK(l + [x] + r) && !Covers(x, vpn)
    ensures RangesOK(l) && RangesOK(r)
    ensures vpn < x.first ==> (HoldsPage(l + [x] + r, vpn) <==> HoldsPage(l, vpn))
    ensures vpn > x.last ==> (HoldsPage(l + [x] + r, vpn) <==> HoldsPage(r, vpn))
    ensures forall y :: y in l || y in r ==> y in l + [x] + r
  {
    Neighbours(l, x, r);
    var s := l + [x] + r;
    assert forall y :: y in s <==> y in l || y == x || y in r;
    if vpn < x.first {
      forall y | y in s && Covers(y, vpn) ensures y in l {}
    } else {
      forall y | y in s && Covers(y, vpn) ensures y in r {}
    }
  }

  lemma Neighbours(l: seq<Range>, x: Range, r: seq<Range>)
    requires RangesOK(l + [x] + r)
    ensures RangesOK(l) && RangesOK(r)
    ensures (forall y :: y in l ==> y.first <= y.last < x.first) && (forall y :: y in r ==> x.last < y.first <= y.last)
  {
    var s := l + [x] + r;
    assert s[|l|] == x;
    assert forall i :: 0 <= i < |l| ==> s[i] == l[i];
    assert forall i :: 0 <= i < |r| ==> s[|l| + 1 + i] == r[i];
  }

  /** Only the range that holds a page can start there. */
  lemma OnlyOne(s: seq<Range>, x: Range, vpn: nat) returns (k: nat)
    requires RangesOK(s) && x in s && Covers(x, vpn)
    ensures k < |s| && s[k] == x && forall j :: 0 <= j < |s| && s[j].first == vpn ==> j == k
  {
    k :| 0 <= k < |s| && s[k] == x;
  }

  lemma NoStart(s: seq<Range>, vpn: nat)
    requires RangesOK(s) && !HoldsPage(s, vpn)
    ensures forall k :: 0 <= k < |s| ==> s[k].first != vpn
  {
    forall k | 0 <= k < |s| ensures s[k].first != vpn { assert s[k] in s && !Covers(s[k], vpn); }
  }

  lemma AscendingRanges(s: seq<Range>)
    requires RangesOK(s)
    ensures Ascending(s)
  {
  }

  lemma PutApart(s: seq<Range>, x: Range, i: nat, j: nat)
    requires RangesOK(s) && x.first <= x.last && FreeRun(s, x.first, x.last + 1 - x.first) && i < j <= |s|
    ensures Put(s, x)[i].last < Put(s, x)[j].first
  {
    var k := Place(s, x);
    PutAt(s, x, i);
    PutAt(s, x, j);
    if j == k {
      assert s[i].last < x.first;
    } else if i == k {
      assert x.first < s[k].first && s[k].first <= s[j - 1].first;
    }
  }

  /** A free run put in its place keeps the ranges disjoint. */
  lemma PutOK(s: seq<Range>, x: Range)
    requires RangesOK(s) && LOW <= x.first <= x.last < HIGH && FreeRun(s, x.first, x.last + 1 - x.first)
    ensures RangesOK(Put(s, x))
  {
    var t := Put(s, x);
    forall i | 0 <= i < |t| ensures LOW <= t[i].first <= t[i].last < HIGH { PutAt(s, x, i); }
    forall i, j | 0 <= i < j < |t| ensures t[i].last < t[j].first { PutApart(s, x, i, j); }
  }

  /** A range that the check lets through keeps the ranges in order and in the window exactly as long as the 32-bit sum of
      its end did not wrap. */
  lemma AcceptedOK(s: seq<Range>, p: nat, n: nat)
    requires RangesOK(s) && LOW <= p <= HIGH && 0 < n <= HIGH - LOW && FreeRun(s, p, n) && !Refused(p, n)
    ensures RangesOK(Put(s, Range(p, p + n - 1))) <==> p * PAGE + n * PAGE < WORD
  {
    var x := Range(p, p + n - 1);
    CheckSound(p, n);
    if p * PAGE + n * PAGE < WORD {
      PutOK(s, x);
    } else {
      PutAt(s, x, Place(s, x));
      assert Put(s, x)[Place(s, x)] == x && x.last >= HIGH;
    }
  }

  lemma DropOK(s: seq<Range>, k: nat)
    requires RangesOK(s) && k < |s|
    ensures RangesOK(Without(s, k))
  {
    var t := Without(s, k);
    forall i, j | 0 <= i < j < |t| ensures t[i].last < t[j].first {
      assert t[i] == s[if i < k then i else i + 1] && t[j] == s[if j < k then j else j + 1];
    }
  }

  lemma PutMembers(s: seq<Range>, x: Range)
    ensures |Put(s, x)| == |s| + 1 && forall y :: y in Put(s, x) <==> y in s || y == x
  {
    var k := Place(s, x);
    assert s == s[..k] + s[k..];
  }

  lemma WithoutMembers(s: seq<Range>, k: nat)
    requires RangesOK(s) && k < |s|
    ensures |Without(s, k)| == |s| - 1 && forall y :: y in Without(s, k) <==> y in s && y != s[k]
  {
    var t := Without(s, k);
    assert forall i :: 0 <= i < |t| ==> t[i] == s[if i < k then i else i + 1];
    forall y | y in s && y != s[k] ensures y in t {
      var i :| 0 <= i < |s| && s[i] == y;
      assert t[if i < k then i else i - 1] == y;
    }
  }

  /** What a lowest fit is, range by range. */
  lemma LowestFitIs(s: seq<Range>, p: nat, n: nat)
    requires n > 0
    ensures LowestFit(s, p, n) <==>
      && 0xC1000 <= p && (forall y :: y in s ==> y.last < p || p + n <= y.first)
      && forall run: Range :: 0xC1000 <= run.first < p && run.last == run.first + n - 1 ==>
        exists y :: y in s && run.first <= y.last && y.first <= run.last
  {
    FreeRunIs(s, p, n);
    forall run: Range | LOW <= run.first < p && run.last == run.first + n - 1
      ensures FreeRun(s, run.first, n) <==> !exists y :: y in s && run.first <= y.last && y.first <= run.last
    {
      FreeRunIs(s, run.first, n);
    }
    forall q: nat | LOW <= q < p ensures FreeRun(s, q, n) <==> FreeRun(s, Range(q, q + n - 1).first, n) {}
  }

  lemma FreeRunIs(s: seq<Range>, p: nat, n: nat)
    ensures FreeRun(s, p, n) <==> forall y :: y in s ==> y.last < p || p + n <= y.first
  {
    if forall y :: y in s ==> y.last < p || p + n <= y.first {
      assert forall i :: 0 <= i < |s| ==> s[i] in s;
    }
  }

  /** Exactly the present pages of a range are unmapped, in ascending order, and each gives its frame back. */
  ghost predicate Unmapped(x: Range, m: map<nat, nat>, m': map<nat, nat>, pages: seq<nat>, freed: seq<nat>) {
    && (forall i, j :: 0 <= i < j < |pages| ==> pages[i] < pages[j])
    && (forall q :: q in pages <==> x.first <= q <= x.last && q in m)
    && |freed| == |pages| && (forall i :: 0 <= i < |pages| ==> freed[i] == m[pages[i]])
    && (forall q :: q in m' <==> q in m && !(x.first <= q <= x.last))
    && (forall q :: q in m' ==> m'[q] == m[q])
  }

  /** Each frame is given back as often as it was mapped in the range; so no frame is given back twice when no two pages of
      the range shared one. */
  lemma FramesCounted(x: Range, m: map<nat, nat>, m': map<nat, nat>, pages: seq<nat>, freed: seq<nat>, f: nat)
    requires Unmapped(x, m, m', pages, freed)
    ensures multiset(freed)[f] == |set q | q in m && x.first <= q <= x.last && m[q] == f|
    ensures (forall q, r :: q in m && r in m && x.first <= q < r <= x.last ==> m[q] != m[r]) ==>
      forall i, j :: 0 <= i < j < |freed| ==> freed[i] != freed[j]
  {
    CountPages(m, pages, freed, f);
    assert (set q | q in m && x.first <= q <= x.last && m[q] == f) == Mapping(m, pages, f);
    assert forall i :: 0 <= i < |pages| ==> pages[i] in pages;
  }

  ghost function Mapping(m: map<nat, nat>, pages: seq<nat>, f: nat): set<nat> { set q | q in pages && q in m && m[q] == f }

  /** Different present pages and their frames, in the same order. */
  ghost predicate FramesOf(m: map<nat, nat>, pages: seq<nat>, freed: seq<nat>) {
    && (forall i, j :: 0 <= i < j < |pages| ==> pages[i] != pages[j])
    && |freed| == |pages| && (forall i :: 0 <= i < |pages| ==> pages[i] in m && freed[i] == m[pages[i]])
  }

  lemma FramesFront(m: map<nat, nat>, pages: seq<nat>, freed: seq<nat>)
    requires FramesOf(m, pages, freed) && pages != []
    ensures var n := |pages| - 1;
      && FramesOf(m, pages[..n], freed[..n]) && pages[n] !in pages[..n] && pages[n] in m && freed[n] == m[pages[n]]
      && pages == pages[..n] + [pages[n]] && freed == freed[..n] + [freed[n]]
  {
  }

  lemma {:induction false} CountPages(m: map<nat, nat>, pages: seq<nat>, freed: seq<nat>, f: nat)
    requires FramesOf(m, pages, freed)
    ensures multiset(freed)[f] == |Mapping(m, pages, f)|
  {
    if pages == [] {
      assert Mapping(m, pages, f) == {};
    } else {
      var n := |pages| - 1;
      FramesFront(m, pages, freed);
      CountPages(m, pages[..n], freed[..n], f);
      MappingSnoc(m, pages[..n], pages[n], f);
      assert multiset(freed) == multiset(freed[..n]) + multiset{freed[n]};
    }
  }

  lemma MappingSnoc(m: map<nat, nat>, pages: seq<nat>, page: nat, f: nat)
    requires page in m && page !in pages
    ensures |Mapping(m, pages + [page], f)| == |Mapping(m, pages, f)| + if m[page] == f then 1 else 0
  {
    assert Mapping(m, pages + [page], f) == Mapping(m, pages, f) + if m[page] == f then {page} else {};
  }

  class Kernel {
    var tree: Tree
    var mapped: map<nat, nat>        // present page-table entries: page number to frame

    constructor ()
      ensures Valid() && Items(tree) == []
    {
      tree, mapped := Leaf, map[];
    }

    ghost predicate Valid()
      reads this
    {
      Balanced(tree) && RangesOK(Items(tree))
    }

    /** MmpFindVadByVpn. */
    method Find(vpn: nat) returns (found: bool, x: Range)
      requires Valid()
      ensures found <==> exists y :: y in Items(tree) && y.first <= vpn <= y.last
      ensures found ==> x in Items(tree) && x.first <= vpn <= x.last
    {
      var node := tree;
      found, x := false, Range(0, 0);
      while node.Node?
        invariant RangesOK(Items(node)) && (HoldsPage(Items(node), vpn) <==> HoldsPage(Items(tree), vpn))
        invariant forall y :: y in Items(node) ==> y in Items(tree)
        decreases node
      {
        if node.item.first <= vpn <= node.item.last {
          assert Items(node)[|Items(node.left)|] == node.item;
          assert Covers(node.item, vpn) && node.item in Items(tree);
          return true, node.item;
        }
        Descend(Items(node.left), node.item, Items(node.right), vpn);
        node := if vpn < node.item.first then node.left else node.right;
      }
    }

    /** MmpFindFreeVirtualGap: page 0 stands for "no gap", and then `last` is the first page behind all ranges. */
    method FindGap(n: nat) returns (gap: nat, last: nat)
      requires Valid() && n > 0
      ensures gap != 0 ==> LowestFit(Items(tree), gap, n) && gap + n <= HIGH
      ensures gap == 0 ==> LowestFit(Items(tree), last, n) && last <= HIGH
    {
      last := LOW;
      var items, i := Items(tree), 0;
      while i < |items|
        invariant 0 <= i <= |items| && LOW <= last <= HIGH && (i < |items| ==> last <= items[i].first)
        invariant forall k :: 0 <= k < i ==> items[k].last < last
        invariant forall q :: LOW <= q < last ==> !FreeRun(items, q, n)
      {
        if items[i].first - last >= n {
          forall k | 0 <= k < |items| ensures items[k].last < last || last + n <= items[k].first {
            assert k > i ==> items[i].last < items[k].first;
          }
          return last, last;
        }
        forall q | last <= q < items[i].last + 1 ensures !FreeRun(items, q, n) {
          assert !(items[i].last < q || q + n <= items[i].first);
        }
        last := items[i].last + 1;
        i := i + 1;
      }
      gap := 0;
    }

    /** MmAllocateVirtualRange; `node` says whether a tree node could be had. A request for no page or for more than the
        window has gets nothing. Otherwise p is the lowest page of the window (0xC1000 on) with n unused pages; the answer
        is its address, unless the end of the run lies at or above the limit (0xFFC00). Where the 32-bit sum wraps nothing
        is refused, and the ranges leave the window. */
    method Allocate(n: nat, node: bool) returns (va: nat, ghost p: nat)
      requires Valid()
      modifies this`tree
      ensures !node || n == 0 || n > 0x3EC00 ==> va == 0
      ensures node && 0 < n <= 0x3EC00 ==>
        && 0xC1000 <= p && (forall y :: y in old(Items(tree)) ==> y.last < p || p + n <= y.first)
        && (forall run: Range :: 0xC1000 <= run.first < p && run.last == run.first + n - 1 ==>
             exists y :: y in old(Items(tree)) && run.first <= y.last && y.first <= run.last)
        && va == if 0xFFC00 <= p + n < 0x100000 then 0 else p * 4096
      ensures va == 0 ==> tree == old(tree)
      ensures va != 0 ==> |Items(tree)| == |old(Items(tree))| + 1 && Balanced(tree)
      ensures va != 0 ==> forall y :: y in Items(tree) <==> y in old(Items(tree)) || y == Range(p, p + n - 1)
      ensures Valid() <==> va == 0 || p + n < 0x100000
    {
      ghost var s := Items(tree);
      va, p := Reserve(n, node);
      if n > 0 {
        LowestFitIs(s, p, n);
        PutMembers(s, Range(p, p + n - 1));
      }
    }

    method Reserve(n: nat, node: bool) returns (va: nat, ghost p: nat)
      requires Valid()
      modifies this`tree
      ensures !node || n == 0 || n > HIGH - LOW ==> va == 0
      ensures node && 0 < n <= HIGH - LOW ==> Chosen(old(Items(tree)), n, p, va)
      ensures va == 0 ==> tree == old(tree)
      ensures va != 0 ==> va == p * PAGE && Items(tree) == Put(old(Items(tree)), Range(p, p + n - 1)) && Balanced(tree)
      ensures Valid() <==> va == 0 || p + n < WORD / PAGE
    {
      va, p := 0, 0;
      if !node { return; }
      if n == 0 || n > (LIMIT - START) / PAGE { return; }
      var place := FirstFit(n);
      p := place;
      va := TryAt(place, n);
    }

    /** The lowest fit is checked against the limit and inserted. */
    method TryAt(p: nat, n: nat) returns (va: nat)
      requires Valid() && LowestFit(Items(tree), p, n) && p <= HIGH && 0 < n <= HIGH - LOW
      modifies this`tree
      ensures Chosen(old(Items(tree)), n, p, va) && (va == 0 ==> tree == old(tree))
      ensures va != 0 ==> va == p * PAGE && Items(tree) == Put(old(Items(tree)), Range(p, p + n - 1)) && Balanced(tree)
      ensures Valid() <==> va == 0 || p + n < WORD / PAGE
    {
      RefusedIs(p, n);
      if Refused(p, n) { return 0; }
      AcceptedOK(Items(tree), p, n);
      Add(Range(p, p + n - 1));
      va := p * PAGE;
    }

    method FirstFit(n: nat) returns (p: nat)
      requires Valid() && n > 0
      ensures LowestFit(Items(tree), p, n) && p <= HIGH
    {
      p := LOW;
      if tree.Node? {
        var gap, last := FindGap(n);
        p := if gap == 0 then last else gap;
      }
    }

    method Add(x: Range)
      requires Valid()
      modifies this`tree
      ensures Balanced(tree) && Items(tree) == Put(old(Items(tree)), x)
    {
      AscendingRanges(Items(tree));
      InsertItems(tree, x);
      tree := Insert(tree, x);
    }

    /** MmFreeVirtualRange: only from the start of a range; that range goes, its present pages are unmapped in ascending
        order (the ghost `pages`), and the frames they were mapped to are given back. */
    method Free(va: nat) returns (freed: seq<nat>, ghost pages: seq<nat>)
      requires Valid()
      modifies this
      ensures Valid()
      ensures (forall y :: y in old(Items(tree)) ==> y.first != va / 4096) ==>
        tree == old(tree) && mapped == old(mapped) && freed == []
      ensures forall x :: x in old(Items(tree)) && x.first == va / 4096 ==>
        && |Items(tree)| == |old(Items(tree))| - 1
        && (forall y :: y in Items(tree) <==> y in old(Items(tree)) && y != x)
        && (forall i, j :: 0 <= i < j < |pages| ==> pages[i] < pages[j])
        && (forall q :: q in pages <==> x.first <= q <= x.last && q in old(mapped))
        && |freed| == |pages| && (forall i :: 0 <= i < |pages| ==> freed[i] == old(mapped)[pages[i]])
        && (forall q :: q in mapped <==> q in old(mapped) && !(x.first <= q <= x.last))
        && (forall q :: q in mapped ==> mapped[q] == old(mapped)[q])
    {
      freed, pages := [], [];
      ghost var items := Items(tree);
      var found, x := Find(va / PAGE);
      if !found {
        NoStart(items, va / PAGE);
        return;
      }
      ghost var k := OnlyOne(items, x, va / PAGE);
      if va / PAGE != x.first { return; }
      freed, pages := Unmap(x);
      WithoutMembers(items, k);
      Drop(x.first, k);
    }

    /** The loop that unmaps a range's present pages. */
    method Unmap(x: Range) returns (freed: seq<nat>, ghost pages: seq<nat>)
      requires x.first <= x.last
      modifies this`mapped
      ensures Unmapped(x, old(mapped), mapped, pages, freed)
    {
      freed, pages := [], [];
      ghost var m := mapped;
      var count, i := x.last - x.first + 1, 0;
      while i < count
        invariant 0 <= i <= count
        invariant forall i, j :: 0 <= i < j < |pages| ==> pages[i] < pages[j]
        invariant forall q :: q in pages <==> x.first <= q < x.first + i && q in m
        invariant |freed| == |pages| && forall i :: 0 <= i < |pages| ==> freed[i] == m[pages[i]]
        invariant forall q :: q in mapped <==> q in m && !(x.first <= q < x.first + i)
        invariant forall q :: q in mapped ==> mapped[q] == m[q]
      {
        var page := x.first + i;
        if page in mapped {
          assert forall j :: 0 <= j < |pages| ==> pages[j] in pages;
          freed, pages := freed + [mapped[page]], pages + [page];
          mapped := mapped - {page};
        }
        i := i + 1;
      }
    }

    method Drop(first: nat, ghost k: nat)
      requires Valid() && k < |Items(tree)| && Items(tree)[k].first == first
      modifies this`tree
      ensures Valid() && Items(tree) == Without(old(Items(tree)), k)
    {
      AscendingRanges(Items(tree));
      RemoveItems(tree, k, first);
      DropOK(Items(tree), k);
      tree := Remove(tree, first);
    }

    /** MmGetVirtualRangePageCount: the size of the range that starts at an address, or 0. */
    method PageCount(va: nat) returns (n: nat)
      requires Valid()
      ensures n > 0 <==> va % 4096 == 0 && exists y :: y in Items(tree) && y.first == va / 4096
      ensures n > 0 ==> Range(va / 4096, va / 4096 + n - 1) in Items(tree)
    {
      if va % PAGE != 0 { return 0; }
      var found, x := Find(va / PAGE);
      ghost var items := Items(tree);
      if !found {
        NoStart(items, va / PAGE);
        return 0;
      }
      ghost var k := OnlyOne(items, x, va / PAGE);
      return if x.first == va / PAGE then x.last - x.first + 1 else 0;
    }
  }

  /** A call whose lowest fit is known and not refused. */
  method AllocateAt(k: Kernel, n: nat, ghost p: nat) returns (va: nat)
    requires k.Valid() && 0 < n <= HIGH - LOW && LowestFit(Items(k.tree), p, n) && !(HIGH <= p + n < WORD / PAGE)
    modifies k
    ensures va == p * PAGE && Balanced(k.tree) && Items(k.tree) == Put(old(Items(k.tree)), Range(p, p + n - 1))
    ensures k.Valid() <==> p + n < WORD / PAGE
  {
    ghost var s, q := Items(k.tree), p;
    va, q := k.Reserve(n, true);
    LeastUnique(s, q, p, n);
  }

  /** Two calls from an empty tree are enough: the second gets the last 16 MB of the address space, above the limit. */
  method TwoAllocations() returns (k: Kernel, first: nat, second: nat)
    ensures first == 0xC100_0000 && second == 0xFF00_0000 && !k.Valid()
    ensures Items(k.tree) == [Range(0xC1000, 0xFEFFF), Range(0xFF000, 0xFFFFF)]
  {
    k, first := FirstAllocation();
    second := SecondAllocation(k);
  }

  method FirstAllocation() returns (k: Kernel, va: nat)
    ensures fresh(k) && k.Valid() && va == START && Items(k.tree) == [Range(LOW, 0xFEFFF)]
  {
    k := new Kernel();
    va := AllocateAt(k, 0x3E000, LOW);
    PutOnly(Range(LOW, 0xFEFFF));
  }

  method SecondAllocation(k: Kernel) returns (va: nat)
    requires k.Valid() && Items(k.tree) == [Range(LOW, 0xFEFFF)]
    modifies k
    ensures va == 0xFF00_0000 && Items(k.tree) == [Range(LOW, 0xFEFFF), Range(0xFF000, 0xFFFFF)] && !k.Valid()
  {
    SecondFit([Range(LOW, 0xFEFFF)]);
    va := AllocateAt(k, 0x1000, 0xFF000);
    PutSecond(Range(LOW, 0xFEFFF), Range(0xFF000, 0xFFFFF));
  }

  lemma PutOnly(x: Range)
    ensures Put([], x) == [x]
  {
  }

  lemma PutSecond(x: Range, y: Range)
    requires x.first <= y.first
    ensures Put([x], y) == [x, y]
  {
    assert Place([x], y) == 1;
  }

  lemma SecondFit(s: seq<Range>)
    requires s == [Range(LOW, 0xFEFFF)]
    ensures LowestFit(s, 0xFF000, 0x1000)
  {
    forall q | LOW <= q < 0xFF000 ensures !FreeRun(s, q, 0x1000) {
      assert !(s[0].last < q || q + 0x1000 <= s[0].first);
    }
  }
}
