/** Where the cells of a hive lie: stable bins that tile the hive's offsets, volatile bins above them, and a free
    offset that only moves up (veakrnl/vk/vkhv.c, veakrnl/vk/vkobject.c). */
module VeaKeyBins {
  import opened VeaKeyStore

  const BIN := 4096                       // VK_BIN_SIZE
  const BIN_HEADER := 24                  // sizeof(KEY_BASE_BLOCK)
  const MAX_STABLE := 256
  const MAX_VOLATILE := 32
  const VOLATILE := 0x8000_0000           // VOLATILE_KEY_OFFSET

  datatype Bin = Bin(base: nat, size: nat)

  datatype Geometry = Geometry(bins: seq<Bin>, length: nat, free: nat, volatileBins: nat, volatileFree: nat)

  /** What a request for a cell comes to; PastEnd is a cell that runs past the end of the last stable bin. */
  datatype Grant = NoCell | CellAt(offset: nat) | PastEnd(offset: nat)

  /** What an offset resolves to: a byte of a bin. */
  datatype Pointer = Null | InStable(bin: nat, at: nat) | InVolatile(bin: nat, at: nat)

  function AlignUp(n: nat): (r: nat)
    ensures n <= r < n + 4 && r % 4 == 0
  {
    (n + 3) / 4 * 4
  }

  function Extent(c: Cell): nat { AlignUp(Size(c)) }

  /** The bins tile [0, length); the free offsets lie in the last bin of each kind. */
  ghost predicate BinsOK(g: Geometry) {
    && (forall k :: 0 <= k < |g.bins| ==> g.bins[k].size > 0
                                          && g.bins[k].base == if k == 0 then 0 else g.bins[k - 1].base + g.bins[k - 1].size)
    && g.length == (if g.bins == [] then 0 else g.bins[|g.bins| - 1].base + g.bins[|g.bins| - 1].size)
    && g.length <= VOLATILE && |g.bins| <= MAX_STABLE && g.volatileBins <= MAX_VOLATILE
    && (g.free != 0 ==> g.bins != [] && g.bins[|g.bins| - 1].base + BIN_HEADER <= g.free <= g.length)
    && (g.volatileBins > 0 ==> BIN_HEADER <= g.volatileFree <= BIN)
  }

  ghost predicate InBin(g: Geometry, o: nat, n: nat, k: nat) {
    k < |g.bins| && g.bins[k].base + BIN_HEADER <= o && o + n <= g.bins[k].base + g.bins[k].size && o + n <= g.free
  }

  ghost predicate InVolatileBin(g: Geometry, o: nat, n: nat, k: nat) {
    && k < g.volatileBins && VOLATILE + k * BIN + BIN_HEADER <= o && o + n <= VOLATILE + (k + 1) * BIN
    && (k == g.volatileBins - 1 ==> o + n <= VOLATILE + k * BIN + g.volatileFree)
  }

  ghost predicate Placed(g: Geometry, c: map<nat, Cell>, o: nat) {
    && o in c && Size(c[o]) > 0
    && if o < VOLATILE then exists k: nat :: InBin(g, o, Extent(c[o]), k) else exists k: nat :: InVolatileBin(g, o, Extent(c[o]), k)
  }

  ghost predicate Apart(c: map<nat, Cell>, a: nat, b: nat) {
    a in c && b in c && (a + Extent(c[a]) <= b || b + Extent(c[b]) <= a)
  }

  /** Every cell lies in a bin behind its header and below the free offset, and no two overlap. */
  ghost predicate Layout(g: Geometry, c: map<nat, Cell>) {
    && BinsOK(g)
    && (forall o {:trigger Placed(g, c, o)} :: o in c ==> Placed(g, c, o))
    && (forall a, b {:trigger Apart(c, a, b)} :: a in c && b in c && a != b ==> Apart(c, a, b))
  }

  ghost predicate SameSizes(c: map<nat, Cell>, c': map<nat, Cell>) {
    c'.Keys == c.Keys && forall o :: o in c ==> Size(c'[o]) == Size(c[o])
  }

  lemma SizesChain(c: map<nat, Cell>, c1: map<nat, Cell>, c2: map<nat, Cell>)
    requires SameSizes(c, c1) && SameSizes(c1, c2)
    ensures SameSizes(c, c2)
  {
    forall o | o in c ensures Size(c2[o]) == Size(c[o]) { assert o in c1.Keys && o in c2.Keys; }
  }

  lemma OneResized(c: map<nat, Cell>, o: nat, cell: Cell)
    requires o in c && Size(cell) == Size(c[o])
    ensures SameSizes(c, c[o := cell])
  {
  }

  /** Cells may change as long as they keep their size. */
  lemma LayoutKept(g: Geometry, c: map<nat, Cell>, c': map<nat, Cell>)
    requires Layout(g, c) && SameSizes(c, c')
    ensures Layout(g, c')
  {
    forall o | o in c' ensures Placed(g, c', o) {
      assert o in c.Keys && Placed(g, c, o) && Extent(c'[o]) == Extent(c[o]);
      if o < VOLATILE {
        var k: nat :| InBin(g, o, Extent(c[o]), k);
        assert InBin(g, o, Extent(c'[o]), k);
      } else {
        var k: nat :| InVolatileBin(g, o, Extent(c[o]), k);
        assert InVolatileBin(g, o, Extent(c'[o]), k);
      }
    }
    forall a, b | a in c' && b in c' && a != b ensures Apart(c', a, b) {
      assert a in c.Keys && b in c.Keys && Apart(c, a, b);
    }
  }

  // ---------------------------------------------------------------- growing and placing

  function WithStableBin(g: Geometry): Geometry {
    g.(bins := g.bins + [Bin(g.length, BIN)], free := g.length + BIN_HEADER, length := g.length + BIN)
  }

  function WithVolatileBin(g: Geometry): Geometry {
    g.(volatileBins := g.volatileBins + 1, volatileFree := BIN_HEADER)
  }

  lemma GrowStable(g: Geometry, c: map<nat, Cell>)
    requires Layout(g, c) && |g.bins| < MAX_STABLE && g.length + BIN <= VOLATILE
    ensures Layout(WithStableBin(g), c)
  {
    var g' := WithStableBin(g);
    forall o | o in c ensures Placed(g', c, o) {
      assert Placed(g, c, o);
      if o < VOLATILE {
        var k: nat :| InBin(g, o, Extent(c[o]), k);
        assert InBin(g', o, Extent(c[o]), k);
      } else {
        var k: nat :| InVolatileBin(g, o, Extent(c[o]), k);
        assert InVolatileBin(g', o, Extent(c[o]), k);
      }
    }
  }

  lemma GrowVolatile(g: Geometry, c: map<nat, Cell>)
    requires Layout(g, c) && g.volatileBins < MAX_VOLATILE
    ensures Layout(WithVolatileBin(g), c)
  {
    var g' := WithVolatileBin(g);
    forall o | o in c ensures Placed(g', c, o) {
      assert Placed(g, c, o);
      if o < VOLATILE {
        var k: nat :| InBin(g, o, Extent(c[o]), k);
        assert InBin(g', o, Extent(c[o]), k);
      } else {
        var k: nat :| InVolatileBin(g, o, Extent(c[o]), k);
        assert InVolatileBin(g', o, Extent(c[o]), k);
      }
    }
  }

  /** Every cell so far ends below the stable free offset, or lies above the stable offsets. */
  lemma BelowFree(g: Geometry, c: map<nat, Cell>, o: nat)
    requires Layout(g, c) && o in c
    ensures Extent(c[o]) > 0
    ensures o < VOLATILE ==> 0 < o && o + Extent(c[o]) <= g.free
    ensures o >= VOLATILE ==> g.volatileBins > 0 && o + Extent(c[o]) <= VOLATILE + (g.volatileBins - 1) * BIN + g.volatileFree
  {
    assert Placed(g, c, o);
    if o < VOLATILE {
      var k: nat :| InBin(g, o, Extent(c[o]), k);
    } else {
      var k: nat :| InVolatileBin(g, o, Extent(c[o]), k);
      if k < g.volatileBins - 1 { assert (k + 1) * BIN <= (g.volatileBins - 1) * BIN; }
    }
  }

  lemma PlacedStable(g: Geometry, c: map<nat, Cell>, cell: Cell, x: nat)
    requires Layout(g, c) && g.free != 0 && Size(cell) > 0 && g.free + Extent(cell) <= g.length && (x in c || x == g.free)
    requires g.free !in c && g.free < VOLATILE
    ensures Placed(g.(free := g.free + Extent(cell)), c[g.free := cell], x)
  {
    var o, g', c' := g.free, g.(free := g.free + Extent(cell)), c[g.free := cell];
    if x == o {
      assert InBin(g', o, Extent(cell), |g.bins| - 1);
    } else {
      assert Placed(g, c, x);
      if x < VOLATILE {
        var k: nat :| InBin(g, x, Extent(c[x]), k);
        assert InBin(g', x, Extent(c'[x]), k);
      } else {
        var k: nat :| InVolatileBin(g, x, Extent(c[x]), k);
        assert InVolatileBin(g', x, Extent(c'[x]), k);
      }
    }
  }

  lemma PlaceStable(g: Geometry, c: map<nat, Cell>, cell: Cell)
    requires Layout(g, c) && g.free != 0 && Size(cell) > 0 && g.free + Extent(cell) <= g.length
    ensures g.free !in c && 0 < g.free < VOLATILE
    ensures Layout(g.(free := g.free + Extent(cell)), c[g.free := cell])
  {
    var o := g.free;
    forall x | x in c ensures x != o { BelowFree(g, c, x); }
    var g', c' := g.(free := o + Extent(cell)), c[o := cell];
    forall x | x in c' ensures Placed(g', c', x) { PlacedStable(g, c, cell, x); }
    assert BinsOK(g');
    forall a, b | a in c' && b in c' && a != b ensures Apart(c', a, b) {
      if a != o && b != o { assert Apart(c, a, b); }
      else { BelowFree(g, c, if a == o then b else a); }
    }
  }

  /** A cell handed out at the stable free offset without looking at the end of the bin: the layout survives exactly
      when the cell ends inside it. */
  lemma PlaceStableExactly(g: Geometry, c: map<nat, Cell>, cell: Cell)
    requires Layout(g, c) && g.free != 0 && Size(cell) > 0
    ensures g.free < g.length ==> g.free !in c
    ensures Layout(g.(free := g.free + Extent(cell)), c[g.free := cell]) <==> g.free + Extent(cell) <= g.length
  {
    if g.free < g.length && g.free in c { BelowFree(g, c, g.free); }
    if g.free + Extent(cell) <= g.length {
      PlaceStable(g, c, cell);
    } else {
      assert !BinsOK(g.(free := g.free + Extent(cell)));
    }
  }

  /** The offset the next volatile cell gets. */
  function VolatileTop(g: Geometry): nat
    requires g.volatileBins > 0
  {
    VOLATILE + (g.volatileBins - 1) * BIN + g.volatileFree
  }

  lemma PlaceVolatile(g: Geometry, c: map<nat, Cell>, cell: Cell)
    requires Layout(g, c) && g.volatileBins > 0 && Size(cell) > 0 && g.volatileFree + Extent(cell) <= BIN
    ensures VolatileTop(g) !in c && VolatileTop(g) >= VOLATILE
    ensures Layout(g.(volatileFree := g.volatileFree + Extent(cell)), c[VolatileTop(g) := cell])
  {
    var o := VolatileTop(g);
    forall x | x in c ensures x != o { BelowFree(g, c, x); }
    assert forall x :: x in c ==> x != o;
    var g', c' := g.(volatileFree := g.volatileFree + Extent(cell)), c[o := cell];
    forall x | x in c' ensures Placed(g', c', x) {
      if x == o {
        assert InVolatileBin(g', o, Extent(cell), g.volatileBins - 1);
      } else {
        assert Placed(g, c, x);
        if x < VOLATILE {
          var k: nat :| InBin(g, x, Extent(c[x]), k);
          assert InBin(g', x, Extent(c'[x]), k);
        } else {
          var k: nat :| InVolatileBin(g, x, Extent(c[x]), k);
          assert InVolatileBin(g', x, Extent(c'[x]), k);
        }
      }
    }
    assert BinsOK(g');
    forall a, b | a in c' && b in c' && a != b ensures Apart(c', a, b) {
      if a != o && b != o { assert Apart(c, a, b); }
      else { BelowFree(g, c, if a == o then b else a); }
    }
    assert Layout(g', c');
  }

  // ---------------------------------------------------------------- when a cell can be had

  /** A cell of this size ends inside the last bin of its kind. */
  predicate Fits(g: Geometry, volatile: bool, size: nat) {
    if volatile then g.volatileBins > 0 && g.volatileFree + AlignUp(size) <= BIN
    else g.free > 0 && g.free + AlignUp(size) <= g.length
  }

  /** `count` more bins of this kind may be added. */
  predicate MayGrow(g: Geometry, volatile: bool, count: nat) {
    if volatile then g.volatileBins + count <= MAX_VOLATILE
    else |g.bins| + count <= MAX_STABLE && g.length + count * BIN <= VOLATILE
  }

  function Widened(g: Geometry, volatile: bool): Geometry { if volatile then WithVolatileBin(g) else WithStableBin(g) }

  function Top(g: Geometry, volatile: bool): nat
    requires volatile ==> g.volatileBins > 0
  {
    if volatile then VolatileTop(g) else g.free
  }

  function Advanced(g: Geometry, volatile: bool, size: nat): Geometry {
    if volatile then g.(volatileFree := g.volatileFree + AlignUp(size)) else g.(free := g.free + AlignUp(size))
  }

  datatype Room = Room(grant: Grant, g: Geometry, pool: nat)

  /** One request for a cell while the memory pool serves `pool` more bins. */
  function Ask(g: Geometry, volatile: bool, size: nat, pool: nat): Room {
    if Fits(g, volatile, size) then Room(CellAt(Top(g, volatile)), Advanced(g, volatile, size), pool)
    else if pool > 0 && MayGrow(g, volatile, 1) then
      var w := Widened(g, volatile);
      Room(CellAt(Top(w, volatile)), Advanced(w, volatile, size), pool - 1)
    else if !volatile && 0 < g.free < g.length then Room(PastEnd(g.free), Advanced(g, volatile, size), pool)
    else Room(NoCell, g, pool)
  }

  datatype Supply = Supplied(g: Geometry, pool: nat) | Refused(g: Geometry) | Overran(g: Geometry)

  /** Requests for cells one after the other, up to the first that is not met. */
  function Supplies(g: Geometry, volatile: bool, sizes: seq<nat>, pool: nat): Supply
    decreases |sizes|
  {
    if sizes == [] then Supplied(g, pool) else
    var r := Ask(g, volatile, sizes[0], pool);
    match r.grant
    case CellAt(_) => Supplies(r.g, volatile, sizes[1..], r.pool)
    case NoCell => Refused(r.g)
    case PastEnd(_) => Overran(r.g)
  }

  predicate FitsBin(size: nat) { 0 < size && BIN_HEADER + AlignUp(size) <= BIN }

  /** One bin for each cell is always enough, and no more are used. */
  lemma {:induction false} OneBinEach(g: Geometry, volatile: bool, sizes: seq<nat>, pool: nat)
    requires forall i :: 0 <= i < |sizes| ==> FitsBin(sizes[i])
    requires |sizes| <= pool && MayGrow(g, volatile, |sizes|)
    ensures var s := Supplies(g, volatile, sizes, pool);
      && s.Supplied? && s.pool >= pool - |sizes| && s.g.volatileBins <= g.volatileBins + |sizes|
      && |s.g.bins| <= |g.bins| + |sizes| && s.g.length <= g.length + |sizes| * BIN
    decreases |sizes|
  {
    if sizes != [] {
      var r := Ask(g, volatile, sizes[0], pool);
      assert r.grant.CellAt? && r.pool >= pool - 1;
      OneBinEach(r.g, volatile, sizes[1..], r.pool);
    }
  }

  /** A pool with more bins never turns a run of requests down that a smaller one served. */
  lemma {:induction false} MorePool(g: Geometry, volatile: bool, sizes: seq<nat>, pool: nat, more: nat)
    requires Supplies(g, volatile, sizes, pool).Supplied?
    ensures Supplies(g, volatile, sizes, pool + more) == Supplied(Supplies(g, volatile, sizes, pool).g,
                                                                  Supplies(g, volatile, sizes, pool).pool + more)
    decreases |sizes|
  {
    if sizes != [] {
      var r := Ask(g, volatile, sizes[0], pool);
      assert Ask(g, volatile, sizes[0], pool + more) == r.(pool := r.pool + more);
      MorePool(r.g, volatile, sizes[1..], r.pool, more);
    }
  }

  /** The first of several requests. */
  lemma SuppliesFirst(g: Geometry, volatile: bool, a: nat, rest: seq<nat>, pool: nat)
    ensures var r := Ask(g, volatile, a, pool);
      Supplies(g, volatile, [a] + rest, pool) == match r.grant case CellAt(_) => Supplies(r.g, volatile, rest, r.pool)
                                                               case NoCell => Refused(r.g) case PastEnd(_) => Overran(r.g)
  {
    assert ([a] + rest)[0] == a && ([a] + rest)[1..] == rest;
  }

  /** One request, and two. */
  lemma SuppliesOne(g: Geometry, volatile: bool, a: nat, pool: nat)
    ensures var r := Ask(g, volatile, a, pool);
      Supplies(g, volatile, [a], pool) == match r.grant case CellAt(_) => Supplied(r.g, r.pool) case NoCell => Refused(r.g)
                                                        case PastEnd(_) => Overran(r.g)
  {
    assert [a] + [] == [a];
    SuppliesFirst(g, volatile, a, [], pool);
  }

  lemma SuppliesTwo(g: Geometry, volatile: bool, a: nat, b: nat, pool: nat)
    ensures var r := Ask(g, volatile, a, pool);
      Supplies(g, volatile, [a, b], pool) == match r.grant case CellAt(_) => Supplies(r.g, volatile, [b], r.pool)
                                                           case NoCell => Refused(r.g) case PastEnd(_) => Overran(r.g)
  {
    assert [a] + [b] == [a, b];
    SuppliesFirst(g, volatile, a, [b], pool);
  }

  // ---------------------------------------------------------------- resolving

  /** The byte an offset stands for. */
  ghost predicate Resolves(g: Geometry, o: nat, p: Pointer) {
    match p
    case Null => o == 0 || (if o < VOLATILE then forall k :: 0 <= k < |g.bins| ==> !(g.bins[k].base <= o < g.bins[k].base + g.bins[k].size)
                            else (o - VOLATILE) / BIN >= g.volatileBins)
    case InStable(b, at) => o < VOLATILE && b < |g.bins| && o == g.bins[b].base + at && at < g.bins[b].size
    case InVolatile(b, at) => o >= VOLATILE && b < g.volatileBins && o == VOLATILE + b * BIN + at && at < BIN
  }

  lemma {:induction false} BinsAscend(g: Geometry, i: nat, j: nat)
    requires BinsOK(g) && i < j < |g.bins|
    ensures g.bins[i].base + g.bins[i].size <= g.bins[j].base
    decreases j
  {
    if i < j - 1 { BinsAscend(g, i, j - 1); }
  }

  /** A cell resolves to a place in one bin, with all its bytes in that bin behind the header. */
  lemma CellResolves(g: Geometry, c: map<nat, Cell>, o: nat, p: Pointer)
    requires Layout(g, c) && o in c && Resolves(g, o, p)
    ensures p.InStable? ==> BIN_HEADER <= p.at && p.at + Extent(c[o]) <= g.bins[p.bin].size
    ensures p.InVolatile? ==> BIN_HEADER <= p.at && p.at + Extent(c[o]) <= BIN
    ensures !p.Null?
  {
    assert Placed(g, c, o);
    if o < VOLATILE {
      var k: nat :| InBin(g, o, Extent(c[o]), k);
      if p.InStable? && k < p.bin { BinsAscend(g, k, p.bin); }
      if p.InStable? && p.bin < k { BinsAscend(g, p.bin, k); }
    } else {
      var k: nat :| InVolatileBin(g, o, Extent(c[o]), k);
      assert (o - VOLATILE) / BIN == k by {
        assert k * BIN <= o - VOLATILE < (k + 1) * BIN;
      }
      assert p.InVolatile? ==> (o - VOLATILE) / BIN == p.bin;
    }
  }

  /** Two different offsets of cells never share a byte of memory. */
  lemma CellsDisjoint(g: Geometry, c: map<nat, Cell>, a: nat, b: nat, p: Pointer, q: Pointer)
    requires Layout(g, c) && a in c && b in c && a != b && Resolves(g, a, p) && Resolves(g, b, q)
    ensures (p.InStable? && q.InStable?) || (p.InVolatile? && q.InVolatile?) ==>
      p.bin != q.bin || p.at + Extent(c[a]) <= q.at || q.at + Extent(c[b]) <= p.at
    ensures !p.Null? && !q.Null?
  {
    CellResolves(g, c, a, p);
    CellResolves(g, c, b, q);
    assert Apart(c, a, b);
  }
}
