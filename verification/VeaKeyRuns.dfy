/** What sequences of calls on a hive add up to. */
module VeaKeyRuns {
  import opened VeaKeyStore
  import opened VeaKeyNames
  import opened VeaKeyBins
  import opened VeaKeyHive
  import opened Wrappers

  /** One call of VeaSetValueKey; the memory pool serves `pool` more bins at that time. */
  datatype Request = Request(d: nat, name: string, kind: nat, data: Option<seq<Byte>>, size: nat, pool: nat)

  /** A key that exists, a buffer of the stated size, and a node and a payload that each fit a fresh bin. */
  predicate Proper(c: map<nat, Cell>, r: Request) {
    && r.d in c && c[r.d].Dir? && (r.data.Some? ==> |r.data.value| == r.size)
    && FitsBin(FILE_HEADER + |r.name|) && (r.size > 4 ==> FitsBin(SIZE_FIELD + r.size))
  }

  /** What a query hands back. */
  datatype Reply = Reply(status: Status, kind: nat, total: nat, copied: seq<Byte>)

  function Written(r: Request): Write { Write(r.d, r.name, Value(r.kind, Stored(r.data, r.size))) }

  /** The writes among the first requests whose calls succeeded, in order. */
  function Succeeded(requests: seq<Request>, statuses: seq<Status>): seq<Write>
    requires |requests| == |statuses|
  {
    if requests == [] then [] else
    var n := |requests| - 1;
    var before := Succeeded(requests[..n], statuses[..n]);
    if statuses[n].Success? then before + [Written(requests[n])] else before
  }

  // ---------------------------------------------------------------- a run, foretold

  /** How calls end, and what room they leave; `halted` when one of them overran its bin. */
  datatype Forecast = Forecast(statuses: seq<Status>, g: Geometry, halted: bool)

  /** How one call ends, from the map of values and the room alone. */
  function Answer(c: map<nat, Cell>, before: Option<Value>, g: Geometry, r: Request): Supply
    requires Proper(c, r)
  {
    Supplies(g, r.d >= VOLATILE || c[r.d].isVolatile, NewCells(before, r.name, r.size, r.data.Some?), r.pool)
  }

  /** How a sequence of calls ends. Nothing about chains and offsets enters: only the last write of each name, and the
      room. */
  function Foretold(c: map<nat, Cell>, s: Shape, g: Geometry, requests: seq<Request>): (f: Forecast)
    requires forall i :: 0 <= i < |requests| ==> Proper(c, requests[i])
    ensures |f.statuses| <= |requests| && (!f.halted ==> |f.statuses| == |requests|)
    decreases |requests|
  {
    if requests == [] then Forecast([], g, false) else
    var n := |requests| - 1;
    var f := Foretold(c, s, g, requests[..n]);
    if f.halted then f else
    var r := requests[n];
    var a := Answer(c, LastWrite(ValueOf(c, s, r.d, r.name), Succeeded(requests[..n], f.statuses), r.d, r.name), f.g, r);
    Forecast(f.statuses + [Verdict(a, r.data, r.size)], a.g, a.Overran?)
  }

  /** Room for two bins a call, bins for them in the pool, and a buffer for every long value. */
  ghost predicate Ample(g: Geometry, requests: seq<Request>) {
    && MayGrow(g, false, 2 * |requests|) && MayGrow(g, true, 2 * |requests|)
    && forall i :: 0 <= i < |requests| ==> requests[i].pool >= 2 && (requests[i].data.Some? || requests[i].size <= 4)
  }

  ghost predicate NoMoreBins(g: Geometry, g': Geometry, count: nat) {
    && |g'.bins| <= |g.bins| + count && g'.length <= g.length + count * BIN && g'.volatileBins <= g.volatileBins + count
  }

  /** With ample room every call of the run succeeds. */
  lemma {:induction false} AmpleSucceeds(c: map<nat, Cell>, s: Shape, g: Geometry, requests: seq<Request>)
    requires forall i :: 0 <= i < |requests| ==> Proper(c, requests[i])
    requires Ample(g, requests)
    ensures var f := Foretold(c, s, g, requests);
      !f.halted && (forall i :: 0 <= i < |f.statuses| ==> f.statuses[i] == Success) && NoMoreBins(g, f.g, 2 * |requests|)
    decreases |requests|
  {
    if requests != [] {
      var n := |requests| - 1;
      AmpleSucceeds(c, s, g, requests[..n]);
      var f := Foretold(c, s, g, requests[..n]);
      var r := requests[n];
      assert Proper(c, r);
      OneCall(c, LastWrite(ValueOf(c, s, r.d, r.name), Succeeded(requests[..n], f.statuses), r.d, r.name), f.g, r);
    }
  }

  /** A call takes at most two bins. */
  lemma OneCall(c: map<nat, Cell>, before: Option<Value>, g: Geometry, r: Request)
    requires Proper(c, r) && r.pool >= 2 && MayGrow(g, false, 2) && MayGrow(g, true, 2)
    ensures Answer(c, before, g, r).Supplied? && NoMoreBins(g, Answer(c, before, g, r).g, 2)
  {
    OneBinEach(g, r.d >= VOLATILE || c[r.d].isVolatile, NewCells(before, r.name, r.size, r.data.Some?), r.pool);
  }

  // ---------------------------------------------------------------- a run, carried out

  /** The store answers every query for a value like these cells. */
  ghost predicate Reads(s: Store, c: map<nat, Cell>, g: Shape) { SameValues(s.cells, s.shape, c, g) }

  /** The next call, foretold from where the run stands. */
  lemma NextForetold(c: map<nat, Cell>, s: Shape, g: Geometry, requests: seq<Request>, i: nat, f: Forecast, writes: seq<Write>,
                     c1: map<nat, Cell>)
    requires forall k :: 0 <= k < |requests| ==> Proper(c, requests[k])
    requires i < |requests| && Foretold(c, s, g, requests[..i]) == f && !f.halted && KeepsKeys(c, c1)
    requires writes == Succeeded(requests[..i], f.statuses)
    ensures Proper(c1, requests[i])
    ensures var r := requests[i];
      var a := Answer(c1, LastWrite(ValueOf(c, s, r.d, r.name), writes, r.d, r.name), f.g, r);
      var statuses := f.statuses + [Verdict(a, r.data, r.size)];
      && Foretold(c, s, g, requests[..i + 1]) == Forecast(statuses, a.g, a.Overran?)
      && Succeeded(requests[..i + 1], statuses) == if a.Supplied? && (r.data.Some? || r.size <= 4) then writes + [Written(r)] else writes
  {
    var r := requests[i];
    assert Proper(c, r);
    var a := Answer(c1, LastWrite(ValueOf(c, s, r.d, r.name), writes, r.d, r.name), f.g, r);
    var statuses := f.statuses + [Verdict(a, r.data, r.size)];
    assert requests[..i + 1][..i] == requests[..i] && statuses[..i] == f.statuses;
  }

  /** A sequence of VeaSetValueKey calls, to any keys, failed calls included, up to the first that overruns its bin, if
      any: every call ends as foretold, every name of every key reads as the last successful call for it left it, and no
      key is touched. */
  method SetValues(h: Hive, requests: seq<Request>) returns (statuses: seq<Status>)
    requires h.Valid() && forall i :: 0 <= i < |requests| ==> Proper(h.cells, requests[i])
    modifies h
    ensures h.Linked() && SameKeys(old(h.cells), old(h.shape), h.cells, h.shape) && KeepsKeys(old(h.cells), h.cells)
    ensures var f := Foretold(old(h.cells), old(h.shape), old(h.Geo()), requests);
      statuses == f.statuses && h.Geo() == f.g && (h.Valid() <==> !f.halted)
    ensures |statuses| <= |requests| && forall d, n ::
      ValueOf(h.cells, h.shape, d, n)
      == LastWrite(ValueOf(old(h.cells), old(h.shape), d, n), Succeeded(requests[..|statuses|], statuses), d, n)
  {
    statuses := [];
    ghost var c0: map<nat, Cell>, s0, g0 := h.cells, h.shape, h.Geo();
    ghost var writes: seq<Write>, run := [], [Store(c0, s0)];
    var i := 0;
    var halted := false;
    while i < |requests| && !halted
      invariant i <= |requests| && Underway(h, c0, s0, g0, requests, i, statuses, halted, run, writes)
    {
      var status: Status;
      status, run, writes := Continue(h, c0, s0, g0, requests, i, statuses, run, writes);
      statuses := statuses + [status];
      halted := status.Overrun?;
      i := i + 1;
    }
    RunOver(h, c0, s0, g0, requests, i, statuses, halted, run, writes);
  }

  /** After the first i calls. */
  ghost predicate Underway(h: Hive, c: map<nat, Cell>, s: Shape, g: Geometry, requests: seq<Request>, i: nat, statuses: seq<Status>,
                           halted: bool, run: seq<Store>, writes: seq<Write>)
    requires forall k :: 0 <= k < |requests| ==> Proper(c, requests[k])
    reads h
  {
    && i <= |requests| && |statuses| == i && writes == Succeeded(requests[..i], statuses)
    && h.Linked() && SameKeys(c, s, h.cells, h.shape) && KeepsKeys(c, h.cells) && (h.Valid() <==> !halted)
    && Foretold(c, s, g, requests[..i]) == Forecast(statuses, h.Geo(), halted)
    && Ran(run, writes) && run[0] == Store(c, s) && Reads(run[|writes|], h.cells, h.shape)
  }

  method Continue(h: Hive, ghost c: map<nat, Cell>, ghost s: Shape, ghost g: Geometry, requests: seq<Request>, i: nat,
                  ghost statuses: seq<Status>, ghost run: seq<Store>, ghost writes: seq<Write>)
    returns (status: Status, ghost run': seq<Store>, ghost writes': seq<Write>)
    requires i < |requests| && forall k :: 0 <= k < |requests| ==> Proper(c, requests[k])
    requires Underway(h, c, s, g, requests, i, statuses, false, run, writes)
    modifies h
    ensures Underway(h, c, s, g, requests, i + 1, statuses + [status], status.Overrun?, run', writes')
  {
    RunRefinesMap(run, writes, requests[i].d, requests[i].name);
    NextForetold(c, s, g, requests, i, Forecast(statuses, h.Geo(), false), writes, h.cells);
    ghost var c1: map<nat, Cell>, s1 := h.cells, h.shape;
    status, run', writes' := NextCall(h, requests[i], run, writes);
    KeptOn(c, s, c1, s1, h.cells, h.shape);
  }

  lemma KeptOn(c: map<nat, Cell>, g: Shape, c1: map<nat, Cell>, g1: Shape, c2: map<nat, Cell>, g2: Shape)
    requires SameKeys(c, g, c1, g1) && KeepsKeys(c, c1) && SameKeys(c1, g1, c2, g2) && KeepsKeys(c1, c2)
    ensures SameKeys(c, g, c2, g2) && KeepsKeys(c, c2)
  {
    forall d, n ensures SubOf(c2, g2, d, n) == SubOf(c, g, d, n) { assert SubOf(c1, g1, d, n) == SubOf(c, g, d, n); }
  }

  lemma RunOver(h: Hive, c: map<nat, Cell>, s: Shape, g: Geometry, requests: seq<Request>, i: nat, statuses: seq<Status>,
                halted: bool, run: seq<Store>, writes: seq<Write>)
    requires forall k :: 0 <= k < |requests| ==> Proper(c, requests[k])
    requires Underway(h, c, s, g, requests, i, statuses, halted, run, writes) && (halted || i == |requests|)
    ensures Foretold(c, s, g, requests) == Forecast(statuses, h.Geo(), halted)
    ensures forall d, n :: ValueOf(h.cells, h.shape, d, n)
                        == LastWrite(ValueOf(c, s, d, n), Succeeded(requests[..|statuses|], statuses), d, n)
  {
    forall d, n ensures ValueOf(h.cells, h.shape, d, n) == LastWrite(ValueOf(c, s, d, n), writes, d, n) {
      RunRefinesMap(run, writes, d, n);
    }
    if halted { HaltedStays(c, s, g, requests, i); } else { assert requests[..i] == requests; }
  }

  /** One call of the run, and the run with it. */
  method NextCall(h: Hive, r: Request, ghost run: seq<Store>, ghost writes: seq<Write>)
    returns (status: Status, ghost run': seq<Store>, ghost writes': seq<Write>)
    requires h.Valid() && Proper(h.cells, r) && Ran(run, writes) && Reads(run[|writes|], h.cells, h.shape)
    modifies h
    ensures h.Linked() && SameKeys(old(h.cells), old(h.shape), h.cells, h.shape) && KeepsKeys(old(h.cells), h.cells)
    ensures h.Valid() <==> !status.Overrun?
    ensures var a := Answer(old(h.cells), ValueOf(old(h.cells), old(h.shape), r.d, r.name), old(h.Geo()), r);
      && status == Verdict(a, r.data, r.size) && h.Geo() == a.g
      && writes' == if a.Supplied? && (r.data.Some? || r.size <= 4) then writes + [Written(r)] else writes
    ensures Ran(run', writes') && run'[0] == run[0] && Reads(run'[|writes'|], h.cells, h.shape)
  {
    ghost var c1: map<nat, Cell>, g1 := h.cells, h.shape;
    status := h.SetValue(r.d, r.name, r.kind, r.data, r.size, r.pool);
    run', writes' := run, writes;
    if status.Success? {
      RanOn(run, writes, Written(r), c1, g1, Store(h.cells, h.shape));
      run', writes' := run + [Store(h.cells, h.shape)], writes + [Written(r)];
    }
  }

  /** Nothing comes after an overrun. */
  lemma {:induction false} HaltedStays(c: map<nat, Cell>, s: Shape, g: Geometry, requests: seq<Request>, i: nat)
    requires forall k :: 0 <= k < |requests| ==> Proper(c, requests[k])
    requires i <= |requests| && Foretold(c, s, g, requests[..i]).halted
    ensures Foretold(c, s, g, requests) == Foretold(c, s, g, requests[..i])
    decreases |requests|
  {
    if i < |requests| {
      var n := |requests| - 1;
      assert requests[..n][..i] == requests[..i];
      HaltedStays(c, s, g, requests[..n], i);
    } else {
      assert requests[..i] == requests;
    }
  }

  /** One store more, after a write to a store that answers like the last one. */
  lemma RanOn(run: seq<Store>, writes: seq<Write>, w: Write, c: map<nat, Cell>, g: Shape, s: Store)
    requires Ran(run, writes) && Reads(run[|writes|], c, g) && ValueSet(c, g, s.cells, s.shape, w.d, w.name, w.value)
    ensures Ran(run + [s], writes + [w])
  {
    var run', writes' := run + [s], writes + [w];
    forall i | 0 <= i < |writes'| ensures Wrote(run'[i], run'[i + 1], writes'[i]) {
      if i < |writes| { assert Wrote(run[i], run[i + 1], writes[i]); }
    }
  }

  /** VeaSetValueKey, then VkpQueryValueKey of the same name: after a successful write type and bytes read back, as many
      as fit, exactly when the name is not empty; after a failed one the query answers as it would have before. With two
      bins to be had, and a buffer for a long value, the write succeeds, under the empty name as well. */
  method SetThenQuery(h: Hive, r: Request, room: nat) returns (wrote: Status, got: Status, kind: nat, total: nat, copied: seq<Byte>)
    requires h.Valid() && Proper(h.cells, r)
    modifies h
    ensures h.Valid() <==> !wrote.Overrun?
    ensures wrote == Verdict(Answer(old(h.cells), ValueOf(old(h.cells), old(h.shape), r.d, r.name), old(h.Geo()), r), r.data, r.size)
    ensures Ample(old(h.Geo()), [r]) ==> wrote.Success?
    ensures wrote.Success? && r.name == [] ==> got == NotFound
    ensures wrote.Success? && r.name != [] ==>
      && kind == r.kind && total == r.size && copied == Stored(r.data, r.size)[..if room < r.size then room else r.size]
      && got == if room < r.size then BufferTooSmall else Success
    ensures !wrote.Success? && !wrote.Overrun? ==>
      (got == NotFound <==> ValueOf(old(h.cells), old(h.shape), r.d, r.name) == None)
  {
    ghost var c: map<nat, Cell>, g := h.cells, h.shape;
    if Ample(h.Geo(), [r]) {
      assert [r][0] == r;
      OneCall(c, ValueOf(c, g, r.d, r.name), h.Geo(), r);
    }
    wrote := h.SetValue(r.d, r.name, r.kind, r.data, r.size, r.pool);
    got, kind, total, copied := Overrun, 0, 0, [];
    if wrote.Overrun? { return; }
    got, kind, total, copied := h.QueryValue(r.d, r.name, room);
    if wrote.Success? { ReadBack(c, g, h.cells, h.shape, r.d, r.name, Value(r.kind, Stored(r.data, r.size))); }
  }

  /** A query, a write, and the query again: whatever comes of the write (as long as its cell lies inside its bin), a name
      without a NUL that is not the one written, or any name of another key, is answered as before. */
  method QueryAround(h: Hive, r: Request, d: nat, name: string, room: nat)
    returns (before: Reply, wrote: Status, after: Reply)
    requires h.Valid() && Proper(h.cells, r) && d in h.cells && h.cells[d].Dir?
    requires '\0' !in name && (name != r.name || d != r.d)
    modifies h
    ensures h.Valid() <==> !wrote.Overrun?
    ensures !wrote.Overrun? ==> after.status == before.status && (before.status != NotFound ==> after == before)
  {
    var status, kind, total, copied := h.QueryValue(d, name, room);
    before := Reply(status, kind, total, copied);
    wrote := h.SetValue(r.d, r.name, r.kind, r.data, r.size, r.pool);
    after := before;
    if wrote.Overrun? { return; }
    SamePlain(r.name, name);
    status, kind, total, copied := h.QueryValue(d, name, room);
    after := Reply(status, kind, total, copied);
  }

  /** VkpEnsureKeyPathRecursive for a path as it is printed, then VkpInitializeKeyObjectPath of the key it ends at: the
      printed path is the root's, followed by the path of the key it started from and the path asked for, whenever that is
      no longer than a path may be. */
  method EnsureThenPrint(h: Hive, start: nat, names: seq<string>, volatile: bool, pool: nat)
    returns (ensured: Status, printed: Status, path: string, ghost above: seq<string>)
    requires h.Valid() && start in h.cells && h.cells[start].Dir?
    requires forall k :: 0 <= k < |names| ==> names[k] != [] && '/' !in names[k] && '\0' !in names[k]
    modifies h
    ensures above == old(NamesTo(h.cells, h.shape, h.root, start))
    ensures ensured.Success? ==> h.Valid() && (printed.Success? <==>
      |above| + |names| <= 64 && |"/REGISTRY/MACHINE/SYSTEM" + PathText(above) + PathText(names)| < 512)
    ensures ensured.Success? && printed.Success? ==> path == "/REGISTRY/MACHINE/SYSTEM" + PathText(above) + PathText(names)
  {
    ghost var c: map<nat, Cell>, g := h.cells, h.shape;
    above := NamesTo(c, g, h.root, start);
    TokensOfPath(names);
    var final, created;
    ensured, final, created := h.EnsureKeyPath(start, PathText(names), volatile, pool);
    printed, path := ensured, "";
    if !ensured.Success? { return; }
    assert DirOK(h.cells, h.shape, start);
    NamesKept(c, g, h.cells, h.shape, h.root, start);
    WalkedNames(h.cells, h.shape, h.root, start, names);
    PathTextIs(above, names, "");
    assert "/REGISTRY/MACHINE/SYSTEM" + PathText(above + names) == "/REGISTRY/MACHINE/SYSTEM" + PathText(above) + PathText(names);
    printed, path := h.KeyPath(final);
  }

  /** Two writes to a hive that holds the root key alone: the first adds a bin, the second finds neither room in it nor
      another bin, and is handed a cell that runs past the end of the bin. */
  method OverrunReached(imageLength: nat, rootName: string) returns (h: Hive, first: Status, second: Status)
    requires ROOT + AlignUp(DIR_HEADER + |rootName|) <= imageLength <= VOLATILE - BIN
    ensures fresh(h) && first == Success && second == Overrun && h.Linked() && !h.Valid()
  {
    EmptyImage(imageLength, rootName);
    var image: map<nat, Cell> := map[ROOT := Dir(rootName, 0, 0, 0, 0, 0, false)];
    h := new Hive(image, Shape(map[ROOT := []], map[ROOT := []], map[], map[ROOT := 0]), imageLength);
    first := FirstBin(h, imageLength);
    second := PastBin(h, imageLength);
  }

  /** The first write to a full image takes a bin, and 28 bytes of it. */
  method FirstBin(h: Hive, imageLength: nat) returns (status: Status)
    requires h.Valid() && h.Geo() == Loaded(imageLength) && imageLength <= VOLATILE - BIN
    requires ROOT in h.cells && h.cells[ROOT].Dir? && !h.cells[ROOT].isVolatile && ValueOf(h.cells, h.shape, ROOT, "a") == None
    modifies h
    ensures status == Success && h.Valid() && KeepsKeys(old(h.cells), h.cells)
    ensures h.length == imageLength + BIN && h.free == imageLength + BIN_HEADER + 28 && |h.bins| == 2
    ensures ValueOf(h.cells, h.shape, ROOT, "a") == Some(Value(1, [7]))
  {
    SuppliesOne(h.Geo(), false, FILE_HEADER + 1, 1);
    status := h.SetValue(ROOT, "a", 1, Some([7]), 1, 1);
  }

  method PastBin(h: Hive, imageLength: nat) returns (status: Status)
    requires h.Valid() && h.length == imageLength + BIN && h.free == imageLength + BIN_HEADER + 28
    requires ROOT in h.cells && h.cells[ROOT].Dir? && !h.cells[ROOT].isVolatile
    requires ValueOf(h.cells, h.shape, ROOT, "a") == Some(Value(1, [7]))
    modifies h
    ensures status == Overrun && h.Linked() && !h.Valid()
  {
    SuppliesOne(h.Geo(), false, SIZE_FIELD + 4064, 0);
    status := h.SetValue(ROOT, "a", 1, Some(Zeros(4064)), 4064, 0);
  }

  /** The same path asked for twice: when the first call succeeds, so does the second, at the same key, creating nothing.
      The ghost `between` is the store after the first call. */
  method EnsureTwice(h: Hive, start: nat, path: string, volatile: bool, pool: nat, volatile2: bool, pool2: nat)
    returns (first: Status, final: nat, second: Status, final2: nat, created2: bool, ghost between: Store)
    requires h.Valid() && start in h.cells && h.cells[start].Dir?
    modifies h
    ensures first.Success? ==> h.Valid() && second.Success? && final2 == final && !created2 && Store(h.cells, h.shape) == between
    // a bin for each name is always enough
    ensures (0 < |path| < 256 && ShortNames(Tokens(path)) && |Tokens(path)| <= pool
             && MayGrow(old(h.Geo()), volatile, |Tokens(path)|)) ==> first.Success?
  {
    var created: bool;
    PathSupplied(h, start, path, volatile, pool);
    first, final, created := h.EnsureKeyPath(start, path, volatile, pool);
    between := Store(h.cells, h.shape);
    second, final2, created2 := first, final, false;
    if first.Overrun? { return; }
    second, final2, created2 := h.EnsureKeyPath(start, path, volatile2, pool2);
  }

  lemma PathSupplied(h: Hive, start: nat, path: string, volatile: bool, pool: nat)
    ensures |Tokens(path)| <= pool && MayGrow(h.Geo(), volatile, |Tokens(path)|) ==>
      h.Remaining(start, Short(Tokens(path)), volatile, pool).Supplied?
  {
    var sizes := MissingKeys(h.cells, h.shape, start, Short(Tokens(path)));
    MissingBound(h.cells, h.shape, start, Tokens(path));
    if |Tokens(path)| <= pool && MayGrow(h.Geo(), volatile, |Tokens(path)|) { OneBinEach(h.Geo(), volatile, sizes, pool); }
  }
}
