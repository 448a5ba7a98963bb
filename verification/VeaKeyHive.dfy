/** A VeaKey hive: allocation of cells, values and subkeys (veakrnl/vk/vkhv.c, veakrnl/vk/vkmgr.c,
    veakrnl/vk/vkobject.c, veakrnl/vk/vkapi.c). */
module VeaKeyHive {
  import opened VeaKeyStore
  import opened VeaKeyNames
  import opened VeaKeyBins
  import opened Wrappers

  /** STATUS_* values; Overrun marks the one case the code does not notice (see AllocateStableCell): the operation has
      been handed a cell that does not end inside its bin. The model of the operation stops there. */
  datatype Status = Success | InvalidParameter | NotFound | Collision | NoResources | BufferTooSmall | NameTooLong | Overrun

  /** The bytes a caller stores: no buffer stands for zeros, but only up to four bytes. */
  function Stored(data: Option<seq<Byte>>, size: nat): seq<Byte> {
    if data.Some? then data.value else Zeros(size)
  }

  /** The word of a value node says where its bytes are, or is them. */
  ghost predicate Holds(c: map<nat, Cell>, g: Shape, o: nat, word: nat, data: Option<seq<Byte>>, size: nat) {
    if size <= 4 then Unpack(word, size) == Stored(data, size)
    else data.Some? && word in c && c[word] == Data(data.value) && word in g.home && g.home[word] == o
  }

  /** Every cell is still what it was. */
  ghost predicate Keeps(c: map<nat, Cell>, c': map<nat, Cell>) { forall x :: x in c ==> x in c' && c'[x] == c[x] }

  lemma KeepsOn(c: map<nat, Cell>, g: Shape, c1: map<nat, Cell>, g1: Shape, c2: map<nat, Cell>, g2: Shape)
    requires Keeps(c, c1) && Keeps(c1, c2)
    requires SameKeys(c, g, c1, g1) && SameValues(c, g, c1, g1) && SameKeys(c1, g1, c2, g2) && SameValues(c1, g1, c2, g2)
    ensures Keeps(c, c2) && SameKeys(c, g, c2, g2) && SameValues(c, g, c2, g2)
  {
    forall d, n ensures SubOf(c2, g2, d, n) == SubOf(c, g, d, n) && ValueOf(c2, g2, d, n) == ValueOf(c, g, d, n) {
      assert SubOf(c1, g1, d, n) == SubOf(c, g, d, n) && ValueOf(c1, g1, d, n) == ValueOf(c, g, d, n);
    }
  }

  /** A value set after cells have been added. */
  lemma SetOn(c: map<nat, Cell>, g: Shape, c1: map<nat, Cell>, g1: Shape, c2: map<nat, Cell>, g2: Shape, d: nat, name: string,
              v: Value)
    requires SameKeys(c, g, c1, g1) && SameValues(c, g, c1, g1) && Keeps(c, c1)
    requires SameKeys(c1, g1, c2, g2) && KeepsKeys(c1, c2) && ValueSet(c1, g1, c2, g2, d, name, v)
    ensures SameKeys(c, g, c2, g2) && KeepsKeys(c, c2) && ValueSet(c, g, c2, g2, d, name, v)
  {
    forall e, n ensures SubOf(c2, g2, e, n) == SubOf(c, g, e, n) { assert SubOf(c1, g1, e, n) == SubOf(c, g, e, n); }
    forall e, n ensures ValueOf(c2, g2, e, n) == (if e == d && name != [] && SameName(name, n) then Some(v) else ValueOf(c, g, e, n)) {
      assert ValueOf(c1, g1, e, n) == ValueOf(c, g, e, n);
    }
  }

  /** A key attached after a cell has been added. */
  lemma AddedOn(c: map<nat, Cell>, g: Shape, c1: map<nat, Cell>, c2: map<nat, Cell>, g2: Shape, d: nat, name: string, o: nat)
    requires SameKeys(c, g, c1, g) && SameValues(c, g, c1, g) && SameValues(c1, g, c2, g2) && KeyAdded(c1, g, c2, g2, d, name, o)
    ensures SameValues(c, g, c2, g2) && KeyAdded(c, g, c2, g2, d, name, o)
  {
    forall e, n ensures SubOf(c2, g2, e, n) == (if e == d && SameName(name, n) then o else SubOf(c, g, e, n)) {
      assert SubOf(c1, g, e, n) == SubOf(c, g, e, n);
    }
  }

  /** What the cells of a new value come to. */
  lemma NodeSupply(g: Geometry, volatile: bool, name: string, data: Option<seq<Byte>>, size: nat, pool: nat)
    ensures var a := Ask(g, volatile, FILE_HEADER + |name|, pool);
      Supplies(g, volatile, NewCells(None, name, size, data.Some?), pool) ==
        match a.grant
        case NoCell => Refused(a.g)
        case PastEnd(_) => Overran(a.g)
        case CellAt(_) =>
          if data.Some? && size > 4 then Supplies(a.g, volatile, [SIZE_FIELD + size], a.pool) else Supplied(a.g, a.pool)
  {
    if data.Some? && size > 4 {
      assert NewCells(None, name, size, true) == [FILE_HEADER + |name|, SIZE_FIELD + size];
      SuppliesTwo(g, volatile, FILE_HEADER + |name|, SIZE_FIELD + size, pool);
    } else {
      assert NewCells(None, name, size, data.Some?) == [FILE_HEADER + |name|];
      SuppliesOne(g, volatile, FILE_HEADER + |name|, pool);
    }
  }

  /** A value node turned to a fresh payload cell. */
  lemma Rehoused(geo: Geometry, c: map<nat, Cell>, g: Shape, root: nat, d: nat, name: string, f: nat, kind: nat, w: nat,
                 data: seq<Byte>)
    requires StoreOK(c, g, root) && d in g.values && name != [] && f != 0 && f == FindIn(c, g.values[d], name)
    requires f in c && c[f].File? && 4 < |data| && w != 0 && w !in c && Layout(geo, c[w := Data(data)])
    ensures var c1 := c[w := Data(data)];
      var c', g' := c1[f := c1[f].(word := w, length := |data|, kind := kind, inlined := false)], g.(home := g.home[w := f]);
      && Layout(geo, c') && StoreOK(c', g', root) && SameKeys(c, g, c', g') && KeepsKeys(c, c')
      && ValueSet(c, g, c', g', d, name, Value(kind, data))
  {
    var c1 := c[w := Data(data)];
    var file := c1[f].(word := w, length := |data|, kind := kind, inlined := false);
    var c', g' := c1[f := file], g.(home := g.home[w := f]);
    Relocated(c, g, f, file, c', g', data);
    Replaced(c, g, root, d, name, f, file, Some(Data(data)), c', g', data);
    LayoutKept(geo, c1, c');
  }

  /** What an existing value needs for no more than four bytes, or without a buffer: nothing. */
  lemma ReplaceNone(g: Geometry, volatile: bool, v: Value, name: string, data: Option<seq<Byte>>, size: nat, pool: nat)
    requires data.None? || size <= 4
    ensures var s := Supplies(g, volatile, NewCells(Some(v), name, size, data.Some?), pool);
      s.g == g && Verdict(s, data, size) == if data.None? && size > 4 then InvalidParameter else Success
  {
    assert NewCells(Some(v), name, size, data.Some?) == [];
  }

  /** What it needs for more. */
  lemma ReplaceSupply(g: Geometry, volatile: bool, v: Value, name: string, data: seq<Byte>, pool: nat, status: Status, g': Geometry)
    requires |data| > 4
    requires |data| <= |v.bytes| ==> g' == g && status == Success
    requires |data| > |v.bytes| ==>
      var a := Ask(g, volatile, SIZE_FIELD + |data|, pool);
      g' == a.g && status == if a.grant.CellAt? then Success else if a.grant.PastEnd? then Overrun else NoResources
    ensures var s := Supplies(g, volatile, NewCells(Some(v), name, |data|, true), pool);
      g' == s.g && status == Verdict(s, Some(data), |data|)
  {
    if |data| <= |v.bytes| {
      assert NewCells(Some(v), name, |data|, true) == [];
    } else {
      assert NewCells(Some(v), name, |data|, true) == [SIZE_FIELD + |data|];
      SuppliesOne(g, volatile, SIZE_FIELD + |data|, pool);
    }
  }

  /** A blank cell filled with bytes for a value node. */
  lemma Filled(geo: Geometry, c: map<nat, Cell>, g: Shape, root: nat, w: nat, f: nat, data: seq<Byte>)
    requires StoreOK(c, g, root) && w !in c && Layout(geo, c[w := Blank(SIZE_FIELD + |data|)])
    ensures var c', g' := c[w := Data(data)], g.(home := g.home[w := f]);
      && c[w := Blank(SIZE_FIELD + |data|)][w := Data(data)] == c'
      && StoreOK(c', g', root) && SameKeys(c, g, c', g') && SameValues(c, g, c', g') && Layout(geo, c')
  {
    var c', g' := c[w := Data(data)], g.(home := g.home[w := f]);
    Fresh(c, g, root, w, Data(data), c', g');
    OneResized(c[w := Blank(SIZE_FIELD + |data|)], w, Data(data));
    assert c[w := Blank(SIZE_FIELD + |data|)][w := Data(data)] == c';
    LayoutKept(geo, c[w := Blank(SIZE_FIELD + |data|)], c');
  }

  /** How a write ends once its requests for cells have been answered. */
  function Verdict(s: Supply, data: Option<seq<Byte>>, size: nat): Status {
    match s
    case Supplied(_, _) => if data.None? && size > 4 then InvalidParameter else Success
    case Refused(_) => NoResources
    case Overran(_) => Overrun
  }

  const ROOT := 0x1000 + BIN_HEADER    // the root key, behind the base block

  function Loaded(imageLength: nat): Geometry { Geometry([Bin(0, imageLength)], imageLength, imageLength, 0, 0) }

  /** An image with the root key alone can be loaded; nothing is found in it. */
  lemma EmptyImage(imageLength: nat, rootName: string)
    requires ROOT + AlignUp(DIR_HEADER + |rootName|) <= imageLength <= VOLATILE
    ensures var image := map[ROOT := Dir(rootName, 0, 0, 0, 0, 0, false)];
      var links := Shape(map[ROOT := []], map[ROOT := []], map[], map[ROOT := 0]);
      && Layout(Loaded(imageLength), image) && StoreOK(image, links, ROOT)
      && forall d, n :: ValueOf(image, links, d, n) == None && SubOf(image, links, d, n) == 0
  {
    var image: map<nat, Cell> := map[ROOT := Dir(rootName, 0, 0, 0, 0, 0, false)];
    var links := Shape(map[ROOT := []], map[ROOT := []], map[], map[ROOT := 0]);
    assert InBin(Loaded(imageLength), ROOT, Extent(image[ROOT]), 0);
    assert Placed(Loaded(imageLength), image, ROOT);
    assert DirOK(image, links, ROOT) && ChildOK(image, links, ROOT, ROOT);
  }

  class Hive {
    const root: nat
    var bins: seq<Bin>
    var length: nat
    var free: nat
    var volatileBins: nat
    var volatileFree: nat
    var cells: map<nat, Cell>
    ghost var shape: Shape

    ghost function Geo(): Geometry
      reads this
    {
      Geometry(bins, length, free, volatileBins, volatileFree)
    }

    /** The chains and links are in order. */
    ghost predicate Linked()
      reads this
    {
      StoreOK(cells, shape, root)
    }

    /** And every cell has its own place inside a bin. */
    ghost predicate Valid()
      reads this
    {
      Layout(Geo(), cells) && Linked()
    }

    /** The hive loaded at boot: one bin that holds the whole image, full, with whatever keys and values it came with;
        the root key stands behind the first block header. */
    constructor (image: map<nat, Cell>, ghost links: Shape, imageLength: nat)
      requires Layout(Loaded(imageLength), image) && StoreOK(image, links, ROOT)
      ensures Valid() && root == ROOT && cells == image && shape == links && Geo() == Loaded(imageLength)
    {
      root := ROOT;
      bins, length, free := [Bin(0, imageLength)], imageLength, imageLength;
      volatileBins, volatileFree := 0, 0;
      cells := image;
      shape := links;
    }

    /** VkpGetCellPointer. */
    method GetCellPointer(o: nat) returns (p: Pointer)
      requires Valid()
      ensures Resolves(Geo(), o, p)
      ensures o in cells ==> !p.Null?
    {
      if o == 0 {
        p := Null;
      } else if o >= VOLATILE {
        var index, local := (o - VOLATILE) / BIN, (o - VOLATILE) % BIN;
        p := if index >= volatileBins then Null else InVolatile(index, local);
      } else {
        p := Null;
        var i := 0;
        while i < |bins|
          invariant 0 <= i <= |bins|
          invariant forall k :: 0 <= k < i ==> !(bins[k].base <= o < bins[k].base + bins[k].size)
        {
          if bins[i].base <= o < bins[i].base + bins[i].size {
            p := InStable(i, o - bins[i].base);
            break;
          }
          i := i + 1;
        }
      }
      if o in cells { CellResolves(Geo(), cells, o, p); }
    }

    // `pool` is the number of bins the memory pool still serves: an operation stops at the first refusal, so a number
    // says all about its answers.

    /** HvAllocateVolatileCell: `memory` says whether the pool can serve one more bin. */
    method AddVolatileBin(memory: bool) returns (ok: bool)
      requires Valid()
      modifies this`volatileBins, this`volatileFree
      ensures Valid() && (ok <==> memory && old(volatileBins) < MAX_VOLATILE)
      ensures Geo() == if ok then WithVolatileBin(old(Geo())) else old(Geo())
    {
      ok := volatileBins < MAX_VOLATILE && memory;
      if ok {
        GrowVolatile(Geo(), cells);
        volatileBins := volatileBins + 1;
        volatileFree := BIN_HEADER;
      }
    }

    /** HvAllocateStableCell. */
    method AddStableBin(memory: bool) returns (ok: bool)
      requires Valid()
      modifies this`bins, this`free, this`length
      ensures Valid() && (ok <==> memory && |old(bins)| < MAX_STABLE && old(length) + BIN <= VOLATILE)
      ensures Geo() == if ok then WithStableBin(old(Geo())) else old(Geo())
    {
      ok := |bins| < MAX_STABLE && memory && length + BIN <= VOLATILE;
      if ok {
        GrowStable(Geo(), cells);
        bins := bins + [Bin(length, BIN)];
        free := length + BIN_HEADER;
        length := length + BIN;
      }
    }

    /** VkpAllocateVolatileCell: fails exactly when a new bin is needed and none can be had. */
    method AllocateVolatileCell(size: nat, pool: nat) returns (r: Grant, left: nat)
      requires Valid() && FitsBin(size)
      modifies this`volatileBins, this`volatileFree, this`cells
      ensures Valid() && Room(r, Geo(), left) == Ask(old(Geo()), true, size, pool)
      ensures r.NoCell? <==> (old(volatileBins) == 0 || old(volatileFree) + AlignUp(size) > 4096)
                             && (pool == 0 || old(volatileBins) >= 32)
      // in the last bin, or behind the 24 bytes of header of a new one
      ensures !r.NoCell? ==>
        var grown := old(volatileBins) == 0 || old(volatileFree) + AlignUp(size) > 4096;
        && volatileBins == old(volatileBins) + (if grown then 1 else 0) && left == pool - (if grown then 1 else 0)
        && r.offset == 0x8000_0000 + (volatileBins - 1) * 4096 + (if grown then 24 else old(volatileFree))
        && volatileFree == (if grown then 24 else old(volatileFree)) + AlignUp(size)
      ensures r.NoCell? ==> cells == old(cells)
      ensures !r.NoCell? ==> r.CellAt? && r.offset >= VOLATILE && r.offset !in old(cells) && cells == old(cells)[r.offset := Blank(size)]
    {
      left := pool;
      var aligned := AlignUp(size);
      if volatileBins == 0 || volatileFree + aligned > BIN {
        var ok := AddVolatileBin(pool > 0);
        if !ok { return NoCell, left; }
        left := left - 1;
      }
      var o := TakeVolatile(size, aligned);
      r := CellAt(o);
    }

    method TakeVolatile(size: nat, aligned: nat) returns (o: nat)
      requires Valid() && 0 < size && aligned == AlignUp(size) && volatileBins > 0 && volatileFree + aligned <= BIN
      modifies this`volatileFree, this`cells
      ensures Valid() && o == VOLATILE + (volatileBins - 1) * BIN + old(volatileFree) && volatileFree == old(volatileFree) + aligned
      ensures o >= VOLATILE && o !in old(cells) && cells == old(cells)[o := Blank(size)]
    {
      PlaceVolatile(Geo(), cells, Blank(size));
      o := VOLATILE + (volatileBins - 1) * BIN + volatileFree;
      FreshCell(cells, shape, root, o, Blank(size), cells[o := Blank(size)], shape);
      cells := cells[o := Blank(size)];
      volatileFree := volatileFree + aligned;
    }

    /** VkpAllocateStableCell. It ignores whether a needed bin could be had. Then, unless the last bin is exactly full, it
        hands out a cell at the free offset all the same, and that cell runs past the end of the bin: every other cell
        keeps its place, but the layout is broken. */
    method AllocateStableCell(size: nat, pool: nat) returns (r: Grant, left: nat)
      requires Valid() && FitsBin(size)
      modifies this`bins, this`free, this`length, this`cells
      ensures Linked() && (Valid() <==> !r.PastEnd?) && Room(r, Geo(), left) == Ask(old(Geo()), false, size, pool)
      ensures r.CellAt? <==> (old(free) != 0 && old(free) + AlignUp(size) <= old(length))
                             || (pool > 0 && |old(bins)| < 256 && old(length) + 4096 <= 0x8000_0000)
      // in the last bin, or behind the 24 bytes of header of a new one
      ensures r.CellAt? ==>
        var grown := old(free) == 0 || old(free) + AlignUp(size) > old(length);
        && bins == old(bins) + (if grown then [Bin(old(length), 4096)] else []) && left == pool - (if grown then 1 else 0)
        && r.offset == (if grown then old(length) + 24 else old(free)) && free == r.offset + AlignUp(size)
      ensures r.PastEnd? <==> !r.CellAt? && 0 < old(free) < old(length)
      ensures r.NoCell? ==> cells == old(cells)
      ensures !r.NoCell? ==> 0 < r.offset < VOLATILE && r.offset !in old(cells) && cells == old(cells)[r.offset := Blank(size)]
    {
      var aligned := AlignUp(size);
      left := RoomFor(size, aligned, pool);
      if free == 0 || free == length { return NoCell, left; }
      var o := TakeStable(size, aligned);
      r := if free <= length then CellAt(o) else PastEnd(o);
    }

    /** Ask for a new bin if the last one cannot take the cell. */
    method RoomFor(size: nat, aligned: nat, pool: nat) returns (left: nat)
      requires Valid() && FitsBin(size) && aligned == AlignUp(size)
      modifies this`bins, this`free, this`length
      ensures Valid() && var g := old(Geo());
        && Geo() == (if !Fits(g, false, size) && pool > 0 && MayGrow(g, false, 1) then WithStableBin(g) else g)
        && left == if !Fits(g, false, size) && pool > 0 && MayGrow(g, false, 1) then pool - 1 else pool
    {
      left := pool;
      if free == 0 || free + aligned > length {
        var ok := AddStableBin(pool > 0);
        if ok { left := left - 1; }
      }
    }

    method TakeStable(size: nat, aligned: nat) returns (o: nat)
      requires Valid() && 0 < size && aligned == AlignUp(size) && 0 < free < length
      modifies this`free, this`cells
      ensures Linked() && o == old(free) && free == o + aligned && (Valid() <==> free <= length)
      ensures 0 < o < VOLATILE && o !in old(cells) && cells == old(cells)[o := Blank(size)]
    {
      PlaceStableExactly(Geo(), cells, Blank(size));
      o := free;
      FreshCell(cells, shape, root, o, Blank(size), cells[o := Blank(size)], shape);
      cells := cells[o := Blank(size)];
      free := free + aligned;
    }

    /** A cell of the class the key belongs to. */
    method AllocateCell(volatile: bool, size: nat, pool: nat) returns (r: Grant, left: nat)
      requires Valid() && FitsBin(size)
      modifies this`bins, this`free, this`length, this`volatileBins, this`volatileFree, this`cells
      ensures Linked() && (Valid() <==> !r.PastEnd?) && Room(r, Geo(), left) == Ask(old(Geo()), volatile, size, pool)
      ensures r.NoCell? ==> cells == old(cells)
      ensures !r.NoCell? ==> r.offset != 0 && r.offset !in old(cells) && cells == old(cells)[r.offset := Blank(size)]
      ensures !r.NoCell? ==> (r.offset >= VOLATILE <==> volatile)
      ensures SameKeys(old(cells), shape, cells, shape) && SameValues(old(cells), shape, cells, shape)
    {
      ghost var c: map<nat, Cell> := cells;
      if volatile {
        r, left := AllocateVolatileCell(size, pool);
      } else {
        r, left := AllocateStableCell(size, pool);
      }
      if !r.NoCell? { Fresh(c, shape, root, r.offset, Blank(size), cells, shape); }
    }

    // -------------------------------------------------------------- lookups

    /** The comparison of two names (RtlRawStringCompareN over equal lengths). */
    static method NamesMatch(a: string, b: string) returns (same: bool)
      ensures same <==> |a| == |b| && forall i :: 0 <= i < |a| && '\0' !in a[..i] ==> a[i] == b[i]
      ensures '\0' !in b ==> (same <==> a == b)
      ensures same <==> SameName(a, b)
    {
      same := Compare(a, b);
      SameNameIs(a, b);
      if '\0' !in b { SamePlain(a, b); }
    }

    /** The lengths, then the loop of RtlRawStringCompareN. */
    static method Compare(a: string, b: string) returns (same: bool)
      ensures same <==> SameName(a, b)
    {
      if |a| != |b| { return false; }
      var i := 0;
      assert a[0..] == a && b[0..] == b;
      while i < |a|
        invariant 0 <= i <= |a|
        invariant SameName(a, b) <==> UpToNul(a[i..]) == UpToNul(b[i..])
      {
        assert a[i..][0] == a[i] && b[i..][0] == b[i];
        assert a[i..][1..] == a[i + 1..] && b[i..][1..] == b[i + 1..];
        if a[i] != b[i] || a[i] == '\0' {
          NulStop(a[i..], b[i..]);
          return a[i] == b[i];
        }
        NulStep(a[i..], b[i..]);
        i := i + 1;
      }
      return true;
    }

    /** VkpFindSubkey: follows the sibling links. For a name without a NUL it finds the key that has d as its parent and
        exactly that name, if there is one. */
    method FindSubkey(d: nat, name: string) returns (o: nat)
      requires Valid() && d in cells && cells[d].Dir?
      ensures o == SubOf(cells, shape, d, name)
      ensures '\0' !in name ==>
        (o == 0 <==>
          name == [] || forall x :: x in cells && cells[x].Dir? && x != root && cells[x].parent == d ==> cells[x].name != name)
      ensures '\0' !in name && o != 0 ==>
        o in cells && cells[o].Dir? && o != root && cells[o].parent == d && cells[o].name == name
    {
      o := ScanSubkeys(d, name);
      if '\0' !in name { SubkeyIs(cells, shape, root, d, name); }
    }

    /** The loop of VkpFindSubkey. */
    method ScanSubkeys(d: nat, name: string) returns (o: nat)
      requires Valid() && d in cells && cells[d].Dir?
      ensures o == SubOf(cells, shape, d, name)
    {
      assert DirOK(cells, shape, d);
      if name == [] { return 0; }
      ghost var l, i := shape.subs[d], 0;
      ChainMembers(cells, shape, root, d);
      assert l[0..] == l;
      o := cells[d].firstSub;
      while o != 0
        invariant 0 <= i <= |l| && (i < |l| ==> l[i] in l) && o == (if i < |l| then l[i] else 0)
        invariant FindIn(cells, l[i..], name) == SubOf(cells, shape, d, name)
        decreases |l| - i
      {
        assert SubAt(cells, shape, d, i);
        var p := GetCellPointer(o);
        var same := Compare(cells[o].name, name);
        if same { return; }
        assert l[i..][1..] == l[i + 1..];
        o := cells[o].nextSibling;
        i := i + 1;
      }
    }

    /** VkpFindValueNode: follows the value links. For a name without a NUL it finds the key's node with exactly that name,
        if there is one. */
    method FindValueNode(d: nat, name: string) returns (o: nat)
      requires Valid() && d in cells && cells[d].Dir?
      ensures d in shape.values && o == if name == [] then 0 else FindIn(cells, shape.values[d], name)
      ensures forall x :: x in shape.values[d] ==> x in cells && cells[x].File?
      ensures '\0' !in name ==> (o == 0 <==> name == [] || forall x :: x in shape.values[d] ==> cells[x].name != name)
      ensures '\0' !in name && o != 0 ==> o in shape.values[d] && cells[o].name == name
    {
      assert DirOK(cells, shape, d);
      o := ScanValues(d, name);
      ChainMembers(cells, shape, root, d);
      if '\0' !in name { NodeIs(cells, shape, root, d, name); }
    }

    /** The loop of VkpFindValueNode. */
    method ScanValues(d: nat, name: string) returns (o: nat)
      requires Valid() && d in cells && cells[d].Dir?
      ensures d in shape.values && o == if name == [] then 0 else FindIn(cells, shape.values[d], name)
    {
      assert DirOK(cells, shape, d);
      if name == [] { return 0; }
      ghost var l, i := shape.values[d], 0;
      ChainMembers(cells, shape, root, d);
      assert l[0..] == l;
      o := cells[d].firstValue;
      while o != 0
        invariant 0 <= i <= |l| && (i < |l| ==> l[i] in l) && o == (if i < |l| then l[i] else 0)
        invariant FindIn(cells, l[i..], name) == FindIn(cells, l, name)
        decreases |l| - i
      {
        assert ValueAt(cells, shape, d, i);
        var p := GetCellPointer(o);
        var same := Compare(cells[o].name, name);
        if same { return; }
        assert l[i..][1..] == l[i + 1..];
        o := cells[o].next;
        i := i + 1;
      }
    }

    /** VkpQueryValueKey: type, full length, and as many bytes as the caller's buffer takes. */
    method QueryValue(d: nat, name: string, room: nat) returns (status: Status, kind: nat, total: nat, copied: seq<Byte>)
      requires Valid() && d in cells && cells[d].Dir?
      ensures status == match ValueOf(cells, shape, d, name)
                        case None => NotFound
                        case Some(v) => if room < |v.bytes| then BufferTooSmall else Success
      ensures match ValueOf(cells, shape, d, name)
              case None => true
              case Some(v) => kind == v.kind && total == |v.bytes| && copied == v.bytes[..if room < total then room else total]
      ensures d in shape.values && forall x :: x in shape.values[d] ==> x in cells && cells[x].File?
      ensures '\0' !in name ==> (status == NotFound <==> name == [] || forall x :: x in shape.values[d] ==> cells[x].name != name)
      ensures '\0' !in name && status != NotFound ==>
        && |copied| == (if room < total then room else total) && status == (if room < total then BufferTooSmall else Success)
        && exists x :: x in shape.values[d] && cells[x].name == name && kind == cells[x].kind && total == cells[x].length
    {
      kind, total, copied := 0, 0, [];
      var f := FindValueNode(d, name);
      if f == 0 { return NotFound, kind, total, copied; }
      ChainMembers(cells, shape, root, d);
      FindInMember(cells, shape.values[d], name);
      assert FileOK(cells, shape, f);
      kind, total := cells[f].kind, cells[f].length;
      var bytes: seq<Byte>;
      if total <= 4 {
        bytes := Unpack(cells[f].word, total);
        UnpackLength(cells[f].word, total);
      } else {
        var p := GetCellPointer(cells[f].word);
        bytes := cells[cells[f].word].bytes[..total];
      }
      var count := if room < total then room else total;
      copied := bytes[..count];
      status := if room < total then BufferTooSmall else Success;
    }

    // -------------------------------------------------------------- values

    /** VeaSetValueKey on a value that exists: in the node, in its payload cell when the bytes fit, or in a new cell. */
    method ReplaceValue(d: nat, name: string, f: nat, kind: nat, data: Option<seq<Byte>>, size: nat, volatile: bool, pool: nat)
      returns (status: Status)
      requires Valid() && d in cells && cells[d].Dir? && d in shape.values
      requires name != [] && f != 0 && f == FindIn(cells, shape.values[d], name)
      requires data.Some? ==> |data.value| == size
      requires size > 4 ==> FitsBin(SIZE_FIELD + size)
      modifies this`bins, this`free, this`length, this`volatileBins, this`volatileFree, this`cells, this`shape
      ensures Linked() && (Valid() <==> !status.Overrun?)
      ensures SameKeys(old(cells), old(shape), cells, shape) && KeepsKeys(old(cells), cells)
      ensures status.Success? ==>
        ValueSet(old(cells), old(shape), cells, shape, d, name, Value(kind, Stored(data, size)))
      ensures !status.Success? ==> SameValues(old(cells), old(shape), cells, shape)
      ensures ValueOf(old(cells), old(shape), d, name).Some?
      ensures var s := Supplies(old(Geo()), volatile, NewCells(ValueOf(old(cells), old(shape), d, name), name, size, data.Some?), pool);
        Geo() == s.g && status == Verdict(s, data, size)
    {
      ValueLength(cells, shape, root, d, name);
      ghost var g, v := Geo(), Value(cells[f].kind, Contents(cells, f));
      assert ValueOf(cells, shape, d, name) == Some(v) && |v.bytes| == cells[f].length;
      var wasInline := cells[f].inlined || cells[f].length <= 4;
      if size <= 4 {
        WriteInline(d, name, f, kind, data, size);
        status := Success;
        ReplaceNone(g, volatile, v, name, data, size, pool);
      } else if data.None? {
        status := InvalidParameter;
        ReplaceNone(g, volatile, v, name, data, size, pool);
      } else {
        status := ReplaceLong(d, name, f, kind, data.value, wasInline, volatile, pool);
        ReplaceSupply(g, volatile, v, name, data.value, pool, status, Geo());
      }
    }

    /** More than four bytes: over the old ones if they fit there, else in a new cell. */
    method ReplaceLong(d: nat, name: string, f: nat, kind: nat, data: seq<Byte>, wasInline: bool, volatile: bool, pool: nat)
      returns (status: Status)
      requires Valid() && d in cells && cells[d].Dir? && d in shape.values
      requires name != [] && f != 0 && f == FindIn(cells, shape.values[d], name)
      requires f in cells && cells[f].File? && 4 < |data| && FitsBin(SIZE_FIELD + |data|)
      requires wasInline <==> cells[f].inlined || cells[f].length <= 4
      modifies this`bins, this`free, this`length, this`volatileBins, this`volatileFree, this`cells, this`shape
      ensures Linked() && (Valid() <==> !status.Overrun?)
      ensures SameKeys(old(cells), old(shape), cells, shape) && KeepsKeys(old(cells), cells)
      ensures status.Success? ==> ValueSet(old(cells), old(shape), cells, shape, d, name, Value(kind, data))
      ensures !status.Success? ==> SameValues(old(cells), old(shape), cells, shape)
      ensures |data| <= old(cells)[f].length ==> Geo() == old(Geo()) && status == Success
      ensures |data| > old(cells)[f].length ==> var a := Ask(old(Geo()), volatile, SIZE_FIELD + |data|, pool);
        Geo() == a.g && status == if a.grant.CellAt? then Success else if a.grant.PastEnd? then Overrun else NoResources
    {
      assert FileOK(cells, shape, f);
      if !wasInline && |data| <= cells[f].length {
        status := Overwrite(d, name, f, kind, data);
      } else {
        status := Relocate(d, name, f, kind, data, volatile, pool);
      }
    }

    /** Up to four bytes copied into the offset field; no buffer leaves it zero. */
    static method InlineWord(data: Option<seq<Byte>>, size: nat) returns (word: nat)
      requires data.Some? ==> |data.value| == size
      ensures Unpack(word, size) == Stored(data, size)
    {
      word := if data.Some? then Pack(data.value) else 0;
      if data.Some? { UnpackPack(data.value); } else { UnpackZero(size); }
    }

    /** Up to four bytes go into the node itself; an old payload cell is left behind. */
    method WriteInline(d: nat, name: string, f: nat, kind: nat, data: Option<seq<Byte>>, size: nat)
      requires Valid() && d in shape.values && name != [] && f != 0 && f == FindIn(cells, shape.values[d], name)
      requires f in cells && cells[f].File? && size <= 4 && (data.Some? ==> |data.value| == size)
      modifies this`cells
      ensures Valid() && SameKeys(old(cells), shape, cells, shape) && KeepsKeys(old(cells), cells)
      ensures ValueSet(old(cells), shape, cells, shape, d, name, Value(kind, Stored(data, size)))
    {
      ghost var c: map<nat, Cell> := cells;
      var word := InlineWord(data, size);
      cells := cells[f := cells[f].(word := word, length := size, kind := kind, inlined := true)];
      Replaced(c, shape, root, d, name, f, cells[f], None, cells, shape, Stored(data, size));
      LayoutKept(Geo(), c, cells);
    }

    method Overwrite(d: nat, name: string, f: nat, kind: nat, data: seq<Byte>) returns (status: Status)
      requires Valid() && d in cells && cells[d].Dir? && d in shape.values
      requires name != [] && f != 0 && f == FindIn(cells, shape.values[d], name)
      requires f in cells && cells[f].File? && 4 < |data| <= cells[f].length && !cells[f].inlined
      modifies this`cells
      ensures Valid() && SameKeys(old(cells), shape, cells, shape) && KeepsKeys(old(cells), cells) && status == Success
      ensures ValueSet(old(cells), shape, cells, shape, d, name, Value(kind, data))
    {
      ghost var c: map<nat, Cell>, g := cells, shape;
      assert FileOK(c, g, f);
      var w := cells[f].word;
      var p := GetCellPointer(w);
      var size := |data|;
      cells := cells[w := Data(data + cells[w].bytes[size..])];
      cells := cells[f := cells[f].(length := size, kind := kind)];
      Overwritten(c, g, f, c[f].(length := size, kind := kind), Data(data + c[w].bytes[size..]), cells, shape, data);
      Replaced(c, g, root, d, name, f, cells[f], Some(cells[w]), cells, shape, data);
      LayoutKept(Geo(), c, cells);
      return Success;
    }

    /** A payload cell for file cell f, filled with its bytes. */
    method NewPayload(f: nat, data: seq<Byte>, volatile: bool, pool: nat) returns (r: Grant, left: nat)
      requires Valid() && f in cells && FitsBin(SIZE_FIELD + |data|)
      modifies this`bins, this`free, this`length, this`volatileBins, this`volatileFree, this`cells, this`shape
      ensures Linked() && (Valid() <==> !r.PastEnd?)
      ensures Room(r, Geo(), left) == Ask(old(Geo()), volatile, SIZE_FIELD + |data|, pool)
      ensures r.NoCell? ==> cells == old(cells)
      ensures !r.CellAt? ==> shape == old(shape)
      ensures !r.NoCell? ==> r.offset != 0 && r.offset !in old(cells)
      ensures r.CellAt? ==> cells == old(cells)[r.offset := Data(data)] && shape == old(shape).(home := old(shape).home[r.offset := f])
      ensures r.PastEnd? ==> cells == old(cells)[r.offset := Blank(SIZE_FIELD + |data|)]
      ensures SameKeys(old(cells), old(shape), cells, shape) && SameValues(old(cells), old(shape), cells, shape)
    {
      ghost var c: map<nat, Cell>, g := cells, shape;
      r, left := AllocateCell(volatile, SIZE_FIELD + |data|, pool);
      if r.CellAt? {
        Filled(Geo(), c, g, root, r.offset, f, data);
        cells := cells[r.offset := Data(data)];
        shape := shape.(home := shape.home[r.offset := f]);
      }
    }

    method Relocate(d: nat, name: string, f: nat, kind: nat, data: seq<Byte>, volatile: bool, pool: nat) returns (status: Status)
      requires Valid() && d in cells && cells[d].Dir? && d in shape.values
      requires name != [] && f != 0 && f == FindIn(cells, shape.values[d], name)
      requires f in cells && cells[f].File? && 4 < |data| && FitsBin(SIZE_FIELD + |data|)
      modifies this`bins, this`free, this`length, this`volatileBins, this`volatileFree, this`cells, this`shape
      ensures Linked() && (Valid() <==> !status.Overrun?)
      ensures SameKeys(old(cells), old(shape), cells, shape) && KeepsKeys(old(cells), cells)
      ensures status.Success? ==> ValueSet(old(cells), old(shape), cells, shape, d, name, Value(kind, data))
      ensures !status.Success? ==> SameValues(old(cells), old(shape), cells, shape)
      ensures var a := Ask(old(Geo()), volatile, SIZE_FIELD + |data|, pool);
        && Geo() == a.g
        && status == if a.grant.CellAt? then Success else if a.grant.PastEnd? then Overrun else NoResources
    {
      ghost var c: map<nat, Cell>, g := cells, shape;
      var r, _ := NewPayload(f, data, volatile, pool);
      if !r.CellAt? { return if r.PastEnd? then Overrun else NoResources; }
      Rehouse(d, name, f, kind, r.offset, data, c, g);
      return Success;
    }

    /** The node is turned to its new payload cell w; before that cell was taken, the store was (c, g). */
    method Rehouse(d: nat, name: string, f: nat, kind: nat, w: nat, data: seq<Byte>, ghost c: map<nat, Cell>, ghost g: Shape)
      requires StoreOK(c, g, root) && d in g.values && name != [] && f != 0 && f == FindIn(c, g.values[d], name)
      requires f in c && c[f].File? && 4 < |data| && w != 0 && w !in c && Layout(Geo(), cells)
      requires cells == c[w := Data(data)] && shape == g.(home := g.home[w := f])
      modifies this`cells
      ensures Valid() && SameKeys(c, g, cells, shape) && KeepsKeys(c, cells)
      ensures ValueSet(c, g, cells, shape, d, name, Value(kind, data))
    {
      Rehoused(Geo(), c, g, root, d, name, f, kind, w, data);
      cells := cells[f := cells[f].(word := w, length := |data|, kind := kind, inlined := false)];
    }

    /** The loop that hangs a new value node behind the last one. */
    method LinkValue(d: nat, o: nat, ghost c: map<nat, Cell>)
      requires d in cells && cells[d].Dir? && d in shape.values && o !in shape.values[d] && o in cells && cells[o].File? && o != d
      requires d in c && c[d].Dir? && cells == c[o := cells[o]]
      requires ValueLinks(c, shape.values[d]) && c[d].firstValue == if shape.values[d] == [] then 0 else shape.values[d][0]
      modifies this`cells
      ensures cells == HungValue(old(cells), shape.values[d], d, o)
      ensures SameSizes(old(cells), cells)
    {
      ghost var v, i := shape.values[d], 0;
      ghost var c1: map<nat, Cell> := cells;
      if cells[d].firstValue == 0 {
        cells := cells[d := cells[d].(firstValue := o)];
      } else {
        var current := cells[d].firstValue;
        while current != 0
          invariant 0 <= i < |v| && current == v[i] && cells == c1
          decreases |v| - i
        {
          assert v[i] in v && cells[v[i]] == c[v[i]];
          if cells[current].next == 0 {
            cells := cells[current := cells[current].(next := o)];
            break;
          }
          current := cells[current].next;
          i := i + 1;
        }
      }
    }

    /** VeaSetValueKey on a new name: a node cell, then a payload cell for more than four bytes, then the link. */
    method AddValue(d: nat, name: string, kind: nat, data: Option<seq<Byte>>, size: nat, volatile: bool, pool: nat)
      returns (status: Status)
      requires Valid() && d in cells && cells[d].Dir? && d in shape.values
      requires name == [] || FindIn(cells, shape.values[d], name) == 0
      requires data.Some? ==> |data.value| == size
      requires FitsBin(FILE_HEADER + |name|) && (size > 4 ==> FitsBin(SIZE_FIELD + size))
      modifies this`bins, this`free, this`length, this`volatileBins, this`volatileFree, this`cells, this`shape
      ensures Linked() && (Valid() <==> !status.Overrun?)
      ensures SameKeys(old(cells), old(shape), cells, shape) && KeepsKeys(old(cells), cells)
      ensures status.Success? ==>
        ValueSet(old(cells), old(shape), cells, shape, d, name, Value(kind, Stored(data, size)))
      ensures !status.Success? ==> SameValues(old(cells), old(shape), cells, shape)
      ensures var s := Supplies(old(Geo()), volatile, NewCells(None, name, size, data.Some?), pool);
        Geo() == s.g && status == Verdict(s, data, size)
    {
      ghost var c: map<nat, Cell>, g := cells, shape;
      var o, word: nat;
      status, o, word := NewNode(name, data, size, volatile, pool);
      if status != Success { return; }
      ghost var c1: map<nat, Cell>, g1 := cells, shape;
      StillNew(c, g, root, d, name, cells);
      Attach(d, o, File(name, 0, word, size, kind, size <= 4), Stored(data, size));
      SetOn(c, g, c1, g1, cells, shape, d, name, Value(kind, Stored(data, size)));
      return Success;
    }

    /** The cells of a new value: a blank node, and a payload cell for more than four bytes. */
    method NewNode(name: string, data: Option<seq<Byte>>, size: nat, volatile: bool, pool: nat)
      returns (status: Status, o: nat, word: nat)
      requires Valid() && (data.Some? ==> |data.value| == size)
      requires FitsBin(FILE_HEADER + |name|) && (size > 4 ==> FitsBin(SIZE_FIELD + size))
      modifies this`bins, this`free, this`length, this`volatileBins, this`volatileFree, this`cells, this`shape
      ensures Linked() && (Valid() <==> !status.Overrun?)
      ensures SameKeys(old(cells), old(shape), cells, shape) && SameValues(old(cells), old(shape), cells, shape)
      ensures shape.values == old(shape).values && Keeps(old(cells), cells)
      ensures status.Success? ==> o != 0 && o in cells && cells[o] == Blank(FILE_HEADER + |name|)
      ensures status.Success? ==> Holds(cells, shape, o, word, data, size)
      ensures var s := Supplies(old(Geo()), volatile, NewCells(None, name, size, data.Some?), pool);
        Geo() == s.g && status == Verdict(s, data, size)
    {
      ghost var c: map<nat, Cell>, g := cells, shape;
      o, word := 0, 0;
      NodeSupply(Geo(), volatile, name, data, size, pool);
      var r, left := AllocateCell(volatile, FILE_HEADER + |name|, pool);
      if !r.CellAt? { return if r.PastEnd? then Overrun else NoResources, o, word; }
      o := r.offset;
      ghost var c1: map<nat, Cell> := cells;
      status, word := NodePayload(o, data, size, volatile, left);
      KeepsOn(c, g, c1, g, cells, shape);
    }

    /** What goes into or behind a new node. */
    method NodePayload(o: nat, data: Option<seq<Byte>>, size: nat, volatile: bool, pool: nat) returns (status: Status, word: nat)
      requires Valid() && (data.Some? ==> |data.value| == size) && o in cells && (size > 4 ==> FitsBin(SIZE_FIELD + size))
      modifies this`bins, this`free, this`length, this`volatileBins, this`volatileFree, this`cells, this`shape
      ensures Linked() && (Valid() <==> !status.Overrun?)
      ensures SameKeys(old(cells), old(shape), cells, shape) && SameValues(old(cells), old(shape), cells, shape)
      ensures shape.values == old(shape).values && Keeps(old(cells), cells)
      ensures status.Success? ==> Holds(cells, shape, o, word, data, size)
      ensures var s := if data.Some? && size > 4 then Supplies(old(Geo()), volatile, [SIZE_FIELD + size], pool) else Supplied(old(Geo()), pool);
        Geo() == s.g && status == Verdict(s, data, size)
    {
      word := 0;
      if size <= 4 {
        word := InlineWord(data, size);
        return Success, word;
      }
      if data.None? { return InvalidParameter, word; }
      SuppliesOne(Geo(), volatile, SIZE_FIELD + size, pool);
      var r, _ := NewPayload(o, data.value, volatile, pool);
      if !r.CellAt? { return if r.PastEnd? then Overrun else NoResources, word; }
      return Success, r.offset;
    }

    method Attach(d: nat, o: nat, file: Cell, ghost bytes: seq<Byte>)
      requires Valid() && d in cells && cells[d].Dir? && d in shape.values && o in cells && cells[o].Blank? && o != 0
      requires file.File? && file.next == 0 && Size(file) == Size(cells[o])
      requires file.name == [] || FindIn(cells, shape.values[d], file.name) == 0
      requires file.inlined <==> file.length <= 4
      requires file.length <= 4 ==> bytes == Unpack(file.word, file.length)
      requires file.length > 4 ==>
        && file.word in cells && cells[file.word] == Data(bytes) && file.length == |bytes|
        && file.word in shape.home && shape.home[file.word] == o
      modifies this`cells, this`shape
      ensures Valid() && SameKeys(old(cells), old(shape), cells, shape) && KeepsKeys(old(cells), cells)
      ensures ValueSet(old(cells), old(shape), cells, shape, d, file.name, Value(file.kind, bytes))
    {
      ghost var c: map<nat, Cell>, g := cells, shape;
      assert o !in g.values[d] by { ChainMembers(c, g, root, d); }
      HangFile(d, o, file);
      LayoutKept(Geo(), c, cells);
      shape := AddedShape(g, d, o);
      AttachedValue(c, g, root, d, o, file, cells, shape, bytes);
    }

    method HangFile(d: nat, o: nat, file: Cell)
      requires StoreOK(cells, shape, root) && d in cells && cells[d].Dir? && d in shape.values && o in cells && cells[o].Blank?
      requires file.File? && Size(file) == Size(cells[o]) && o !in shape.values[d]
      modifies this`cells
      ensures cells == HungValue(old(cells)[o := file], shape.values[d], d, o) && SameSizes(old(cells), cells)
    {
      ghost var c: map<nat, Cell> := cells;
      OneResized(c, o, file);
      cells := cells[o := file];
      ghost var c1: map<nat, Cell> := cells;
      ChainLinks(c, shape, root, d);
      LinkValue(d, o, c);
      SizesChain(c, c1, cells);
    }

    /** VeaSetValueKey. It fails exactly when a cell it needs cannot be had, or when there is no buffer for more than four
        bytes; a value that exists is overwritten in its node or in its payload cell without any new cell. */
    method SetValue(d: nat, name: string, kind: nat, data: Option<seq<Byte>>, size: nat, pool: nat) returns (status: Status)
      requires Valid() && d in cells && cells[d].Dir?
      requires data.Some? ==> |data.value| == size
      requires FitsBin(FILE_HEADER + |name|) && (size > 4 ==> FitsBin(SIZE_FIELD + size))
      modifies this`bins, this`free, this`length, this`volatileBins, this`volatileFree, this`cells, this`shape
      ensures Linked() && (Valid() <==> !status.Overrun?)
      ensures SameKeys(old(cells), old(shape), cells, shape) && KeepsKeys(old(cells), cells)
      ensures status.Success? ==>
        ValueSet(old(cells), old(shape), cells, shape, d, name, Value(kind, Stored(data, size)))
      ensures !status.Success? ==> SameValues(old(cells), old(shape), cells, shape)
      ensures var s := Supplies(old(Geo()), old(IsVolatile(d)),
                                NewCells(ValueOf(old(cells), old(shape), d, name), name, size, data.Some?), pool);
        && Geo() == s.g
        && (status.NoResources? <==> s.Refused?) && (status.Overrun? <==> s.Overran?)
        && (status.InvalidParameter? <==> s.Supplied? && data.None? && size > 4)
        && (status.Success? <==> s.Supplied? && (data.Some? || size <= 4))
    {
      var volatile := IsVolatile(d);
      var f := FindValueNode(d, name);
      if f != 0 {
        status := ReplaceValue(d, name, f, kind, data, size, volatile, pool);
      } else {
        assert ValueOf(cells, shape, d, name) == None;
        status := AddValue(d, name, kind, data, size, volatile, pool);
      }
    }

    /** A key's values go where the key is. */
    predicate IsVolatile(d: nat)
      requires d in cells && cells[d].Dir?
      reads this`cells
    {
      d >= VOLATILE || cells[d].isVolatile
    }

    // -------------------------------------------------------------- subkeys

    /** The loop that hangs a new key behind its last sibling. */
    method LinkSubkey(d: nat, o: nat, ghost c: map<nat, Cell>)
      requires d in cells && cells[d].Dir? && d in shape.subs && o !in shape.subs[d] && o in cells && cells[o].Dir? && o != d
      requires d in c && c[d].Dir? && cells == c[o := cells[o]]
      requires SubLinks(c, shape.subs[d]) && c[d].firstSub == if shape.subs[d] == [] then 0 else shape.subs[d][0]
      modifies this`cells
      ensures cells == Hung(old(cells), shape.subs[d], d, o)
      ensures SameSizes(old(cells), cells)
    {
      ghost var s, i := shape.subs[d], 0;
      ghost var c1: map<nat, Cell> := cells;
      if cells[d].firstSub == 0 {
        cells := cells[d := cells[d].(firstSub := o)];
      } else {
        var current := cells[d].firstSub;
        while current != 0
          invariant 0 <= i < |s| && current == s[i] && cells == c1
          decreases |s| - i
        {
          assert s[i] in s && cells[s[i]] == c[s[i]];
          if cells[current].nextSibling == 0 {
            cells := cells[current := cells[current].(nextSibling := o)];
            break;
          }
          current := cells[current].nextSibling;
          i := i + 1;
        }
      }
    }

    /** VkpAttachStableSubkey and VkpAttachVolatileSubkey. */
    method AttachSubkey(d: nat, name: string, volatile: bool, pool: nat) returns (status: Status, o: nat, left: nat)
      requires Valid() && d in cells && FitsBin(DIR_HEADER + |name|)
      modifies this`bins, this`free, this`length, this`volatileBins, this`volatileFree, this`cells, this`shape
      ensures Linked() && (Valid() <==> !status.Overrun?)
      ensures SameValues(old(cells), old(shape), cells, shape) && KeepsKeys(old(cells), cells)
      ensures status.InvalidParameter? <==> name == []
      ensures status.NotFound? <==> name != [] && !old(cells)[d].Dir?
      ensures status.Collision? <==> name != [] && old(cells)[d].Dir? && SubOf(old(cells), old(shape), d, name) != 0
      ensures status.Collision? ==> o == SubOf(old(cells), old(shape), d, name)
      // for a name without a NUL: there is a key of exactly that name already
      ensures '\0' !in name ==>
        (status.Collision? <==>
          && name != [] && old(cells)[d].Dir?
          && exists x :: x in old(cells) && old(cells)[x].Dir? && x != root && old(cells)[x].parent == d && old(cells)[x].name == name)
      ensures status in {InvalidParameter, NotFound, Collision} ==> Geo() == old(Geo()) && cells == old(cells)
      // otherwise all depends on the cell
      ensures status !in {InvalidParameter, NotFound, Collision} ==>
        var a := Ask(old(Geo()), volatile, 30 + |name|, pool);
        Geo() == a.g && left == a.pool
        && status == if a.grant.CellAt? then Success else if a.grant.PastEnd? then Overrun else NoResources
      ensures status.Success? ==>
        && KeyAdded(old(cells), old(shape), cells, shape, d, name, o) && SubOf(old(cells), old(shape), d, name) == 0
        && o != 0 && o !in old(cells) && (o >= VOLATILE <==> volatile) && o in cells && cells[o] == Dir(name, d, 0, 0, 0, 0, volatile)
        && d in shape.subs && d in old(shape).subs && shape.subs[d] == old(shape).subs[d] + [o]
        && d in cells && cells[d].Dir? && old(cells)[d].Dir? && cells[d].count == old(cells)[d].count + 1
      ensures !status.Success? ==> SameKeys(old(cells), old(shape), cells, shape) && shape == old(shape)
      ensures !status.Success? && !status.Overrun? ==> cells == old(cells)
    {
      o, left := 0, pool;
      if name == [] { return InvalidParameter, 0, left; }
      var p := GetCellPointer(d);
      if !cells[d].Dir? { return NotFound, 0, left; }
      var existing := FindSubkey(d, name);
      if existing != 0 { return Collision, existing, left; }
      status, o, left := AttachNew(d, name, volatile, pool);
    }

    /** The part of the two attach functions after their checks. */
    method AttachNew(d: nat, name: string, volatile: bool, pool: nat) returns (status: Status, o: nat, left: nat)
      requires Valid() && d in cells && cells[d].Dir? && FitsBin(DIR_HEADER + |name|)
      requires name != [] && SubOf(cells, shape, d, name) == 0
      modifies this`bins, this`free, this`length, this`volatileBins, this`volatileFree, this`cells, this`shape
      ensures Linked() && (Valid() <==> !status.Overrun?)
      ensures SameValues(old(cells), old(shape), cells, shape) && KeepsKeys(old(cells), cells)
      ensures var a := Ask(old(Geo()), volatile, DIR_HEADER + |name|, pool);
        Geo() == a.g && left == a.pool
        && status == if a.grant.CellAt? then Success else if a.grant.PastEnd? then Overrun else NoResources
      ensures status.Success? ==>
        && KeyAdded(old(cells), old(shape), cells, shape, d, name, o)
        && o != 0 && o !in old(cells) && (o >= VOLATILE <==> volatile) && o in cells && cells[o] == Dir(name, d, 0, 0, 0, 0, volatile)
        && d in shape.subs && d in old(shape).subs && shape.subs[d] == old(shape).subs[d] + [o]
        && d in cells && cells[d].Dir? && cells[d].count == old(cells)[d].count + 1
      ensures !status.Success? ==> SameKeys(old(cells), old(shape), cells, shape) && shape == old(shape)
      ensures status.NoResources? ==> cells == old(cells)
    {
      ghost var c: map<nat, Cell>, g := cells, shape;
      var r: Grant;
      r, left := AllocateCell(volatile, DIR_HEADER + |name|, pool);
      if !r.CellAt? { return if r.PastEnd? then Overrun else NoResources, 0, left; }
      o := r.offset;
      ghost var c1: map<nat, Cell> := cells;
      assert SubOf(c1, g, d, name) == 0;
      AttachAt(d, o, name, volatile);
      AddedOn(c, g, c1, cells, shape, d, name, o);
      status := Success;
    }

    method AttachAt(d: nat, o: nat, name: string, volatile: bool)
      requires Valid() && d in cells && cells[d].Dir? && o in cells && cells[o] == Blank(DIR_HEADER + |name|) && o != 0
      requires name != [] && SubOf(cells, shape, d, name) == 0
      modifies this`cells, this`shape
      ensures Valid() && SameValues(old(cells), old(shape), cells, shape) && KeepsKeys(old(cells), cells)
      ensures KeyAdded(old(cells), old(shape), cells, shape, d, name, o)
      ensures o in cells && cells[o] == Dir(name, d, 0, 0, 0, 0, volatile)
      ensures d in shape.subs && d in old(shape).subs && shape.subs[d] == old(shape).subs[d] + [o]
      ensures d in cells && cells[d].Dir? && cells[d].count == old(cells)[d].count + 1
    {
      ghost var c: map<nat, Cell>, g := cells, shape;
      assert DirOK(c, g, d);
      ChainMembers(c, g, root, d);
      var dir := Dir(name, d, 0, 0, 0, 0, volatile);
      LinkNew(d, o, dir);
      LayoutKept(Geo(), c, cells);
      shape := GrownShape(g, d, o);
      AttachedKey(c, g, root, d, o, dir, cells, shape);
    }

    /** The key is written, hung behind its siblings and counted. */
    method LinkNew(d: nat, o: nat, dir: Cell)
      requires StoreOK(cells, shape, root) && d in cells && cells[d].Dir? && o in cells && cells[o].Blank? && Size(cells[o]) == Size(dir)
      requires dir.Dir? && d in shape.subs && o !in shape.subs[d]
      modifies this`cells
      ensures cells == Counted(Hung(old(cells)[o := dir], shape.subs[d], d, o), d) && SameSizes(old(cells), cells)
    {
      ghost var c: map<nat, Cell> := cells;
      OneResized(c, o, dir);
      cells := cells[o := dir];
      ghost var c1: map<nat, Cell> := cells;
      ChainLinks(c, shape, root, d);
      LinkSubkey(d, o, c);
      SizesChain(c, c1, cells);
      HungDirs(c1, shape.subs[d], d, o);
      CountUp(d, c);
    }

    method CountUp(d: nat, ghost c: map<nat, Cell>)
      requires d in cells && cells[d].Dir? && SameSizes(c, cells)
      modifies this`cells
      ensures cells == Counted(old(cells), d) && SameSizes(c, cells)
    {
      ghost var c2: map<nat, Cell> := cells;
      OneResized(c2, d, cells[d].(count := cells[d].count + 1));
      cells := cells[d := cells[d].(count := cells[d].count + 1)];
      SizesChain(c, c2, cells);
    }

    /** What the rest of a path needs, asked for one key after the other. */
    ghost function Remaining(d: nat, names: seq<string>, volatile: bool, pool: nat): Supply
      reads this
    {
      Supplies(Geo(), volatile, MissingKeys(cells, shape, d, names), pool)
    }

    /** One name of the path: found, or attached; `rest` are the names behind it. */
    method Step(d: nat, token: string, volatile: bool, pool: nat, ghost start: nat, ghost done: seq<string>,
                ghost c: map<nat, Cell>, ghost g: Shape, before: bool, ghost rest: seq<string>)
      returns (status: Status, child: nat, created: bool, left: nat)
      requires Valid() && Walked(c, g, cells, shape, start, done, d, before)
      requires start != 0 && token != [] && |token| < 128
      modifies this`bins, this`free, this`length, this`volatileBins, this`volatileFree, this`cells, this`shape
      ensures Linked() && (Valid() <==> !status.Overrun?)
      ensures SameValues(c, g, cells, shape) && WalksKept(c, g, cells, shape) && KeepsKeys(c, cells)
      ensures !status.Success? ==> Walk(c, g, start, done + [token]) == 0 && OnlyPath(c, g, cells, shape, start, done)
      ensures status.Success? ==> Walked(c, g, cells, shape, start, done + [token], child, created)
      ensures var s := old(Remaining(d, [token] + rest, volatile, pool));
        if status.Success? then s == Remaining(child, rest, volatile, left)
        else s == (if status.Overrun? then Overran(Geo()) else Refused(Geo())) && status in {NoResources, Overrun}
    {
      created, left := before, pool;
      ghost var c1: map<nat, Cell>, g1 := cells, shape;
      NextMissing(c1, g1, d, token, rest);
      child := ScanSubkeys(d, token);
      WalkAppend(c1, g1, start, done, token);
      if before { WalkZero(c, g, start, done, [token]); }
      if child != 0 {
        ChainMembers(cells, shape, root, d);
        FindInMember(cells, shape.subs[d], token);
        OnlyPathLonger(c, g, cells, shape, start, done, [token]);
        return Success, child, created, left;
      }
      SuppliesFirst(Geo(), volatile, DIR_HEADER + |token|, KeySizes(rest), pool);
      status, child, left := AttachSubkey(d, token, volatile, pool);
      if status.Success? {
        created := true;
        AttachedStep(c, g, c1, g1, cells, shape, root, start, done, d, token, child);
        AllMissing(cells, shape, child, rest);
      } else {
        StuckStep(c, g, c1, g1, cells, shape, start, done);
      }
    }

    /** The inner loop: the end of the name that starts at `begin`. */
    static method ScanToken(path: string, begin: nat) returns (i: nat)
      requires begin <= |path|
      ensures i == begin + |Head(path[begin..])| <= |path|
    {
      i := begin;
      while i < |path| && path[i] != '\0' && path[i] != '/'
        invariant begin <= i <= |path| && i + |Head(path[i..])| == begin + |Head(path[begin..])|
      {
        assert path[i..][0] == path[i] && path[i..][1..] == path[i + 1..];
        i := i + 1;
      }
    }

    /** The walk stands at `at`, behind the names `done` of the path; what it still needs of the pool comes to `goal`. */
    ghost predicate Walking(c: map<nat, Cell>, g: Shape, start: nat, path: string, i: nat, done: seq<string>, at: nat, created: bool,
                            volatile: bool, left: nat, goal: Supply)
      reads this
    {
      && Valid() && Walked(c, g, cells, shape, start, done, at, created) && start != 0
      && i <= |path| && done + Tokens(path[i..]) == Tokens(path) && ShortNames(done)
      && Remaining(at, Short(Tokens(path[i..])), volatile, left) == goal
    }

    /** The name that starts at i, and the step it means. */
    method NextName(i: nat, path: string, d: nat, volatile: bool, pool: nat, ghost start: nat, ghost done: seq<string>,
                    ghost c: map<nat, Cell>, ghost g: Shape, before: bool, ghost goal: Supply)
      returns (next: nat, status: Status, final: nat, created: bool, left: nat, ghost names: seq<string>)
      requires i < |path| && path[i] != '\0' && path[i] != '/'
      requires Walking(c, g, start, path, i, done, d, before, volatile, pool, goal)
      modifies this`bins, this`free, this`length, this`volatileBins, this`volatileFree, this`cells, this`shape
      ensures Linked() && (Valid() <==> !status.Overrun?)
      ensures SameValues(c, g, cells, shape) && WalksKept(c, g, cells, shape) && KeepsKeys(c, cells)
      ensures !status.Success? ==> OnlyPath(c, g, cells, shape, start, Tokens(path))
      ensures i < next <= |path| && status in {Success, NameTooLong, NoResources, Overrun}
      ensures status.NameTooLong? ==> !ShortNames(Tokens(path)) && goal.Supplied? && goal.g == Geo()
      ensures status in {NoResources, Overrun} ==> Walk(c, g, start, Tokens(path)) == 0
      ensures status in {NoResources, Overrun} ==> goal == if status.Overrun? then Overran(Geo()) else Refused(Geo())
      ensures status.Success? ==> Walking(c, g, start, path, next, names, final, created, volatile, left, goal)
    {
      final, created, left := d, before, pool;
      next := ScanToken(path, i);
      var token := path[i..next];
      names := done + [token];
      ghost var rest := NextToken(path, i, next, done);
      if |token| >= 128 {
        LongName(done, token, rest);
        OnlyPathLonger(c, g, cells, shape, start, done, [token] + rest);
        return next, NameTooLong, final, created, left, names;
      }
      var child: nat;
      status, child, created, left := Step(d, token, volatile, pool, start, done, c, g, before, Short(rest));
      if status.Success? {
        final := child;
        ShortMore(done, token);
      } else {
        StepFailed(c, g, cells, shape, start, done, token, rest);
      }
    }

    /** The loop of VkpEnsureKeyPathRecursive. */
    method WalkPath(start: nat, path: string, volatile: bool, pool: nat) returns (status: Status, final: nat, created: bool)
      requires Valid() && start in cells && cells[start].Dir?
      modifies this`bins, this`free, this`length, this`volatileBins, this`volatileFree, this`cells, this`shape
      ensures Linked() && (Valid() <==> !status.Overrun?)
      ensures SameValues(old(cells), old(shape), cells, shape) && KeepsKeys(old(cells), cells)
      ensures WalksKept(old(cells), old(shape), cells, shape)
      ensures OnlyPath(old(cells), old(shape), cells, shape, start, Tokens(path))
      ensures status.Success? ==>
        ShortNames(Tokens(path)) && Walked(old(cells), old(shape), cells, shape, start, Tokens(path), final, created)
      ensures status.NameTooLong? ==> !ShortNames(Tokens(path))
      ensures status in {NoResources, Overrun} ==> Walk(old(cells), old(shape), start, Tokens(path)) == 0
      ensures var s := old(Remaining(start, Short(Tokens(path)), volatile, pool));
        Geo() == s.g && match status
                        case Success => s.Supplied?
                        case NameTooLong => s.Supplied?
                        case NoResources => s.Refused?
                        case Overrun => s.Overran?
                        case _ => false
    {
      var left := pool;
      final, created := start, false;
      ghost var c: map<nat, Cell>, g := cells, shape;
      ghost var goal := Remaining(start, Short(Tokens(path)), volatile, pool);
      ghost var done: seq<string> := [];
      StartWalking(start, path, volatile, pool);
      var i := 0;
      while i < |path| && path[i] != '\0'
        invariant i <= |path| && Walking(c, g, start, path, i, done, final, created, volatile, left, goal)
        decreases |path| - i
      {
        i, status, final, created, left, done := NextPart(i, path, final, volatile, left, start, done, c, g, created, goal);
        if status != Success { return; }
      }
      EndWalking(c, g, start, path, i, done, final, created, volatile, left, goal);
      return Success, final, created;
    }

    lemma StartWalking(start: nat, path: string, volatile: bool, pool: nat)
      requires Valid() && start in cells && cells[start].Dir?
      ensures Walking(cells, shape, start, path, 0, [], start, false, volatile, pool, Remaining(start, Short(Tokens(path)), volatile, pool))
    {
      assert DirOK(cells, shape, start);
      assert path[0..] == path && [] + Tokens(path) == Tokens(path);
    }

    lemma EndWalking(c: map<nat, Cell>, g: Shape, start: nat, path: string, i: nat, done: seq<string>, at: nat, created: bool,
                     volatile: bool, left: nat, goal: Supply)
      requires Walking(c, g, start, path, i, done, at, created, volatile, left, goal) && (i == |path| || path[i] == '\0')
      ensures done == Tokens(path) && ShortNames(Tokens(path)) && goal == Supplied(Geo(), left)
      ensures Walked(c, g, cells, shape, start, Tokens(path), at, created)
    {
      PathEnd(path, i, done);
    }

    /** A slash skipped, or a name. */
    method NextPart(i: nat, path: string, d: nat, volatile: bool, pool: nat, ghost start: nat, ghost done: seq<string>,
                    ghost c: map<nat, Cell>, ghost g: Shape, before: bool, ghost goal: Supply)
      returns (next: nat, status: Status, final: nat, created: bool, left: nat, ghost names: seq<string>)
      requires i < |path| && path[i] != '\0' && Walking(c, g, start, path, i, done, d, before, volatile, pool, goal)
      modifies this`bins, this`free, this`length, this`volatileBins, this`volatileFree, this`cells, this`shape
      ensures Linked() && (Valid() <==> !status.Overrun?)
      ensures SameValues(c, g, cells, shape) && WalksKept(c, g, cells, shape) && KeepsKeys(c, cells)
      ensures !status.Success? ==> OnlyPath(c, g, cells, shape, start, Tokens(path))
      ensures i < next <= |path| && status in {Success, NameTooLong, NoResources, Overrun}
      ensures status.NameTooLong? ==> !ShortNames(Tokens(path)) && goal.Supplied? && goal.g == Geo()
      ensures status in {NoResources, Overrun} ==> Walk(c, g, start, Tokens(path)) == 0
      ensures status in {NoResources, Overrun} ==> goal == if status.Overrun? then Overran(Geo()) else Refused(Geo())
      ensures status.Success? ==> Walking(c, g, start, path, next, names, final, created, volatile, left, goal)
    {
      if path[i] == '/' {
        SlashStep(path, i);
        return i + 1, Success, d, before, pool, done;
      }
      next, status, final, created, left, names := NextName(i, path, d, volatile, pool, start, done, c, g, before, goal);
    }

    /** VkpEnsureKeyPathRecursive: walks a relative path from a key, creating what is missing. */
    method EnsureKeyPath(start: nat, path: string, volatile: bool, pool: nat) returns (status: Status, final: nat, created: bool)
      requires Valid() && start in cells && cells[start].Dir?
      modifies this`bins, this`free, this`length, this`volatileBins, this`volatileFree, this`cells, this`shape
      ensures Linked() && (Valid() <==> !status.Overrun?)
      ensures SameValues(old(cells), old(shape), cells, shape) && KeepsKeys(old(cells), cells)
      ensures WalksKept(old(cells), old(shape), cells, shape)
      // nothing but missing links of this path is created
      ensures OnlyPath(old(cells), old(shape), cells, shape, start, Tokens(path))
      ensures status.Success? ==>
        && final == Walk(cells, shape, start, Tokens(path)) != 0
        && (created <==> Walk(old(cells), old(shape), start, Tokens(path)) == 0)
      ensures status.Success? && !created ==> cells == old(cells) && shape == old(shape)
      // when: the missing keys in front of the first long name are asked for one after the other
      ensures status.InvalidParameter? <==> path == []
      ensures var s := old(Remaining(start, Short(Tokens(path)), volatile, pool));
        && (status.Success? <==> 0 < |path| < 256 && ShortNames(Tokens(path)) && s.Supplied?)
        && (status.NameTooLong? <==> |path| >= 256 || (path != [] && s.Supplied? && !ShortNames(Tokens(path))))
        && (status.NoResources? <==> 0 < |path| < 256 && s.Refused?)
        && (status.Overrun? <==> 0 < |path| < 256 && s.Overran?)
        && Geo() == if 0 < |path| < 256 then s.g else old(Geo())
      ensures (0 < |path| < 256 && Walk(old(cells), old(shape), start, Tokens(path)) != 0
               && ShortNames(Tokens(path))) ==> status.Success?
    {
      final, created := start, false;
      if path == [] { return InvalidParameter, final, created; }
      if |path| >= 256 { return NameTooLong, final, created; }
      status, final, created := WalkPath(start, path, volatile, pool);
    }

    /** VkpInitializeKeyObjectPath: climbs to the root, then writes the names on the way back. */
    method KeyPath(x: nat) returns (status: Status, path: string)
      requires Valid() && x in cells && cells[x].Dir?
      ensures status.Success? <==> |NamesTo(cells, shape, root, x)| <= 64
                                   && |"/REGISTRY/MACHINE/SYSTEM" + PathText(NamesTo(cells, shape, root, x))| < 512
      ensures status.Success? ==> path == "/REGISTRY/MACHINE/SYSTEM" + PathText(NamesTo(cells, shape, root, x))
      ensures !status.Success? ==> status == NameTooLong
    {
      path := "";
      var ok, parts := Parts(x);
      if !ok { return NameTooLong, path; }
      ghost var names := NamesTo(cells, shape, root, x);
      var total, i := |PREFIX|, 0;
      while i < |parts|
        invariant 0 <= i <= |parts| && total == |PREFIX| + |PathText(Reversed(parts[..i]))|
      {
        PathTextStep(parts, i);
        total := total + 1 + |parts[i]|;
        i := i + 1;
      }
      assert parts[..i] == parts;
      if total + 1 > MAX_KEY_PATH { return NameTooLong, path; }
      path := Print(parts);
      status := Success;
    }

    /** The climb: the names from the key up, without the root's. */
    method Parts(x: nat) returns (ok: bool, parts: seq<string>)
      requires Valid() && x in cells && cells[x].Dir?
      ensures ok <==> |NamesTo(cells, shape, root, x)| <= 64
      ensures ok ==> Reversed(parts) == NamesTo(cells, shape, root, x)
    {
      var current := x;
      parts := [];
      ghost var names := NamesTo(cells, shape, root, x);
      while current != root
        invariant current in cells && cells[current].Dir?
        invariant names == NamesTo(cells, shape, root, current) + Reversed(parts) && |parts| <= 64 && |Reversed(parts)| == |parts|
        decreases Depth(shape, current)
      {
        assert ChildOK(cells, shape, root, current);
        if |parts| >= 64 { return false, parts; }
        assert (parts + [cells[current].name])[..|parts|] == parts;
        parts := parts + [cells[current].name];
        var p := GetCellPointer(cells[current].parent);
        current := cells[current].parent;
      }
      return true, parts;
    }

    /** The way back: prefix and names. */
    static method Print(parts: seq<string>) returns (path: string)
      ensures path == PREFIX + PathText(Reversed(parts))
    {
      path := PREFIX;
      var i := |parts|;
      assert parts[..i] == parts;
      while i != 0
        invariant 0 <= i <= |parts| && path + PathText(Reversed(parts[..i])) == PREFIX + PathText(Reversed(parts))
      {
        i := i - 1;
        PathTextStep(parts, i);
        path := path + ['/'] + parts[i];
      }
    }
  }

  const PREFIX := "/REGISTRY/MACHINE/SYSTEM"
  const MAX_KEY_PATH := 512        // VK_MAX_KEY_PATH_LENGTH

  /** Hanging a key behind its siblings leaves every key one. */
  lemma HungDirs(c: map<nat, Cell>, s: seq<nat>, d: nat, o: nat)
    ensures KeepsKeys(c, Hung(c, s, d, o))
  {
  }

  /** The name cut off at i..next and the names behind it. */
  lemma NextToken(path: string, i: nat, next: nat, done: seq<string>) returns (rest: seq<string>)
    requires i < |path| && path[i] != '\0' && path[i] != '/' && next == i + |Head(path[i..])| <= |path|
    requires done + Tokens(path[i..]) == Tokens(path)
    ensures i < next && rest == Tokens(path[next..])
    ensures done + [path[i..next]] + rest == Tokens(path) && done + ([path[i..next]] + rest) == Tokens(path)
    ensures Short(Tokens(path[i..])) == if next - i >= 128 then [] else [path[i..next]] + Short(rest)
  {
    var s := path[i..];
    assert s[0] == path[i];
    assert s[..|Head(s)|] == path[i..next] && s[|Head(s)|..] == path[next..];
    rest := Tokens(path[next..]);
    assert Tokens(s) == [path[i..next]] + rest;
    assert Tokens(s)[0] == path[i..next] && Tokens(s)[1..] == rest;
  }

  lemma SlashStep(path: string, i: nat)
    requires i < |path| && path[i] == '/'
    ensures Tokens(path[i..]) == Tokens(path[i + 1..])
  {
    assert path[i..][0] == path[i] && path[i..][1..] == path[i + 1..];
  }

  /** Nothing is left of a path at its end. */
  lemma PathEnd(path: string, i: nat, done: seq<string>)
    requires i <= |path| && (i == |path| || path[i] == '\0') && done + Tokens(path[i..]) == Tokens(path)
    ensures Tokens(path[i..]) == [] && done == Tokens(path)
  {
    assert i < |path| ==> path[i..][0] == path[i];
    assert done + [] == done;
  }

  lemma LongName(done: seq<string>, token: string, rest: seq<string>)
    requires |token| >= 128
    ensures !ShortNames(done + [token] + rest)
  {
    assert (done + [token] + rest)[|done|] == token;
  }

  /** What one name of a path needs, and what the rest does. */
  lemma NextMissing(c: map<nat, Cell>, g: Shape, d: nat, token: string, rest: seq<string>)
    ensures MissingKeys(c, g, d, [token] + rest) == if SubOf(c, g, d, token) != 0 then MissingKeys(c, g, SubOf(c, g, d, token), rest)
                                                    else [DIR_HEADER + |token|] + KeySizes(rest)
  {
    var names := [token] + rest;
    assert names[0] == token && names[1..] == rest;
  }

  /** A step that attaches a key below the last one. */
  lemma AttachedStep(c: map<nat, Cell>, g: Shape, c1: map<nat, Cell>, g1: Shape, c2: map<nat, Cell>, g2: Shape, root: nat,
                     start: nat, done: seq<string>, d: nat, token: string, child: nat)
    requires StoreOK(c1, g1, root) && Walked(c, g, c1, g1, start, done, d, Walk(c, g, start, done) == 0)
    requires SameValues(c1, g1, c2, g2) && KeepsKeys(c1, c2) && KeyAdded(c1, g1, c2, g2, d, token, child)
    requires SubOf(c1, g1, d, token) == 0 && token != [] && child != 0 && child !in c1 && child in c2 && c2[child].Dir?
    requires Walk(c, g, start, done + [token]) == 0
    ensures Walked(c, g, c2, g2, start, done + [token], child, true)
    ensures forall n :: SubOf(c2, g2, child, n) == 0
  {
    forall n | SameName(token, n) ensures SubOf(c1, g1, d, n) == 0 { SubOfSame(c1, g1, d, token, n); }
    forall s, names | Walk(c1, g1, s, names) != 0 ensures Walk(c2, g2, s, names) == Walk(c1, g1, s, names) {
      WalkStays(c1, g1, c2, g2, d, token, child, s, names);
    }
    WalkAppend(c2, g2, start, done, token);
    OnlyPathGrows(c, g, c1, g1, c2, g2, start, done, d, token, child);
  }

  /** A step that adds no key leaves all walks as they were. */
  lemma StuckStep(c: map<nat, Cell>, g: Shape, c1: map<nat, Cell>, g1: Shape, c2: map<nat, Cell>, g2: Shape, start: nat,
                  done: seq<string>)
    requires WalksKept(c, g, c1, g1) && OnlyPath(c, g, c1, g1, start, done) && SameKeys(c1, g1, c2, g2)
    ensures WalksKept(c, g, c2, g2) && OnlyPath(c, g, c2, g2, start, done)
  {
    forall s, names | Walk(c, g, s, names) != 0 ensures Walk(c2, g2, s, names) == Walk(c, g, s, names) {
      WalkSame(c1, g1, c2, g2, s, names);
    }
    forall d, n | SubOf(c2, g2, d, n) != SubOf(c, g, d, n) ensures SubOf(c, g, d, n) == 0 && OnPath(c2, g2, start, done, d, n) {
      assert SubOf(c2, g2, d, n) == SubOf(c1, g1, d, n);
      var k :| 0 <= k < |done| && Walk(c1, g1, start, done[..k]) == d && d != 0 && SameName(done[k], n);
      WalkSame(c1, g1, c2, g2, start, done[..k]);
    }
  }

  /** A step that fails leaves the path without an end. */
  lemma StepFailed(c: map<nat, Cell>, g: Shape, c': map<nat, Cell>, g': Shape, start: nat, done: seq<string>, token: string,
                   rest: seq<string>)
    requires Walk(c, g, start, done + [token]) == 0 && start != 0 && OnlyPath(c, g, c', g', start, done)
    ensures Walk(c, g, start, done + [token] + rest) == 0 && OnlyPath(c, g, c', g', start, done + [token] + rest)
  {
    WalkZero(c, g, start, done + [token], rest);
    OnlyPathLonger(c, g, c', g', start, done, [token] + rest);
    assert done + [token] + rest == done + ([token] + rest);
  }

  lemma PathTextStep(parts: seq<string>, i: nat)
    requires i < |parts|
    ensures PathText(Reversed(parts[..i + 1])) == ['/'] + parts[i] + PathText(Reversed(parts[..i]))
  {
    assert parts[..i + 1][..i] == parts[..i] && parts[..i + 1][i] == parts[i];
    var rest := Reversed(parts[..i]);
    assert ([parts[i]] + rest)[1..] == rest;
  }

  /** Where the comparison stops, it knows. */
  lemma NulStop(a: string, b: string)
    requires a != [] && b != [] && (a[0] != b[0] || a[0] == '\0')
    ensures UpToNul(a) == UpToNul(b) <==> a[0] == b[0]
  {
    assert UpToNul(a) == [] || UpToNul(a)[0] == a[0];
    assert UpToNul(b) == [] || UpToNul(b)[0] == b[0];
  }

  /** Comparing on behind equal characters. */
  lemma NulStep(a: string, b: string)
    requires a != [] && b != [] && a[0] == b[0] && a[0] != '\0'
    ensures UpToNul(a) == UpToNul(b) <==> UpToNul(a[1..]) == UpToNul(b[1..])
  {
    assert UpToNul(a)[1..] == UpToNul(a[1..]) && UpToNul(b)[1..] == UpToNul(b[1..]);
  }
}
