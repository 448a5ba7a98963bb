/** The table of big pool allocations (veakrnl/mm/ulpool.c): open addressing over 1024 slots, a freed
    slot becomes a tombstone, and a lookup gives up at the first slot that was never used. */
module BigPageTable {
  const SLOTS := 1024                 // POOL_MAX_BIG_PAGES
  const PAGE := 4096
  const TOMBSTONE := 0xFFFF_FFFF      // BIG_PAGE_TOMBSTONE, never page aligned

  datatype Slot = Slot(va: nat, alloc: BigAlloc)
  datatype BigAlloc = BigAlloc(tag: nat, pages: nat, bytes: nat, pool: nat)

  const NOTHING := BigAlloc(0, 0, 0, 0)

  datatype Lookup = Missing | WrongTag(actual: nat) | Removed(alloc: BigAlloc)

  /** A page address that the virtual allocator can hand out. */
  predicate IsPage(va: nat)
  {
    0 < va < TOMBSTONE && va % PAGE == 0
  }

  function Hash(va: nat): (h: nat)
    ensures h < SLOTS
  {
    va / PAGE % SLOTS
  }

  /** The slot reached after d probes from the home slot. */
  function Probe(va: nat, d: nat): (i: nat)
    ensures i < SLOTS
  {
    (Hash(va) + d) % SLOTS
  }

  predicate Occupied(s: Slot)
  {
    s.va != 0 && s.va != TOMBSTONE
  }

  /** A live entry sits `dist` probes from home, and no slot before it was never used. */
  ghost predicate EntryOK(t: seq<Slot>, m: map<nat, BigAlloc>, dist: map<nat, nat>, va: nat)
  {
    && |t| == SLOTS && va in m && va in dist
    && IsPage(va) && dist[va] < SLOTS && m[va].pages > 0 && m[va].pool < 2
    && t[Probe(va, dist[va])] == Slot(va, m[va])
    && forall d :: 0 <= d < dist[va] ==> t[Probe(va, d)].va != 0
  }

  ghost predicate SlotOK(t: seq<Slot>, m: map<nat, BigAlloc>, dist: map<nat, nat>, i: nat)
  {
    i < |t| && (Occupied(t[i]) ==> t[i].va in m && t[i].va in dist && Probe(t[i].va, dist[t[i].va]) == i)
  }

  /** The map the slots stand for. */
  ghost predicate Represents(t: seq<Slot>, m: map<nat, BigAlloc>, dist: map<nat, nat>)
  {
    && |t| == SLOTS
    && (forall va {:trigger EntryOK(t, m, dist, va)} :: va in m ==> EntryOK(t, m, dist, va))
    && (forall i {:trigger SlotOK(t, m, dist, i)} :: 0 <= i < SLOTS ==> SlotOK(t, m, dist, i))
  }

  /** Probing from a home slot meets every slot exactly once in 1024 steps. */
  lemma ProbeMeets(va: nat, i: nat) returns (d: nat)
    requires i < SLOTS
    ensures d < SLOTS && Probe(va, d) == i && forall e :: 0 <= e < SLOTS && Probe(va, e) == i ==> e == d
  {
    d := if i >= Hash(va) then i - Hash(va) else i + SLOTS - Hash(va);
  }

  /** A table that inserting could not enter holds a live entry in every slot. */
  lemma FullTable(t: seq<Slot>, m: map<nat, BigAlloc>, dist: map<nat, nat>, va: nat)
    requires Represents(t, m, dist) && forall d :: 0 <= d < SLOTS ==> Occupied(t[Probe(va, d)])
    ensures forall i :: 0 <= i < SLOTS ==> Occupied(t[i])
  {
    forall i | 0 <= i < SLOTS ensures Occupied(t[i]) {
      var d := ProbeMeets(va, i);
    }
  }

  lemma InsertRepresents(t: seq<Slot>, m: map<nat, BigAlloc>, dist: map<nat, nat>, va: nat, a: BigAlloc, d: nat)
    requires Represents(t, m, dist) && IsPage(va) && va !in m && a.pages > 0 && a.pool < 2
    requires d < SLOTS && !Occupied(t[Probe(va, d)]) && forall e :: 0 <= e < d ==> Occupied(t[Probe(va, e)])
    ensures Represents(t[Probe(va, d) := Slot(va, a)], m[va := a], dist[va := d])
  {
    var t', m', dist' := t[Probe(va, d) := Slot(va, a)], m[va := a], dist[va := d];
    forall w | w in m' ensures EntryOK(t', m', dist', w) {
      if w != va { assert EntryOK(t, m, dist, w); }
    }
    forall i | 0 <= i < SLOTS ensures SlotOK(t', m', dist', i) {
      assert SlotOK(t, m, dist, i);
    }
  }

  lemma RemoveRepresents(t: seq<Slot>, m: map<nat, BigAlloc>, dist: map<nat, nat>, va: nat)
    requires Represents(t, m, dist) && va in m
    ensures va in dist && Represents(t[Probe(va, dist[va]) := Slot(TOMBSTONE, NOTHING)], m - {va}, dist - {va})
  {
    assert EntryOK(t, m, dist, va);
    var t', m', dist' := t[Probe(va, dist[va]) := Slot(TOMBSTONE, NOTHING)], m - {va}, dist - {va};
    forall w | w in m' ensures EntryOK(t', m', dist', w) {
      assert EntryOK(t, m, dist, w);
    }
    forall i | 0 <= i < SLOTS ensures SlotOK(t', m', dist', i) {
      assert SlotOK(t, m, dist, i);
    }
  }

  lemma ProbeNext(va: nat, d: nat)
    requires d < SLOTS
    ensures (Probe(va, d) + 1) % SLOTS == Probe(va, d + 1)
    ensures Probe(va, d + 1) == Hash(va) <==> d + 1 == SLOTS
  {
  }

  /** A live address is met before any never-used slot, and within 1024 probes. */
  lemma MetInTime(t: seq<Slot>, m: map<nat, BigAlloc>, dist: map<nat, nat>, va: nat, d: nat)
    requires Represents(t, m, dist) && va in m && (d == SLOTS || t[Probe(va, d)].va == 0)
    ensures va in dist && dist[va] < d && t[Probe(va, dist[va])].va == va
  {
    assert EntryOK(t, m, dist, va);
  }

  class Table {
    const slots: array<Slot>
    var count: nat                       // UlpBigPageTableCount
    ghost var entries: map<nat, BigAlloc>
    ghost var dist: map<nat, nat>

    ghost predicate Valid()
      reads this, slots
    {
      slots.Length == SLOTS && Represents(slots[..], entries, dist) && count == |entries|
    }

    constructor ()
      ensures Valid() && entries == map[] && fresh(slots)
    {
      slots := new Slot[SLOTS](i => Slot(0, NOTHING));
      count := 0;
      entries := map[];
      dist := map[];
    }

    /** The insertion loop of UlAllocatePoolWithTag: the first slot that holds no live entry is taken;
        it fails exactly when all 1024 slots are live. */
    method Insert(va: nat, a: BigAlloc) returns (tracked: bool)
      requires Valid() && IsPage(va) && va !in entries && a.pages > 0 && a.pool < 2
      modifies this, slots
      ensures Valid()
      ensures entries == if tracked then old(entries)[va := a] else old(entries)
      ensures !tracked <==> forall i :: 0 <= i < SLOTS ==> Occupied(old(slots[..])[i])
    {
      var home := Hash(va);
      var i := home;
      ghost var d := 0;
      ghost var t, m, ds := slots[..], entries, dist;
      while true
        invariant 0 <= d < SLOTS && i == Probe(va, d)
        invariant slots[..] == t && entries == m && dist == ds && count == old(count)
        invariant forall e :: 0 <= e < d ==> Occupied(t[Probe(va, e)])
        decreases SLOTS - d
      {
        if slots[i].va == 0 || slots[i].va == TOMBSTONE {
          assert !Occupied(t[i]);
          InsertRepresents(t, m, ds, va, a, d);
          slots[i] := Slot(va, a);
          assert slots[..] == t[i := Slot(va, a)];
          entries, dist := m[va := a], ds[va := d];
          count := count + 1;
          return true;
        }
        ProbeNext(va, d);
        i := (i + 1) % SLOTS;
        d := d + 1;
        if i == home {
          FullTable(t, m, ds, va);
          assert forall j :: 0 <= j < SLOTS ==> slots[j] == t[j];
          return false;
        }
      }
    }

    /** Turn the live slot i into a tombstone. */
    method Bury(i: nat)
      requires Valid() && i < SLOTS && Occupied(slots[i])
      modifies this, slots
      ensures Valid() && entries == old(entries) - {old(slots[i].va)}
    {
      ghost var t, m, ds := slots[..], entries, dist;
      ghost var va := slots[i].va;
      assert t[i] == slots[i] && SlotOK(t, m, ds, i) && EntryOK(t, m, ds, va);
      RemoveRepresents(t, m, ds, va);
      slots[i] := Slot(TOMBSTONE, NOTHING);
      assert slots[..] == t[i := Slot(TOMBSTONE, NOTHING)];
      assert m == (m - {va})[va := m[va]];
      entries, dist := m - {va}, ds - {va};
      count := count - 1;
    }

    /** The lookup loop of UlFreePoolWithTag. The home slot is tested even when it is empty; every later
        empty slot ends the search. A live address is always found, a dead one never. */
    method Remove(va: nat, tag: nat) returns (r: Lookup)
      requires Valid() && IsPage(va)
      modifies this, slots
      ensures Valid()
      ensures r.Missing? <==> va !in old(entries)
      ensures r.WrongTag? <==> va in old(entries) && tag != 0 && old(entries)[va].tag != tag
      ensures r.WrongTag? ==> r.actual == old(entries)[va].tag
      ensures r.Removed? ==> r.alloc.pool < 2 && r.alloc == old(entries)[va] && entries == old(entries) - {va}
      ensures !r.Removed? ==> entries == old(entries)
    {
      var home := Hash(va);
      var i := home;
      ghost var d := 0;
      ghost var t, m, ds := slots[..], entries, dist;
      while true
        invariant 0 <= d < SLOTS && i == Probe(va, d)
        invariant slots[..] == t && entries == m && dist == ds && count == old(count)
        invariant forall e :: 0 <= e < d ==> t[Probe(va, e)].va != va
        decreases SLOTS - d
      {
        if slots[i].va == va {
          assert slots[i] == t[i] && SlotOK(t, m, ds, i) && EntryOK(t, m, ds, va);
          if tag != 0 && slots[i].alloc.tag != tag {
            return WrongTag(slots[i].alloc.tag);
          }
          r := Removed(slots[i].alloc);
          Bury(i);
          return;
        }
        ProbeNext(va, d);
        i := (i + 1) % SLOTS;
        d := d + 1;
        if i == home || slots[i].va == 0 {
          assert va !in m by {
            if va in m { MetInTime(t, m, ds, va, d); }
          }
          return Missing;
        }
      }
    }
  }
}
