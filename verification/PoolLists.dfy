/** The segregated free lists of the pool (UlpInitList .. UlpInsertHead, veakrnl/mm/ulpool.c): circular
    doubly linked lists threaded through the free blocks, one sentinel per pool type and size class.
    The low bit that UlpEncode sets in every stored link carries no information and is not modelled. */
module PoolLists {
  import opened PoolHeap

  datatype HeadId = HeadId(pool: nat, size: nat)
  datatype Link = Sentinel(id: HeadId) | Entry(block: Unit)

  /** The i-th node of the ring of `id`: its sentinel at both ends, the entries in between. */
  function Node(id: HeadId, es: seq<Unit>, i: int): Link
  {
    if 0 < i <= |es| then Entry(es[i - 1]) else Sentinel(id)
  }

  ghost predicate LinkAt(f: map<Link, Link>, b: map<Link, Link>, id: HeadId, es: seq<Unit>, i: int)
  {
    var x, y := Node(id, es, i), Node(id, es, i + 1);
    x in f && f[x] == y && y in b && b[y] == x
  }

  /** The forward and backward links spell out exactly the entries `es`, in order. */
  ghost predicate Ring(f: map<Link, Link>, b: map<Link, Link>, id: HeadId, es: seq<Unit>)
  {
    forall i {:trigger LinkAt(f, b, id, es, i)} :: 0 <= i <= |es| ==> LinkAt(f, b, id, es, i)
  }

  /** The node n links further on. */
  function Onward(links: map<Link, Link>, x: Link, n: nat): Link {
    if n == 0 then x
    else var y := Onward(links, x, n - 1);
      if y in links then links[y] else y
  }

  /** From the sentinel, forward links lead through the entries in order and back to it, backward links through them in
      reverse. */
  lemma {:induction false} RingSpells(f: map<Link, Link>, b: map<Link, Link>, id: HeadId, es: seq<Unit>, n: nat)
    requires Ring(f, b, id, es) && n <= |es| + 1
    ensures Onward(f, Sentinel(id), n) == if 0 < n <= |es| then Entry(es[n - 1]) else Sentinel(id)
    ensures Onward(b, Sentinel(id), n) == if 0 < n <= |es| then Entry(es[|es| - n]) else Sentinel(id)
  {
    if n > 0 {
      RingSpells(f, b, id, es, n - 1);
      assert LinkAt(f, b, id, es, n - 1) && LinkAt(f, b, id, es, |es| + 1 - n);
    }
  }

  ghost predicate NoDuplicates(es: seq<Unit>)
  {
    forall i, j :: 0 <= i < |es| && 0 <= j < |es| && es[i] == es[j] ==> i == j
  }

  ghost predicate Apart(es: seq<Unit>, fs: seq<Unit>)
  {
    forall e :: e in es ==> e !in fs
  }

  /** A list of `order` is spelled out by the links, without repetition, and shares no entry with another. */
  ghost predicate ListOK(f: map<Link, Link>, b: map<Link, Link>, order: map<HeadId, seq<Unit>>, id: HeadId)
  {
    && id in order && Ring(f, b, id, order[id]) && NoDuplicates(order[id])
    && forall id2 :: id2 in order && id2 != id ==> Apart(order[id], order[id2])
  }

  ghost predicate ListsOK(f: map<Link, Link>, b: map<Link, Link>, order: map<HeadId, seq<Unit>>)
  {
    && (forall id :: id in order <==> id.pool < 2 && id.size < 512)
    && (forall id {:trigger ListOK(f, b, order, id)} :: id in order ==> ListOK(f, b, order, id))
  }

  // ---------------------------------------------------------------- link surgery on values

  /** Splicing a new entry between two consecutive nodes of a ring. */
  lemma Splice(f: map<Link, Link>, b: map<Link, Link>, id: HeadId, es: seq<Unit>, k: nat, e: Unit,
               f': map<Link, Link>, b': map<Link, Link>)
    requires Ring(f, b, id, es) && NoDuplicates(es) && e !in es && k <= |es|
    requires f' == f[Entry(e) := Node(id, es, k + 1)][Node(id, es, k) := Entry(e)]
    requires b' == b[Entry(e) := Node(id, es, k)][Node(id, es, k + 1) := Entry(e)]
    ensures Ring(f', b', id, es[..k] + [e] + es[k..])
  {
    var es' := es[..k] + [e] + es[k..];
    forall i | 0 <= i <= |es'| ensures LinkAt(f', b', id, es', i) {
      if i < k {
        assert LinkAt(f, b, id, es, i);
      } else if i > k + 1 {
        assert LinkAt(f, b, id, es, i - 1);
      }
    }
  }

  /** Unlinking the k-th entry joins its two neighbours. */
  lemma Unsplice(f: map<Link, Link>, b: map<Link, Link>, id: HeadId, es: seq<Unit>, k: nat,
                 f': map<Link, Link>, b': map<Link, Link>)
    requires Ring(f, b, id, es) && NoDuplicates(es) && k < |es|
    requires f' == f[Node(id, es, k) := Node(id, es, k + 2)]
    requires b' == b[Node(id, es, k + 2) := Node(id, es, k)]
    ensures Ring(f', b', id, es[..k] + es[k + 1..])
  {
    var es' := es[..k] + es[k + 1..];
    forall i | 0 <= i <= |es'| ensures LinkAt(f', b', id, es', i) {
      if i < k {
        assert LinkAt(f, b, id, es, i);
      } else if i > k {
        assert LinkAt(f, b, id, es, i + 1);
      }
    }
  }

  /** Relinking the ring of `id` and the entries `es` leaves every other ring alone. */
  lemma Elsewhere(f: map<Link, Link>, b: map<Link, Link>, f': map<Link, Link>, b': map<Link, Link>,
                  id: HeadId, es: seq<Unit>, other: HeadId, fs: seq<Unit>)
    requires Ring(f, b, other, fs) && other != id && Apart(fs, es)
    requires forall x: Link :: x == Sentinel(id) || (x.Entry? && x.block in es) ||
                               ((x in f ==> x in f' && f'[x] == f[x]) && (x in b ==> x in b' && b'[x] == b[x]))
    ensures Ring(f', b', other, fs)
  {
    forall i | 0 <= i <= |fs| ensures LinkAt(f', b', other, fs, i) {
      assert LinkAt(f, b, other, fs, i);
      assert i > 0 ==> fs[i - 1] in fs;
      assert i < |fs| ==> fs[i] in fs;
    }
  }

  lemma Shrink(es: seq<Unit>, k: nat)
    requires NoDuplicates(es) && k < |es|
    ensures NoDuplicates(es[..k] + es[k + 1..])
    ensures forall e :: e in es[..k] + es[k + 1..] <==> e in es && e != es[k]
  {
    var rest := es[..k] + es[k + 1..];
    forall e | e in es && e != es[k] ensures e in rest {
      var i :| 0 <= i < |es| && es[i] == e;
      assert rest[if i < k then i else i - 1] == e;
    }
  }

  /** Replacing the entries of one list, after relinking only its ring, keeps all lists in order. */
  lemma ReplaceList(f: map<Link, Link>, b: map<Link, Link>, f': map<Link, Link>, b': map<Link, Link>,
                    order: map<HeadId, seq<Unit>>, id: HeadId, touched: seq<Unit>, es': seq<Unit>)
    requires ListsOK(f, b, order) && id in order && Ring(f', b', id, es') && NoDuplicates(es')
    requires forall e :: e in es' || e in order[id] ==> e in touched
    requires forall j :: j in order && j != id ==> Apart(order[j], touched)
    requires forall x: Link :: x == Sentinel(id) || (x.Entry? && x.block in touched) ||
                               ((x in f ==> x in f' && f'[x] == f[x]) && (x in b ==> x in b' && b'[x] == b[x]))
    ensures ListsOK(f', b', order[id := es'])
  {
    var order' := order[id := es'];
    forall j | j in order' ensures ListOK(f', b', order', j) {
      assert ListOK(f, b, order, j);
      if j != id {
        Elsewhere(f, b, f', b', id, touched, j, order[j]);
      }
    }
  }

  class FreeLists {
    var flink: map<Link, Link>
    var blink: map<Link, Link>
    ghost var order: map<HeadId, seq<Unit>>

    ghost predicate Valid()
      reads this
    {
      ListsOK(flink, blink, order)
    }

    /** UlInitializePoolDescriptor: every sentinel points at itself. */
    constructor ()
      ensures Valid() && forall id :: id in order ==> order[id] == []
    {
      var links := map t, k | 0 <= t < 2 && 0 <= k < 512 :: Sentinel(HeadId(t, k)) := Sentinel(HeadId(t, k));
      flink, blink := links, links;
      order := map t, k | 0 <= t < 2 && 0 <= k < 512 :: HeadId(t, k) := [];
      new;
      forall id | id in order ensures ListOK(flink, blink, order, id) {
        assert Sentinel(HeadId(id.pool, id.size)) in flink;
      }
    }

    method IsEmpty(id: HeadId) returns (r: bool)
      requires Valid() && id in order
      ensures r <==> order[id] == []
    {
      assert ListOK(flink, blink, order, id) && LinkAt(flink, blink, id, order[id], 0);
      r := flink[Sentinel(id)] == Sentinel(id);
    }

    method InsertTail(id: HeadId, e: Unit)
      requires Valid() && id in order && forall j :: j in order ==> e !in order[j]
      modifies this
      ensures Valid() && order == old(order)[id := old(order[id]) + [e]]
    {
      ghost var f, b, os, es := flink, blink, order, order[id];
      assert ListOK(f, b, os, id) && LinkAt(f, b, id, es, |es|);
      var last := blink[Sentinel(id)];
      flink := flink[Entry(e) := Sentinel(id)];
      blink := blink[Entry(e) := last];
      flink := flink[last := Entry(e)];
      blink := blink[Sentinel(id) := Entry(e)];
      Splice(f, b, id, es, |es|, e, flink, blink);
      assert es[..|es|] + [e] + es[|es|..] == es + [e];
      ReplaceList(f, b, flink, blink, os, id, es + [e], es + [e]);
      order := os[id := es + [e]];
    }

    method InsertHead(id: HeadId, e: Unit)
      requires Valid() && id in order && forall j :: j in order ==> e !in order[j]
      modifies this
      ensures Valid() && order == old(order)[id := [e] + old(order[id])]
    {
      ghost var f, b, os, es := flink, blink, order, order[id];
      assert ListOK(f, b, os, id) && LinkAt(f, b, id, es, 0);
      var first := flink[Sentinel(id)];
      flink := flink[Entry(e) := first];
      blink := blink[Entry(e) := Sentinel(id)];
      blink := blink[first := Entry(e)];
      flink := flink[Sentinel(id) := Entry(e)];
      Splice(f, b, id, es, 0, e, flink, blink);
      assert es[..0] + [e] + es[0..] == [e] + es;
      ReplaceList(f, b, flink, blink, os, id, [e] + es, [e] + es);
      order := os[id := [e] + es];
    }

    method RemoveHead(id: HeadId) returns (e: Unit)
      requires Valid() && id in order && order[id] != []
      modifies this
      ensures Valid() && e == old(order[id])[0] && order == old(order)[id := old(order[id])[1..]]
    {
      ghost var f, b, os, es := flink, blink, order, order[id];
      assert ListOK(f, b, os, id) && LinkAt(f, b, id, es, 0) && LinkAt(f, b, id, es, 1);
      var entry := flink[Sentinel(id)];
      var next := flink[entry];
      flink := flink[Sentinel(id) := next];
      blink := blink[next := Sentinel(id)];
      e := entry.block;
      Unsplice(f, b, id, es, 0, flink, blink);
      Shrink(es, 0);
      assert es[..0] + es[1..] == es[1..];
      ReplaceList(f, b, flink, blink, os, id, es, es[1..]);
      order := os[id := es[1..]];
    }

    /** Unlink an entry from whatever list it is on; the code does not know which. */
    method RemoveEntry(e: Unit, ghost id: HeadId, ghost k: nat)
      requires Valid() && id in order && k < |order[id]| && order[id][k] == e
      modifies this
      ensures Valid() && order == old(order)[id := old(order[id])[..k] + old(order[id])[k + 1..]]
    {
      ghost var f, b, os, es := flink, blink, order, order[id];
      assert ListOK(f, b, os, id) && LinkAt(f, b, id, es, k) && LinkAt(f, b, id, es, k + 1);
      var next := flink[Entry(e)];
      var prev := blink[Entry(e)];
      blink := blink[next := prev];
      flink := flink[prev := next];
      assert prev == Node(id, es, k) && next == Node(id, es, k + 2);
      Unsplice(f, b, id, es, k, flink, blink);
      Shrink(es, k);
      ReplaceList(f, b, flink, blink, os, id, es, es[..k] + es[k + 1..]);
      order := os[id := es[..k] + es[k + 1..]];
    }
  }
}
