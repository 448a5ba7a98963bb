/** The height-balanced tree of virtual ranges (sdk/lib/rtl/avltree.c with the comparison of veakrnl/mm/virt.c):
    rotations on the way up, as values. */
module AvlTree {
  /** A range of virtual pages, both ends included. */
  datatype Range = Range(first: nat, last: nat)

  datatype Tree = Leaf | Node(left: Tree, item: Range, right: Tree, height: nat)

  function Height(t: Tree): nat { if t.Leaf? then 0 else t.height }

  function Max(a: nat, b: nat): nat { if a > b then a else b }

  function Make(l: Tree, x: Range, r: Tree): Tree { Node(l, x, r, 1 + Max(Height(l), Height(r))) }

  /** The ranges in order. */
  function Items(t: Tree): seq<Range> { if t.Leaf? then [] else Items(t.left) + [t.item] + Items(t.right) }

  /** Heights are right, and no two siblings' heights differ by more than one. */
  predicate Balanced(t: Tree) {
    t.Node? ==>
      && Balanced(t.left) && Balanced(t.right) && t.height == 1 + Max(Height(t.left), Height(t.right))
      && Height(t.left) <= Height(t.right) + 1 && Height(t.right) <= Height(t.left) + 1
  }

  predicate Ascending(s: seq<Range>) { forall i, j :: 0 <= i < j < |s| ==> s[i].first < s[j].first }

  /** The longest way down. */
  function Depth(t: Tree): nat {
    if t.Leaf? then 0 else if Depth(t.left) < Depth(t.right) then 1 + Depth(t.right) else 1 + Depth(t.left)
  }

  function Fibonacci(n: nat): nat { if n < 2 then n else Fibonacci(n - 2) + Fibonacci(n - 1) }

  /** What the balance is for: a tree as deep as h holds at least as many ranges as the Fibonacci number of h + 2, less one;
      so the way down grows with the logarithm of the number of ranges. */
  lemma {:induction false} DepthBound(t: Tree)
    requires Balanced(t)
    ensures Height(t) == Depth(t) && Fibonacci(Depth(t) + 2) <= |Items(t)| + 1
  {
    HeightIsDepth(t);
    CountBound(t);
  }

  lemma {:induction false} HeightIsDepth(t: Tree)
    requires Balanced(t)
    ensures Height(t) == Depth(t)
  {
    if t.Node? {
      HeightIsDepth(t.left);
      HeightIsDepth(t.right);
    }
  }

  lemma {:induction false} CountBound(t: Tree)
    requires Balanced(t)
    ensures Fibonacci(Height(t) + 2) <= |Items(t)| + 1
  {
    if t.Leaf? {
      assert Fibonacci(2) == 1;
    } else {
      CountBound(t.left);
      CountBound(t.right);
      FibonacciSum(Height(t.left), Height(t.right), t.height);
    }
  }

  lemma FibonacciSum(a: nat, b: nat, h: nat)
    requires h == 1 + Max(a, b) && a <= b + 1 && b <= a + 1
    ensures Fibonacci(h + 2) <= Fibonacci(a + 2) + Fibonacci(b + 2)
  {
    assert Fibonacci(h + 2) == Fibonacci(h) + Fibonacci(h + 1) && Fibonacci(h + 1) == Fibonacci(h - 1) + Fibonacci(h);
  }

  // ---------------------------------------------------------------- rotations

  function RotateRight(t: Tree): Tree
    requires t.Node? && t.left.Node?
  {
    Make(t.left.left, t.left.item, Make(t.left.right, t.item, t.right))
  }

  function RotateLeft(t: Tree): Tree
    requires t.Node? && t.right.Node?
  {
    Make(Make(t.left, t.item, t.right.left), t.right.item, t.right.right)
  }

  /** What the loop does at one node on its way up. */
  function Rebalance(l: Tree, x: Range, r: Tree): Tree
    requires Balanced(l) && Balanced(r)
  {
    if Height(l) > Height(r) + 1 then
      var l' := if Height(l.right) > Height(l.left) then RotateLeft(l) else l;
      RotateRight(Node(l', x, r, 0))
    else if Height(r) > Height(l) + 1 then
      var r' := if Height(r.left) > Height(r.right) then RotateRight(r) else r;
      RotateLeft(Node(l, x, r', 0))
    else Make(l, x, r)
  }

  lemma RebalanceItems(l: Tree, x: Range, r: Tree)
    requires Balanced(l) && Balanced(r)
    ensures Items(Rebalance(l, x, r)) == Items(l) + [x] + Items(r)
  {
    if Height(l) > Height(r) + 1 {
      RotateRightItems(l, x, r);
      if Height(l.right) > Height(l.left) {
        RotateLeftItems(l.left, l.item, l.right);
        RotateRightItems(RotateLeft(l), x, r);
      }
    } else if Height(r) > Height(l) + 1 {
      RotateLeftItems(l, x, r);
      if Height(r.left) > Height(r.right) {
        RotateRightItems(r.left, r.item, r.right);
        RotateLeftItems(l, x, RotateRight(r));
      }
    }
  }

  lemma RotateRightItems(l: Tree, x: Range, r: Tree)
    requires l.Node?
    ensures forall h :: Items(RotateRight(Node(l, x, r, h))) == Items(l) + [x] + Items(r)
  {
    assert Items(l.left) + [l.item] + (Items(l.right) + [x] + Items(r)) == Items(l) + [x] + Items(r);
  }

  lemma RotateLeftItems(l: Tree, x: Range, r: Tree)
    requires r.Node?
    ensures forall h :: Items(RotateLeft(Node(l, x, r, h))) == Items(l) + [x] + Items(r)
  {
    assert (Items(l) + [x] + Items(r.left)) + [r.item] + Items(r.right) == Items(l) + [x] + Items(r);
  }

  lemma RebalanceLeft(l: Tree, x: Range, r: Tree)
    requires Balanced(l) && Balanced(r) && Height(l) == Height(r) + 2
    ensures Balanced(Rebalance(l, x, r)) && Height(l) <= Height(Rebalance(l, x, r)) <= Height(l) + 1
  {
  }

  lemma RebalanceRight(l: Tree, x: Range, r: Tree)
    requires Balanced(l) && Balanced(r) && Height(r) == Height(l) + 2
    ensures Balanced(Rebalance(l, x, r)) && Height(r) <= Height(Rebalance(l, x, r)) <= Height(r) + 1
  {
  }

  /** One step at a node whose subtrees differ by at most two restores the balance and keeps the order. */
  lemma RebalanceOK(l: Tree, x: Range, r: Tree)
    requires Balanced(l) && Balanced(r) && Height(l) <= Height(r) + 2 && Height(r) <= Height(l) + 2
    ensures var t := Rebalance(l, x, r);
      && Balanced(t) && Items(t) == Items(l) + [x] + Items(r)
      && Max(Height(l), Height(r)) <= Height(t) <= Max(Height(l), Height(r)) + 1
      && (Height(l) <= Height(r) + 1 && Height(r) <= Height(l) + 1 ==> Height(t) == Max(Height(l), Height(r)) + 1)
  {
    RebalanceItems(l, x, r);
    if Height(l) > Height(r) + 1 {
      RebalanceLeft(l, x, r);
    } else if Height(r) > Height(l) + 1 {
      RebalanceRight(l, x, r);
    }
  }

  // ---------------------------------------------------------------- insertion and removal

  /** RtlInsertElementAvl: down by the comparison, equal keys to the right, and up again rebalancing. */
  function Insert(t: Tree, x: Range): Tree
    requires Balanced(t)
    ensures Balanced(Insert(t, x)) && Height(t) <= Height(Insert(t, x)) <= Height(t) + 1
  {
    if t.Leaf? then Node(Leaf, x, Leaf, 1)
    else if x.first < t.item.first then
      RebalanceOK(Insert(t.left, x), t.item, t.right);
      Rebalance(Insert(t.left, x), t.item, t.right)
    else
      RebalanceOK(t.left, t.item, Insert(t.right, x));
      Rebalance(t.left, t.item, Insert(t.right, x))
  }

  /** The place a new range takes in the order. */
  function Place(s: seq<Range>, x: Range): (k: nat)
    ensures k <= |s| && (forall i :: 0 <= i < k ==> s[i].first <= x.first) && (k < |s| ==> x.first < s[k].first)
  {
    if s == [] || x.first < s[0].first then 0 else
    assert s[0].first <= x.first;
    var k := Place(s[1..], x);
    assert forall i :: 0 < i < k + 1 ==> s[i] == s[1..][i - 1];
    k + 1
  }

  lemma {:induction false} InsertItems(t: Tree, x: Range)
    requires Balanced(t) && Ascending(Items(t))
    ensures Items(Insert(t, x)) == Put(Items(t), x)
  {
    if t.Node? {
      var a, b := Items(t.left), Items(t.right);
      AscendingParts(a, t.item, b);
      if x.first < t.item.first {
        InsertItems(t.left, x);
        RebalanceOK(Insert(t.left, x), t.item, t.right);
        PlaceLeft(a, t.item, b, x);
      } else {
        InsertItems(t.right, x);
        RebalanceOK(t.left, t.item, Insert(t.right, x));
        PlaceRight(a, t.item, b, x);
      }
    }
  }

  /** Putting a new range in its place. */
  function Put(s: seq<Range>, x: Range): seq<Range> { s[..Place(s, x)] + [x] + s[Place(s, x)..] }

  lemma SplitBefore(a: seq<Range>, b: seq<Range>, k: nat)
    requires k <= |a|
    ensures (a + b)[..k] == a[..k] && (a + b)[k..] == a[k..] + b
  {
  }

  lemma SplitBehind(a: seq<Range>, b: seq<Range>, k: nat)
    requires k <= |b|
    ensures (a + b)[..|a| + k] == a + b[..k] && (a + b)[|a| + k..] == b[k..]
  {
  }

  lemma Regroup(c: seq<Range>, p: seq<Range>, x: Range, r: seq<Range>)
    ensures (c + p) + [x] + r == c + (p + [x] + r)
    ensures p == [] ==> c + [x] + r == c + ([x] + r)
  {
  }

  lemma RegroupBehind(p: seq<Range>, x: Range, q: seq<Range>, y: Range, b: seq<Range>)
    ensures p + [x] + (q + ([y] + b)) == (p + [x] + q) + [y] + b
  {
  }

  lemma PutAt(s: seq<Range>, x: Range, i: nat)
    requires i <= |s|
    ensures var k := Place(s, x); Put(s, x)[i] == (if i < k then s[i] else if i == k then x else s[i - 1])
  {
  }

  lemma PlaceLeft(a: seq<Range>, y: Range, b: seq<Range>, x: Range)
    requires Ascending(a + [y] + b) && x.first < y.first
    ensures Put(a + [y] + b, x) == Put(a, x) + [y] + b
  {
    var k := Place(a, x);
    PlaceWithin(a, [y] + b, x);
    Regroup(a, [], y, b);
    SplitBefore(a, [y] + b, k);
    RegroupBehind(a[..k], x, a[k..], y, b);
  }

  lemma {:induction false} PlaceWithin(a: seq<Range>, b: seq<Range>, x: Range)
    requires b != [] && x.first < b[0].first
    ensures Place(a + b, x) == Place(a, x)
  {
    if a == [] {
      assert a + b == b;
    } else {
      assert (a + b)[0] == a[0] && (a + b)[1..] == a[1..] + b;
      PlaceWithin(a[1..], b, x);
    }
  }

  lemma {:induction false} PlaceBehind(a: seq<Range>, b: seq<Range>, x: Range)
    requires forall i :: 0 <= i < |a| ==> a[i].first <= x.first
    ensures Place(a + b, x) == |a| + Place(b, x)
  {
    if a == [] {
      assert a + b == b;
    } else {
      assert (a + b)[0] == a[0] && (a + b)[1..] == a[1..] + b;
      PlaceBehind(a[1..], b, x);
    }
  }

  lemma PlaceRight(a: seq<Range>, y: Range, b: seq<Range>, x: Range)
    requires Ascending(a + [y] + b) && x.first >= y.first
    ensures Put(a + [y] + b, x) == a + [y] + Put(b, x)
  {
    AscendingParts(a, y, b);
    var c, k := a + [y], Place(b, x);
    PlaceBehind(c, b, x);
    SplitBehind(c, b, k);
    Regroup(c, b[..k], x, b[k..]);
  }

  lemma AscendingParts(a: seq<Range>, x: Range, b: seq<Range>)
    requires Ascending(a + [x] + b)
    ensures Ascending(a) && Ascending(b)
    ensures (forall i :: 0 <= i < |a| ==> a[i].first < x.first) && (forall i :: 0 <= i < |b| ==> x.first < b[i].first)
  {
    var s := a + [x] + b;
    assert forall i :: 0 <= i < |a| ==> s[i] == a[i];
    assert s[|a|] == x;
    assert forall i :: 0 <= i < |b| ==> s[|a| + 1 + i] == b[i];
  }

  function First(t: Tree): Range
    requires t.Node?
  {
    if t.left.Leaf? then t.item else First(t.left)
  }

  function RemoveFirst(t: Tree): (r: Tree)
    requires t.Node? && Balanced(t)
    ensures Balanced(r) && Height(t) - 1 <= Height(r) <= Height(t) && [First(t)] + Items(r) == Items(t)
  {
    if t.left.Leaf? then t.right else
    RebalanceOK(RemoveFirst(t.left), t.item, t.right);
    Rebalance(RemoveFirst(t.left), t.item, t.right)
  }

  /** RtlDeleteElementAvl: the node goes, its successor takes its place if both children exist, and every node from there
      up is rebalanced. */
  function Remove(t: Tree, first: nat): (r: Tree)
    requires Balanced(t)
    ensures Balanced(r) && Height(t) - 1 <= Height(r) <= Height(t)
  {
    if t.Leaf? then Leaf
    else if first < t.item.first then
      RebalanceOK(Remove(t.left, first), t.item, t.right);
      Rebalance(Remove(t.left, first), t.item, t.right)
    else if first > t.item.first then
      RebalanceOK(t.left, t.item, Remove(t.right, first));
      Rebalance(t.left, t.item, Remove(t.right, first))
    else if t.left.Leaf? then t.right
    else if t.right.Leaf? then t.left
    else
      RebalanceOK(t.left, First(t.right), RemoveFirst(t.right));
      Rebalance(t.left, First(t.right), RemoveFirst(t.right))
  }

  /** A sequence without its k-th range. */
  function Without(s: seq<Range>, k: nat): seq<Range>
    requires k < |s|
  {
    s[..k] + s[k + 1..]
  }

  lemma {:induction false} RemoveItems(t: Tree, k: nat, first: nat)
    requires Balanced(t) && Ascending(Items(t)) && k < |Items(t)| && first == Items(t)[k].first
    ensures Items(Remove(t, first)) == Without(Items(t), k)
    decreases t, 1
  {
    var n := |Items(t.left)|;
    if k < n {
      RemoveLeftItems(t, k, first);
    } else if k == n {
      AscendingParts(Items(t.left), t.item, Items(t.right));
      RemoveNode(t, first);
      CutMiddle(Items(t.left), t.item, Items(t.right));
    } else {
      RemoveRightItems(t, k - n - 1, first);
    }
  }

  lemma {:induction false} RemoveLeftItems(t: Tree, k: nat, first: nat)
    requires t.Node? && Balanced(t) && Ascending(Items(t)) && k < |Items(t.left)| && first == Items(t.left)[k].first
    ensures Items(Remove(t, first)) == Without(Items(t), k)
    decreases t, 0
  {
    assert Ascending(Items(t.left)) && first < t.item.first by { AscendingParts(Items(t.left), t.item, Items(t.right)); }
    assert Items(Remove(t, first)) == Without(Items(t.left), k) + [t.item] + Items(t.right) by {
      RemoveNode(t, first);
      RemoveItems(t.left, k, first);
    }
    CutLeft(Items(t.left), t.item, Items(t.right), k);
  }

  lemma {:induction false} RemoveRightItems(t: Tree, j: nat, first: nat)
    requires t.Node? && Balanced(t) && Ascending(Items(t)) && j < |Items(t.right)| && first == Items(t.right)[j].first
    ensures Items(Remove(t, first)) == Without(Items(t), |Items(t.left)| + 1 + j)
    decreases t, 0
  {
    assert Ascending(Items(t.right)) && t.item.first < first by { AscendingParts(Items(t.left), t.item, Items(t.right)); }
    assert Items(Remove(t, first)) == Items(t.left) + [t.item] + Without(Items(t.right), j) by {
      RemoveNode(t, first);
      RemoveItems(t.right, j, first);
    }
    CutRight(Items(t.left), t.item, Items(t.right), j);
  }

  /** What removing does at one node. */
  lemma RemoveNode(t: Tree, first: nat)
    requires Balanced(t) && t.Node?
    ensures first < t.item.first ==> Items(Remove(t, first)) == Items(Remove(t.left, first)) + [t.item] + Items(t.right)
    ensures first > t.item.first ==> Items(Remove(t, first)) == Items(t.left) + [t.item] + Items(Remove(t.right, first))
    ensures first == t.item.first ==> Items(Remove(t, first)) == Items(t.left) + Items(t.right)
  {
    if first < t.item.first {
      RebalanceItems(Remove(t.left, first), t.item, t.right);
    } else if first > t.item.first {
      RebalanceItems(t.left, t.item, Remove(t.right, first));
    } else if t.left.Node? && t.right.Node? {
      RebalanceItems(t.left, First(t.right), RemoveFirst(t.right));
      assert Items(t.left) + [First(t.right)] + Items(RemoveFirst(t.right))
          == Items(t.left) + ([First(t.right)] + Items(RemoveFirst(t.right)));
    }
  }

  lemma CutMiddle(a: seq<Range>, y: Range, b: seq<Range>)
    ensures Without(a + [y] + b, |a|) == a + b
  {
  }

  lemma CutLeft(a: seq<Range>, y: Range, b: seq<Range>, k: nat)
    requires k < |a|
    ensures Without(a + [y] + b, k) == Without(a, k) + [y] + b
  {
  }

  lemma CutRight(a: seq<Range>, y: Range, b: seq<Range>, j: nat)
    requires j < |b|
    ensures Without(a + [y] + b, |a| + 1 + j) == a + [y] + Without(b, j)
  {
  }
}
