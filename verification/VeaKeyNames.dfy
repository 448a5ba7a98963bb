/** What the comparison of names comes to, and with it every lookup and every walk, without the comparison itself
    (veakrnl/vk/vkmgr.c, sdk/lib/rtl/string.c). */
module VeaKeyNames {
  import opened VeaKeyStore
  import opened Wrappers

  lemma {:induction false} PlainWhole(s: string)
    ensures UpToNul(s) <= s && '\0' !in UpToNul(s) && ('\0' !in s <==> UpToNul(s) == s)
  {
    if s != [] && s[0] != '\0' {
      PlainWhole(s[1..]);
      assert s == [s[0]] + s[1..];
    }
  }

  /** With a name that holds no NUL, the comparison is equality. */
  lemma SamePlain(a: string, b: string)
    requires '\0' !in b
    ensures SameName(a, b) <==> a == b
    ensures SameName(b, a) <==> a == b
  {
    PlainWhole(a);
    PlainWhole(b);
    if SameName(a, b) { assert a[..|b|] == a; }
  }

  /** In general it compares lengths, and each position that no NUL comes before. */
  lemma {:induction false} SameNameIs(a: string, b: string)
    ensures SameName(a, b) <==> |a| == |b| && forall i :: 0 <= i < |a| && '\0' !in a[..i] ==> a[i] == b[i]
  {
    if |a| == |b| && a != [] {
      SameNameIs(a[1..], b[1..]);
      if a[0] == b[0] && a[0] != '\0' {
        SameTail(a, b);
        assert UpToNul(a)[1..] == UpToNul(a[1..]) && UpToNul(b)[1..] == UpToNul(b[1..]);
      } else {
        SameHead(a, b);
      }
    }
  }

  lemma SameTail(a: string, b: string)
    requires |a| == |b| && a != [] && a[0] == b[0] && a[0] != '\0'
    ensures (forall i :: 0 <= i < |a| && '\0' !in a[..i] ==> a[i] == b[i])
       <==> forall i :: 0 <= i < |a[1..]| && '\0' !in a[1..][..i] ==> a[1..][i] == b[1..][i]
  {
    var s, t := a[1..], b[1..];
    forall i | 0 <= i < |s| ensures ('\0' !in s[..i] ==> s[i] == t[i]) <==> ('\0' !in a[..i + 1] ==> a[i + 1] == b[i + 1]) {
      assert a[..i + 1] == [a[0]] + s[..i];
    }
    if forall i :: 0 <= i < |s| && '\0' !in s[..i] ==> s[i] == t[i] {
      forall i | 0 <= i < |a| && '\0' !in a[..i] ensures a[i] == b[i] {
        if i > 0 { assert '\0' !in s[..i - 1] && s[i - 1] == t[i - 1]; }
      }
    }
  }

  lemma SameHead(a: string, b: string)
    requires |a| == |b| && a != [] && (a[0] != b[0] || a[0] == '\0')
    ensures a[0] == b[0] <==> forall i :: 0 <= i < |a| && '\0' !in a[..i] ==> a[i] == b[i]
    ensures SameName(a, b) <==> a[0] == b[0]
  {
    assert a[..0] == [];
    forall i | 0 < i < |a| && a[0] == '\0' ensures '\0' in a[..i] { assert a[..i][0] == '\0'; }
    assert UpToNul(a) == [] || UpToNul(a)[0] == a[0];
    assert UpToNul(b) == [] || UpToNul(b)[0] == b[0];
  }

  // ---------------------------------------------------------------- sizes

  /** The bytes a cell takes: 30 and the name for a key, 26 and the name for a value node, 4 and the bytes for a payload; and
      what a write asks for. */
  lemma SizeIs(c: Cell, before: Option<Value>, name: string, size: nat, given: bool)
    ensures match c
      case Dir(n, _, _, _, _, _, _) => Size(c) == 30 + |n|
      case File(n, _, _, _, _, _) => Size(c) == 26 + |n|
      case Data(bytes) => Size(c) == 4 + |bytes|
      case Blank(n) => Size(c) == n
    ensures NewCells(before, name, size, given) ==
      if before.None? then (if given && size > 4 then [26 + |name|, 4 + size] else [26 + |name|])
      else if given && size > 4 && size > |before.value.bytes| then [4 + size] else []
  {
    if before.None? && given && size > 4 {
      assert NewCells(before, name, size, given) == [26 + |name|] + [4 + size];
    }
  }

  // ---------------------------------------------------------------- lookups

  /** A lookup in a chain finds a member with exactly that name, when there is one. */
  lemma FindInIs(c: map<nat, Cell>, l: seq<nat>, name: string)
    requires 0 !in l && '\0' !in name
    ensures FindIn(c, l, name) == 0 <==> forall x :: x in l ==> NameOf(c, x) != name
    ensures FindIn(c, l, name) != 0 ==> FindIn(c, l, name) in l && NameOf(c, FindIn(c, l, name)) == name
  {
    FindInMember(c, l, name);
    forall x | x in l ensures SameName(NameOf(c, x), name) <==> NameOf(c, x) == name { SamePlain(NameOf(c, x), name); }
  }

  /** The keys of a directory are those that name it as their parent. */
  lemma ChildIs(c: map<nat, Cell>, g: Shape, root: nat, d: nat, x: nat)
    requires StoreOK(c, g, root) && d in c && c[d].Dir?
    ensures d in g.subs && (x in g.subs[d] <==> x in c && c[x].Dir? && x != root && c[x].parent == d)
  {
    assert DirOK(c, g, d);
    ChainMembers(c, g, root, d);
    if x in c && c[x].Dir? { assert ChildOK(c, g, root, x); }
    if x in g.subs[d] {
      var i :| 0 <= i < |g.subs[d]| && g.subs[d][i] == x;
      assert SubAt(c, g, d, i);
    }
  }

  /** What a subkey lookup finds: the key with that parent and exactly that name. */
  lemma SubkeyIs(c: map<nat, Cell>, g: Shape, root: nat, d: nat, name: string)
    requires StoreOK(c, g, root) && d in c && c[d].Dir? && '\0' !in name
    ensures var o := SubOf(c, g, d, name);
      && (o == 0 <==> name == [] || forall x :: x in c && c[x].Dir? && x != root && c[x].parent == d ==> c[x].name != name)
      && (o != 0 ==> o in c && c[o].Dir? && o != root && c[o].parent == d && c[o].name == name)
  {
    assert DirOK(c, g, d);
    ChainMembers(c, g, root, d);
    FindInIs(c, g.subs[d], name);
    forall x ensures x in g.subs[d] <==> x in c && c[x].Dir? && x != root && c[x].parent == d { ChildIs(c, g, root, d, x); }
  }

  /** What a value lookup finds: the value node of that key with exactly that name. */
  lemma NodeIs(c: map<nat, Cell>, g: Shape, root: nat, d: nat, name: string)
    requires StoreOK(c, g, root) && d in c && c[d].Dir? && '\0' !in name
    ensures d in g.values && forall x :: x in g.values[d] ==> x in c && c[x].File?
    ensures var o := FindIn(c, g.values[d], name);
      && (o == 0 <==> forall x :: x in g.values[d] ==> c[x].name != name)
      && (o != 0 ==> o in g.values[d] && c[o].name == name)
  {
    assert DirOK(c, g, d);
    ChainMembers(c, g, root, d);
    FindInIs(c, g.values[d], name);
  }

  // ---------------------------------------------------------------- walks and paths

  /** A walk is one subkey lookup after the other. */
  lemma WalkIs(c: map<nat, Cell>, g: Shape, d: nat, names: seq<string>, name: string)
    ensures Walk(c, g, d, []) == d
    ensures Walk(c, g, d, names) != 0 ==> Walk(c, g, d, names + [name]) == SubOf(c, g, Walk(c, g, d, names), name)
    ensures Walk(c, g, d, names) == 0 ==> Walk(c, g, d, names + [name]) == 0 || d == 0
  {
    if Walk(c, g, d, names) != 0 {
      WalkAppend(c, g, d, names, name);
    } else if d != 0 {
      WalkZero(c, g, d, names, [name]);
    }
  }

  /** The key at the end of a walk has the names walked as the end of its path: walking is the inverse of climbing. */
  lemma {:induction false} WalkedNames(c: map<nat, Cell>, g: Shape, root: nat, d: nat, names: seq<string>)
    requires StoreOK(c, g, root) && d in c && c[d].Dir? && d != 0
    requires Walk(c, g, d, names) != 0 && forall k :: 0 <= k < |names| ==> '\0' !in names[k]
    ensures var x := Walk(c, g, d, names); x in c && c[x].Dir? && NamesTo(c, g, root, x) == NamesTo(c, g, root, d) + names
    decreases |names|
  {
    if names == [] {
      assert NamesTo(c, g, root, d) + [] == NamesTo(c, g, root, d);
    } else {
      var n := |names| - 1;
      var front, name := names[..n], names[n];
      assert names == front + [name];
      assert Walk(c, g, d, front) != 0 by {
        if Walk(c, g, d, front) == 0 { WalkZero(c, g, d, front, [name]); }
      }
      WalkedNames(c, g, root, d, front);
      var p := Walk(c, g, d, front);
      WalkAppend(c, g, d, front, name);
      SubkeyIs(c, g, root, p, name);
      assert NamesTo(c, g, root, d) + front + [name] == NamesTo(c, g, root, d) + names;
    }
  }

  /** A key whose name, parent and ancestors stay keeps its path. */
  lemma {:induction false} NamesKept(c: map<nat, Cell>, g: Shape, c': map<nat, Cell>, g': Shape, root: nat, x: nat)
    requires StoreOK(c, g, root) && StoreOK(c', g', root) && KeepsKeys(c, c') && x in c && c[x].Dir?
    ensures x in c' && c'[x].Dir? && NamesTo(c', g', root, x) == NamesTo(c, g, root, x)
    decreases Depth(g, x)
  {
    if x != root {
      assert ChildOK(c, g, root, x);
      NamesKept(c, g, c', g', root, c[x].parent);
    }
  }

  /** A printed path is the names one after the other, each behind a slash. */
  lemma {:induction false} PathTextIs(a: seq<string>, b: seq<string>, name: string)
    ensures PathText(a + b) == PathText(a) + PathText(b) && PathText([name]) == "/" + name
  {
    assert PathText([name]) == ['/'] + name + PathText([name][1..]);
    if a == [] {
      assert a + b == b;
    } else {
      assert (a + b)[0] == a[0] && (a + b)[1..] == a[1..] + b;
      PathTextIs(a[1..], b, name);
    }
  }

  /** The bytes kept in the offset field are those of the word in memory, lowest first. */
  lemma {:induction false} PackIs(b: seq<Byte>)
    requires |b| == 4
    ensures Pack(b) == b[0] as int + 0x100 * b[1] as int + 0x1_0000 * b[2] as int + 0x100_0000 * b[3] as int
  {
    assert Pack(b[4..]) == 0 && b[1..][1..] == b[2..] && b[2..][1..] == b[3..] && b[3..][1..] == b[4..];
    assert Pack(b[3..]) == b[3] && Pack(b[2..]) == b[2] + 256 * Pack(b[3..]) && Pack(b[1..]) == b[1] + 256 * Pack(b[2..]);
  }
}
