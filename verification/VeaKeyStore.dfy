/** The cells of a VeaKey hive and the chains threaded through them by offset (veakrnl/vk/vkmgr.c,
    veakrnl/vk/vkobject.c, veakrnl/vk/vkapi.c), as values. */
module VeaKeyStore {
  import opened Wrappers

  type Byte = x: int | 0 <= x < 256

  const DIR_HEADER := 30         // sizeof(KEY_DIRECTORY_NODE)
  const FILE_HEADER := 26        // sizeof(KEY_FILE_NODE)
  const SIZE_FIELD := 4          // sizeof(LONG), in front of every payload

  datatype Cell =
    | Dir(name: string, parent: nat, firstSub: nat, nextSibling: nat, firstValue: nat, count: nat, isVolatile: bool)
    | File(name: string, next: nat, word: nat, length: nat, kind: nat, inlined: bool)
    | Data(bytes: seq<Byte>)
    | Blank(size: nat)

  function Size(c: Cell): nat {
    match c
    case Dir(name, _, _, _, _, _, _) => DIR_HEADER + |name|
    case File(name, _, _, _, _, _) => FILE_HEADER + |name|
    case Data(bytes) => SIZE_FIELD + |bytes|
    case Blank(size) => size
  }

  /** What the offsets in the cells mean: the chains of each directory, the user of each file and payload cell. */
  datatype Shape = Shape(values: map<nat, seq<nat>>, subs: map<nat, seq<nat>>, home: map<nat, nat>, depth: map<nat, nat>)

  // ---------------------------------------------------------------- names

  function UpToNul(s: string): string {
    if s == [] || s[0] == '\0' then [] else [s[0]] + UpToNul(s[1..])
  }

  /** Equal for the comparison the hive uses: same length, same characters up to a NUL. */
  predicate SameName(a: string, b: string) {
    |a| == |b| && UpToNul(a) == UpToNul(b)
  }

  // ---------------------------------------------------------------- payloads

  /** Up to four bytes kept in the offset field itself, little endian. */
  function Pack(b: seq<Byte>): nat {
    if b == [] then 0 else b[0] + 256 * Pack(b[1..])
  }

  function Unpack(w: nat, n: nat): seq<Byte> {
    if n == 0 then [] else [w % 256] + Unpack(w / 256, n - 1)
  }

  lemma {:induction false} UnpackPack(b: seq<Byte>)
    ensures Unpack(Pack(b), |b|) == b
  {
    if b != [] {
      assert Pack(b) % 256 == b[0] && Pack(b) / 256 == Pack(b[1..]);
      UnpackPack(b[1..]);
    }
  }

  lemma {:induction false} UnpackLength(w: nat, n: nat)
    ensures |Unpack(w, n)| == n
  {
    if n > 0 { UnpackLength(w / 256, n - 1); }
  }

  function Zeros(n: nat): seq<Byte> { seq(n, _ => 0) }

  lemma {:induction false} UnpackZero(n: nat)
    ensures Unpack(0, n) == Zeros(n)
  {
    if n > 0 {
      UnpackZero(n - 1);
      assert Zeros(n) == [0] + Zeros(n - 1);
    }
  }

  /** The bytes of a value: in the node up to four, else the front of its payload cell. */
  function Contents(c: map<nat, Cell>, f: nat): seq<Byte>
    requires f in c && c[f].File?
  {
    var n := c[f].length;
    if n <= 4 then Unpack(c[f].word, n)
    else if c[f].word in c && c[c[f].word].Data? && n <= |c[c[f].word].bytes| then c[c[f].word].bytes[..n]
    else []
  }

  // ---------------------------------------------------------------- well-formed stores

  function NameOf(c: map<nat, Cell>, x: nat): string {
    if x in c && (c[x].File? || c[x].Dir?) then c[x].name else []
  }

  ghost predicate Distinct(l: seq<nat>) {
    forall i, j :: 0 <= i < j < |l| ==> l[i] != l[j]
  }

  /** Names repeat only when they are empty (a lookup never matches an empty name). */
  ghost predicate UniqueNames(c: map<nat, Cell>, l: seq<nat>) {
    forall i, j :: 0 <= i < j < |l| ==> NameOf(c, l[i]) == [] || !SameName(NameOf(c, l[i]), NameOf(c, l[j]))
  }

  ghost predicate ValueAt(c: map<nat, Cell>, g: Shape, d: nat, i: nat) {
    && d in g.values && i < |g.values[d]|
    && var l := g.values[d]; var x := l[i];
       x != 0 && x in c && c[x].File? && x in g.home && g.home[x] == d && c[x].next == (if i + 1 < |l| then l[i + 1] else 0)
  }

  ghost predicate SubAt(c: map<nat, Cell>, g: Shape, d: nat, i: nat) {
    && d in g.subs && i < |g.subs[d]| && d in g.depth
    && var l := g.subs[d]; var x := l[i];
       && x != 0 && x in c && c[x].Dir? && c[x].parent == d && c[x].name != []
       && x in g.depth && g.depth[x] == g.depth[d] + 1
       && c[x].nextSibling == (if i + 1 < |l| then l[i + 1] else 0)
  }

  /** A directory's two chains are what its links spell out; its counter is the number of subkeys. */
  ghost predicate DirOK(c: map<nat, Cell>, g: Shape, d: nat) {
    && d in c && c[d].Dir? && d != 0 && d in g.values && d in g.subs && d in g.depth
    && var v, s := g.values[d], g.subs[d];
       && Distinct(v) && c[d].firstValue == (if v == [] then 0 else v[0]) && UniqueNames(c, v)
       && Distinct(s) && c[d].firstSub == (if s == [] then 0 else s[0]) && UniqueNames(c, s) && c[d].count == |s|
       && (forall i {:trigger ValueAt(c, g, d, i)} :: 0 <= i < |v| ==> ValueAt(c, g, d, i))
       && (forall i {:trigger SubAt(c, g, d, i)} :: 0 <= i < |s| ==> SubAt(c, g, d, i))
  }

  /** A long value owns a payload cell with room for it. */
  ghost predicate FileOK(c: map<nat, Cell>, g: Shape, f: nat) {
    && f in c && c[f].File?
    && (c[f].inlined ==> c[f].length <= 4)
    && (c[f].length > 4 ==>
          && c[f].word in c && c[c[f].word].Data? && c[f].length <= |c[c[f].word].bytes|
          && c[f].word in g.home && g.home[c[f].word] == f)
  }

  /** Every directory but the root is in its parent's chain. */
  ghost predicate ChildOK(c: map<nat, Cell>, g: Shape, root: nat, x: nat) {
    && x in c && c[x].Dir? && x in g.depth
    && (x == root ==> g.depth[x] == 0)
    && (x != root ==>
          && c[x].parent in c && c[c[x].parent].Dir? && c[x].parent in g.subs && x in g.subs[c[x].parent]
          && c[x].parent in g.depth && g.depth[x] == g.depth[c[x].parent] + 1)
  }

  ghost predicate StoreOK(c: map<nat, Cell>, g: Shape, root: nat) {
    && root in c && c[root].Dir?
    && (forall d :: d in g.values || d in g.subs || d in g.depth ==> d in c && c[d].Dir?)
    && (forall d {:trigger DirOK(c, g, d)} :: d in c && c[d].Dir? ==> DirOK(c, g, d))
    && (forall f {:trigger FileOK(c, g, f)} :: f in c && c[f].File? ==> FileOK(c, g, f))
    && (forall x {:trigger ChildOK(c, g, root, x)} :: x in c && c[x].Dir? ==> ChildOK(c, g, root, x))
  }

  // ---------------------------------------------------------------- lookups

  /** The first member of a chain with a given name, or 0. */
  function FindIn(c: map<nat, Cell>, l: seq<nat>, name: string): nat {
    if l == [] then 0 else if SameName(NameOf(c, l[0]), name) then l[0] else FindIn(c, l[1..], name)
  }

  datatype Value = Value(kind: nat, bytes: seq<Byte>)

  /** What a hive holds under a name of a directory. */
  function ValueOf(c: map<nat, Cell>, g: Shape, d: nat, name: string): Option<Value> {
    if name == [] || d !in g.values then None else
    var f := FindIn(c, g.values[d], name);
    if f == 0 || f !in c || !c[f].File? then None else Some(Value(c[f].kind, Contents(c, f)))
  }

  function SubOf(c: map<nat, Cell>, g: Shape, d: nat, name: string): nat {
    if name == [] || d !in g.subs then 0 else FindIn(c, g.subs[d], name)
  }

  /** The cells a write needs, in order: a node for a new name, and a payload cell for more than four bytes unless the
      value has one that is at least as long. Without a buffer no payload is asked for. */
  function NewCells(before: Option<Value>, name: string, size: nat, given: bool): seq<nat> {
    (if before.None? then [FILE_HEADER + |name|] else [])
    + if given && size > 4 && (before.None? || |before.value.bytes| < size) then [SIZE_FIELD + size] else []
  }

  /** What a value node says about the value's length. */
  lemma ValueLength(c: map<nat, Cell>, g: Shape, root: nat, d: nat, name: string)
    requires StoreOK(c, g, root) && d in g.values && name != [] && FindIn(c, g.values[d], name) != 0
    ensures var f := FindIn(c, g.values[d], name);
      && f in c && c[f].File? && ValueOf(c, g, d, name) == Some(Value(c[f].kind, Contents(c, f)))
      && |Contents(c, f)| == c[f].length
  {
    ChainMembers(c, g, root, d);
    FindInMember(c, g.values[d], name);
    var f := FindIn(c, g.values[d], name);
    assert FileOK(c, g, f);
    if c[f].length <= 4 { UnpackLength(c[f].word, c[f].length); }
  }

  lemma {:induction false} FindInMember(c: map<nat, Cell>, l: seq<nat>, name: string)
    requires 0 !in l
    ensures FindIn(c, l, name) != 0 ==> FindIn(c, l, name) in l && SameName(NameOf(c, FindIn(c, l, name)), name)
    ensures FindIn(c, l, name) == 0 ==> forall x :: x in l ==> !SameName(NameOf(c, x), name)
  {
    if l != [] && !SameName(NameOf(c, l[0]), name) { FindInMember(c, l[1..], name); }
  }

  /** A lookup sees only names, and names only up to what the comparison sees. */
  lemma {:induction false} FindInNames(c: map<nat, Cell>, c': map<nat, Cell>, l: seq<nat>, name: string, name': string)
    requires forall x :: x in l ==> NameOf(c', x) == NameOf(c, x)
    requires SameName(name, name')
    ensures FindIn(c', l, name') == FindIn(c, l, name)
  {
    if l != [] && !SameName(NameOf(c, l[0]), name) {
      FindInNames(c, c', l[1..], name, name');
    }
  }

  lemma {:induction false} FindInAppend(c: map<nat, Cell>, l: seq<nat>, x: nat, name: string)
    requires 0 !in l
    ensures FindIn(c, l + [x], name) == if FindIn(c, l, name) != 0 then FindIn(c, l, name)
                                        else if SameName(NameOf(c, x), name) then x else 0
  {
    if l == [] {
      assert l + [x] == [x] && [x][1..] == [];
    } else {
      assert (l + [x])[0] == l[0] && (l + [x])[1..] == l[1..] + [x];
      if !SameName(NameOf(c, l[0]), name) { FindInAppend(c, l[1..], x, name); }
    }
  }

  /** With unique names, looking a member's own name up finds that member. */
  lemma {:induction false} FindInUnique(c: map<nat, Cell>, l: seq<nat>, i: nat)
    requires i < |l| && UniqueNames(c, l) && NameOf(c, l[i]) != [] && 0 !in l
    ensures FindIn(c, l, NameOf(c, l[i])) == l[i]
  {
    if i > 0 {
      assert !SameName(NameOf(c, l[0]), NameOf(c, l[i]));
      forall a, b | 0 <= a < b < |l[1..]|
        ensures NameOf(c, l[1..][a]) == [] || !SameName(NameOf(c, l[1..][a]), NameOf(c, l[1..][b])) {
        assert NameOf(c, l[a + 1]) == [] || !SameName(NameOf(c, l[a + 1]), NameOf(c, l[b + 1]));
      }
      FindInUnique(c, l[1..], i - 1);
    }
  }

  // ---------------------------------------------------------------- what one change does

  /** A file keeps its name, its type and its bytes. */
  ghost predicate SameFile(c: map<nat, Cell>, c': map<nat, Cell>, x: nat) {
    x in c && c[x].File? ==>
      x in c' && c'[x].File? && c'[x].name == c[x].name && c'[x].kind == c[x].kind && Contents(c', x) == Contents(c, x)
  }

  lemma ChainMembers(c: map<nat, Cell>, g: Shape, root: nat, d: nat)
    requires StoreOK(c, g, root)
    ensures d in g.values ==> forall x :: x in g.values[d] ==> x != 0 && x in c && c[x].File? && x in g.home && g.home[x] == d
    ensures d in g.subs ==> forall x :: x in g.subs[d] ==> x != 0 && x in c && c[x].Dir? && c[x].parent == d
  {
    if d in g.values || d in g.subs {
      assert DirOK(c, g, d);
      forall x | x in g.values[d] ensures x != 0 && x in c && c[x].File? && x in g.home && g.home[x] == d {
        var i :| 0 <= i < |g.values[d]| && g.values[d][i] == x;
        assert ValueAt(c, g, d, i);
      }
      forall x | x in g.subs[d] ensures x != 0 && x in c && c[x].Dir? && c[x].parent == d {
        var i :| 0 <= i < |g.subs[d]| && g.subs[d][i] == x;
        assert SubAt(c, g, d, i);
      }
    }
  }

  /** What a chain holds behind its k-th member. */
  function Behind(l: seq<nat>, k: nat): nat { if k + 1 < |l| then l[k + 1] else 0 }

  ghost predicate SubLinks(c: map<nat, Cell>, s: seq<nat>) {
    forall k :: 0 <= k < |s| ==> s[k] != 0 && s[k] in c && c[s[k]].Dir? && c[s[k]].nextSibling == Behind(s, k)
  }

  ghost predicate ValueLinks(c: map<nat, Cell>, v: seq<nat>) {
    forall k :: 0 <= k < |v| ==> v[k] != 0 && v[k] in c && c[v[k]].File? && c[v[k]].next == Behind(v, k)
  }

  /** The links of a directory's two chains, one by one. */
  lemma ChainLinks(c: map<nat, Cell>, g: Shape, root: nat, d: nat)
    requires StoreOK(c, g, root) && d in c && c[d].Dir?
    ensures d in g.subs && SubLinks(c, g.subs[d]) && c[d].firstSub == (if g.subs[d] == [] then 0 else g.subs[d][0])
    ensures d in g.values && ValueLinks(c, g.values[d]) && c[d].firstValue == (if g.values[d] == [] then 0 else g.values[d][0])
  {
    assert DirOK(c, g, d);
    var s, v := g.subs[d], g.values[d];
    forall k | 0 <= k < |s| ensures s[k] != 0 && s[k] in c && c[s[k]].Dir? && c[s[k]].nextSibling == Behind(s, k) {
      assert SubAt(c, g, d, k);
    }
    forall k | 0 <= k < |v| ensures v[k] != 0 && v[k] in c && c[v[k]].File? && c[v[k]].next == Behind(v, k) {
      assert ValueAt(c, g, d, k);
    }
  }

  lemma ValueStays(c: map<nat, Cell>, g: Shape, root: nat, c': map<nat, Cell>, g': Shape, d: nat, n: string)
    requires StoreOK(c, g, root) && (d in g.values <==> d in g'.values)
    requires d in g.values ==> g'.values[d] == g.values[d] && forall x :: x in g.values[d] ==> SameFile(c, c', x)
    ensures ValueOf(c', g', d, n) == ValueOf(c, g, d, n)
  {
    if d in g.values {
      ChainMembers(c, g, root, d);
      var l := g.values[d];
      FindInNames(c, c', l, n, n);
      FindInMember(c, l, n);
      assert FindIn(c, l, n) != 0 ==> SameFile(c, c', FindIn(c, l, n));
    }
  }

  /** The cell keeps its name and its links. */
  ghost predicate KeptLinks(c: map<nat, Cell>, c': map<nat, Cell>, x: nat) {
    && x in c && x in c'
    && (c[x].File? ==> c'[x].File? && c'[x].name == c[x].name && c'[x].next == c[x].next)
    && (c[x].Dir? ==> c'[x].Dir? && c'[x].name == c[x].name && c'[x].nextSibling == c[x].nextSibling && c'[x].parent == c[x].parent)
  }

  /** A directory whose own fields, members and member links stay. */
  lemma DirKept(c: map<nat, Cell>, g: Shape, root: nat, c': map<nat, Cell>, g': Shape, e: nat)
    requires StoreOK(c, g, root) && e in c && c[e].Dir? && e in c' && c'[e].Dir?
    requires c'[e].firstSub == c[e].firstSub && c'[e].firstValue == c[e].firstValue && c'[e].count == c[e].count
    requires e in g.values && e in g.subs && e in g'.values && e in g'.subs && g'.values[e] == g.values[e] && g'.subs[e] == g.subs[e]
    requires forall x :: x in g.values[e] ==> KeptLinks(c, c', x) && x in g'.home && g'.home[x] == e
    requires forall x :: x in g.subs[e] ==> KeptLinks(c, c', x)
    requires forall x :: x in g.depth ==> x in g'.depth && g'.depth[x] == g.depth[x]
    ensures DirOK(c', g', e)
  {
    assert DirOK(c, g, e);
    ChainMembers(c, g, root, e);
    SameNames(c, g, root, c', e);
    forall i | 0 <= i < |g.values[e]| ensures ValueAt(c', g', e, i) { assert ValueAt(c, g, e, i) && g.values[e][i] in g.values[e]; }
    forall i | 0 <= i < |g.subs[e]| ensures SubAt(c', g', e, i) { assert SubAt(c, g, e, i) && g.subs[e][i] in g.subs[e]; }
  }

  /** A new cell that no chain has yet; only homes of cells that did not exist before change. */
  ghost predicate Freshens(c: map<nat, Cell>, g: Shape, o: nat, cell: Cell, c': map<nat, Cell>, g': Shape) {
    && o !in c && (cell.Blank? || cell.Data?) && c' == c[o := cell] && g' == g.(home := g'.home)
    && forall x :: x in c && x in g.home ==> x in g'.home && g'.home[x] == g.home[x]
  }

  lemma FreshFile(c: map<nat, Cell>, g: Shape, root: nat, o: nat, cell: Cell, c': map<nat, Cell>, g': Shape, x: nat)
    requires StoreOK(c, g, root) && Freshens(c, g, o, cell, c', g') && x in c && c[x].File?
    ensures FileOK(c', g', x) && SameFile(c, c', x)
  {
    assert FileOK(c, g, x);
  }

  lemma FreshDir(c: map<nat, Cell>, g: Shape, root: nat, o: nat, cell: Cell, c': map<nat, Cell>, g': Shape, d: nat)
    requires StoreOK(c, g, root) && Freshens(c, g, o, cell, c', g') && d in c && c[d].Dir?
    ensures DirOK(c', g', d) && ChildOK(c', g', root, d)
  {
    assert DirOK(c, g, d) && ChildOK(c, g, root, d);
    ChainMembers(c, g, root, d);
    DirKept(c, g, root, c', g', d);
  }

  lemma FreshCell(c: map<nat, Cell>, g: Shape, root: nat, o: nat, cell: Cell, c': map<nat, Cell>, g': Shape)
    requires StoreOK(c, g, root) && Freshens(c, g, o, cell, c', g')
    ensures StoreOK(c', g', root)
  {
    forall x | x in c' && c'[x].File? ensures FileOK(c', g', x) { FreshFile(c, g, root, o, cell, c', g', x); }
    forall d | d in c' && c'[d].Dir? ensures DirOK(c', g', d) && ChildOK(c', g', root, d) {
      FreshDir(c, g, root, o, cell, c', g', d);
    }
  }

  lemma FreshLookup(c: map<nat, Cell>, g: Shape, root: nat, o: nat, cell: Cell, c': map<nat, Cell>, g': Shape)
    requires StoreOK(c, g, root) && Freshens(c, g, o, cell, c', g')
    ensures forall d, n :: ValueOf(c', g', d, n) == ValueOf(c, g, d, n)
  {
    forall d, n ensures ValueOf(c', g', d, n) == ValueOf(c, g, d, n) {
      ChainMembers(c, g, root, d);
      forall x | x in c && c[x].File? ensures SameFile(c, c', x) { FreshFile(c, g, root, o, cell, c', g', x); }
      ValueStays(c, g, root, c', g', d, n);
    }
  }

  lemma SameNames(c: map<nat, Cell>, g: Shape, root: nat, c': map<nat, Cell>, d: nat)
    requires StoreOK(c, g, root) && d in c && c[d].Dir? && d in g.values && d in g.subs
    requires forall x :: x in g.values[d] || x in g.subs[d] ==> NameOf(c', x) == NameOf(c, x)
    ensures UniqueNames(c', g.values[d]) && UniqueNames(c', g.subs[d])
  {
    assert DirOK(c, g, d);
    ChainMembers(c, g, root, d);
    forall i, j | 0 <= i < j < |g.values[d]|
      ensures NameOf(c', g.values[d][i]) == [] || !SameName(NameOf(c', g.values[d][i]), NameOf(c', g.values[d][j])) {
      var a, b := g.values[d][i], g.values[d][j];
      assert a in g.values[d] && b in g.values[d];
      assert NameOf(c, a) == [] || !SameName(NameOf(c, a), NameOf(c, b));
    }
    forall i, j | 0 <= i < j < |g.subs[d]|
      ensures NameOf(c', g.subs[d][i]) == [] || !SameName(NameOf(c', g.subs[d][i]), NameOf(c', g.subs[d][j])) {
      var a, b := g.subs[d][i], g.subs[d][j];
      assert a in g.subs[d] && b in g.subs[d];
      assert NameOf(c, a) == [] || !SameName(NameOf(c, a), NameOf(c, b));
    }
  }

  /** A file's value is replaced where the file is: by a short value in the node, or by a long one in the payload cell,
      which is the file's own already or new. */
  ghost predicate Replaces(c: map<nat, Cell>, g: Shape, f: nat, file: Cell, data: Option<Cell>, c': map<nat, Cell>, g': Shape) {
    && f in c && c[f].File? && file.File? && file.name == c[f].name && file.next == c[f].next
    && (file.inlined ==> file.length <= 4)
    && (data.None? ==> file.length <= 4 && c' == c[f := file] && g' == g)
    && (data.Some? ==>
          && data.value.Data? && file.word != f && 4 < file.length <= |data.value.bytes|
          && (file.word in c ==> c[file.word].Data? && file.word in g.home && g.home[file.word] == f && g' == g)
          && (file.word !in c ==> g' == g.(home := g.home[file.word := f]))
          && c' == c[file.word := data.value][f := file])
  }

  /** Writing bytes over the front of the payload cell that the file has already. */
  lemma Overwritten(c: map<nat, Cell>, g: Shape, f: nat, file: Cell, data: Cell, c': map<nat, Cell>, g': Shape, bytes: seq<Byte>)
    requires FileOK(c, g, f) && 4 < |bytes| <= c[f].length
    requires file.File? && file == c[f].(length := |bytes|, kind := file.kind) && !file.inlined && data == Data(bytes + c[file.word].bytes[|bytes|..])
    requires c' == c[file.word := data][f := file] && g' == g
    ensures Replaces(c, g, f, file, Some(data), c', g') && Contents(c', f) == bytes
  {
    assert data.bytes[..|bytes|] == bytes;
  }

  /** A file whose bytes go to a new payload cell of its own. */
  lemma Relocated(c: map<nat, Cell>, g: Shape, f: nat, file: Cell, c': map<nat, Cell>, g': Shape, bytes: seq<Byte>)
    requires f in c && c[f].File? && file.File? && file.word !in c && 4 < |bytes| && !file.inlined
    requires file == c[f].(word := file.word, length := |bytes|, kind := file.kind, inlined := false)
    requires c' == c[file.word := Data(bytes)][f := file] && g' == g.(home := g.home[file.word := f])
    ensures Replaces(c, g, f, file, Some(Data(bytes)), c', g') && Contents(c', f) == bytes
  {
    assert bytes[..|bytes|] == bytes;
  }

  lemma OtherFiles(c: map<nat, Cell>, g: Shape, root: nat, f: nat, file: Cell, data: Option<Cell>,
                   c': map<nat, Cell>, g': Shape, x: nat)
    requires StoreOK(c, g, root) && Replaces(c, g, f, file, data, c', g') && x in c && c[x].File?
    ensures FileOK(c', g', x) && (x != f ==> SameFile(c, c', x))
  {
    assert FileOK(c, g, x);
  }

  lemma ReplacedLinks(c: map<nat, Cell>, g: Shape, root: nat, f: nat, file: Cell, data: Option<Cell>,
                      c': map<nat, Cell>, g': Shape, e: nat)
    requires StoreOK(c, g, root) && Replaces(c, g, f, file, data, c', g') && e in g.values && e in g.subs
    ensures forall x :: x in g.values[e] ==> KeptLinks(c, c', x) && x in g'.home && g'.home[x] == e
    ensures forall x :: x in g.subs[e] ==> KeptLinks(c, c', x)
  {
    ChainMembers(c, g, root, e);
  }

  lemma ReplacedDir(c: map<nat, Cell>, g: Shape, root: nat, f: nat, file: Cell, data: Option<Cell>,
                    c': map<nat, Cell>, g': Shape, e: nat)
    requires StoreOK(c, g, root) && Replaces(c, g, f, file, data, c', g') && e in c' && c'[e].Dir?
    ensures DirOK(c', g', e)
  {
    assert DirOK(c, g, e);
    ReplacedLinks(c, g, root, f, file, data, c', g', e);
    DirKept(c, g, root, c', g', e);
  }

  lemma ReplacedChild(c: map<nat, Cell>, g: Shape, root: nat, f: nat, file: Cell, data: Option<Cell>,
                      c': map<nat, Cell>, g': Shape, e: nat)
    requires StoreOK(c, g, root) && Replaces(c, g, f, file, data, c', g') && e in c' && c'[e].Dir?
    ensures ChildOK(c', g', root, e)
  {
    assert ChildOK(c, g, root, e);
  }

  lemma StoreReplaced(c: map<nat, Cell>, g: Shape, root: nat, f: nat, file: Cell, data: Option<Cell>,
                      c': map<nat, Cell>, g': Shape)
    requires StoreOK(c, g, root) && Replaces(c, g, f, file, data, c', g')
    ensures StoreOK(c', g', root)
  {
    forall x | x in c' && c'[x].File? ensures FileOK(c', g', x) { OtherFiles(c, g, root, f, file, data, c', g', x); }
    forall e | e in c' && c'[e].Dir? ensures DirOK(c', g', e) && ChildOK(c', g', root, e) {
      ReplacedDir(c, g, root, f, file, data, c', g', e);
      ReplacedChild(c, g, root, f, file, data, c', g', e);
    }
  }

  lemma ValueReplaced(c: map<nat, Cell>, g: Shape, root: nat, d: nat, name: string, f: nat, file: Cell, data: Option<Cell>,
                      c': map<nat, Cell>, g': Shape)
    requires StoreOK(c, g, root) && d in g.values && name != [] && f == FindIn(c, g.values[d], name) && f != 0
    requires Replaces(c, g, f, file, data, c', g')
    ensures f in c' && c'[f].File?
    ensures forall d', n ::
      ValueOf(c', g', d', n) ==
      (if d' == d && SameName(name, n) then Some(Value(file.kind, Contents(c', f))) else ValueOf(c, g, d', n))
  {
    forall d', n ensures ValueOf(c', g', d', n) ==
      (if d' == d && SameName(name, n) then Some(Value(file.kind, Contents(c', f))) else ValueOf(c, g, d', n))
    {
      forall x | x in c && c[x].File? ensures x != f ==> SameFile(c, c', x) {
        OtherFiles(c, g, root, f, file, data, c', g', x);
      }
      ReplacedLookup(c, g, root, d, name, f, c', g', d', n);
    }
  }

  lemma ReplacedLookup(c: map<nat, Cell>, g: Shape, root: nat, d: nat, name: string, f: nat,
                       c': map<nat, Cell>, g': Shape, d': nat, n: string)
    requires StoreOK(c, g, root) && d in g.values && name != [] && f == FindIn(c, g.values[d], name) && f != 0
    requires f in c' && c'[f].File? && NameOf(c', f) == NameOf(c, f) && g'.values == g.values
    requires forall x :: x in c && c[x].File? && x != f ==> SameFile(c, c', x)
    ensures ValueOf(c', g', d', n) ==
      (if d' == d && SameName(name, n) then Some(Value(c'[f].kind, Contents(c', f))) else ValueOf(c, g, d', n))
  {
    ChainMembers(c, g, root, d);
    FindInMember(c, g.values[d], name);
    if d' == d {
      var l := g.values[d];
      FindInNames(c, c', l, n, n);
      if SameName(name, n) {
        FindInNames(c, c, l, name, n);
      } else {
        FindInMember(c, l, n);
        var h := FindIn(c, l, n);
        assert h != 0 ==> h != f && SameFile(c, c', h);
      }
    } else {
      ChainMembers(c, g, root, d');
      ValueStays(c, g, root, c', g', d', n);
    }
  }

  /** Blank cell o becomes a file and goes to the end of directory d's values. */
  ghost predicate Adds(c: map<nat, Cell>, g: Shape, d: nat, o: nat, file: Cell, c': map<nat, Cell>, g': Shape) {
    && d in g.values && d in c && c[d].Dir? && o in c && c[o].Blank? && o != 0 && file.File? && file.next == 0
    && (file.inlined ==> file.length <= 4)
    && (file.length > 4 ==>
          && file.word in c && c[file.word].Data? && file.length <= |c[file.word].bytes|
          && file.word in g.home && g.home[file.word] == o)
    && (file.name == [] || FindIn(c, g.values[d], file.name) == 0)
    && g' == g.(values := g.values[d := g.values[d] + [o]], home := g.home[o := d])
    && var v := g.values[d];
       if v == [] then c' == c[o := file][d := c[d].(firstValue := o)]
       else v[|v| - 1] in c && c[v[|v| - 1]].File? && c' == c[o := file][v[|v| - 1] := c[v[|v| - 1]].(next := o)]
  }

  lemma AddedFiles(c: map<nat, Cell>, g: Shape, root: nat, d: nat, o: nat, file: Cell, c': map<nat, Cell>, g': Shape, x: nat)
    requires StoreOK(c, g, root) && Adds(c, g, d, o, file, c', g') && x in c' && c'[x].File?
    ensures FileOK(c', g', x) && (x != o ==> SameFile(c, c', x))
  {
    if x != o { assert FileOK(c, g, x); }
  }

  lemma AddedNames(c: map<nat, Cell>, g: Shape, root: nat, d: nat, o: nat, file: Cell, c': map<nat, Cell>, g': Shape)
    requires StoreOK(c, g, root) && Adds(c, g, d, o, file, c', g')
    ensures d in g.subs && UniqueNames(c', g.subs[d]) && UniqueNames(c', g'.values[d])
  {
    ChainMembers(c, g, root, d);
    var v := g.values[d];
    assert DirOK(c, g, d);
    assert v != [] ==> v[|v| - 1] in v;
    SameNames(c, g, root, c', d);
    AppendUnique(c', v, o) by {
      FindInMember(c, v, file.name);
    }
  }

  lemma AddedTo(c: map<nat, Cell>, g: Shape, root: nat, d: nat, o: nat, file: Cell, c': map<nat, Cell>, g': Shape)
    requires StoreOK(c, g, root) && Adds(c, g, d, o, file, c', g')
    ensures DirOK(c', g', d)
  {
    ChainMembers(c, g, root, d);
    assert DirOK(c, g, d);
    AddedNames(c, g, root, d, o, file, c', g');
    forall i | 0 <= i < |g.subs[d]| ensures SubAt(c', g', d, i) { assert SubAt(c, g, d, i) && g.subs[d][i] in g.subs[d]; }
    forall i | 0 <= i < |g'.values[d]| ensures ValueAt(c', g', d, i) { AddedAt(c, g, root, d, o, file, c', g', i); }
  }

  lemma AddedAt(c: map<nat, Cell>, g: Shape, root: nat, d: nat, o: nat, file: Cell, c': map<nat, Cell>, g': Shape, i: nat)
    requires StoreOK(c, g, root) && Adds(c, g, d, o, file, c', g') && i <= |g.values[d]|
    ensures ValueAt(c', g', d, i)
  {
    var v := g.values[d];
    assert DirOK(c, g, d);
    if v != [] { assert ValueAt(c, g, d, |v| - 1); }
    if i < |v| { assert ValueAt(c, g, d, i) && v[i] in v; }
  }

  lemma AppendUnique(c: map<nat, Cell>, l: seq<nat>, o: nat)
    requires UniqueNames(c, l) && (NameOf(c, o) == [] || forall x :: x in l ==> !SameName(NameOf(c, x), NameOf(c, o)))
    ensures UniqueNames(c, l + [o])
  {
    var m := l + [o];
    forall i, j | 0 <= i < j < |m| ensures NameOf(c, m[i]) == [] || !SameName(NameOf(c, m[i]), NameOf(c, m[j])) {
      assert m[i] == l[i] && l[i] in l;
      assert j < |l| ==> m[j] == l[j];
    }
  }

  lemma AddedLinks(c: map<nat, Cell>, g: Shape, root: nat, d: nat, o: nat, file: Cell, c': map<nat, Cell>, g': Shape, e: nat)
    requires StoreOK(c, g, root) && Adds(c, g, d, o, file, c', g') && e in c && c[e].Dir? && e != d && e in g.values && e in g.subs
    ensures forall x :: x in g.values[e] ==> KeptLinks(c, c', x) && x in g'.home && g'.home[x] == e
    ensures forall x :: x in g.subs[e] ==> KeptLinks(c, c', x)
  {
    ChainMembers(c, g, root, d);
    ChainMembers(c, g, root, e);
    if g.values[d] != [] { assert g.values[d][|g.values[d]| - 1] in g.values[d]; }
  }

  lemma AddedDir(c: map<nat, Cell>, g: Shape, root: nat, d: nat, o: nat, file: Cell, c': map<nat, Cell>, g': Shape, e: nat)
    requires StoreOK(c, g, root) && Adds(c, g, d, o, file, c', g') && e in c' && c'[e].Dir?
    ensures DirOK(c', g', e)
  {
    if e == d {
      AddedTo(c, g, root, d, o, file, c', g');
    } else {
      assert DirOK(c, g, e);
      AddedLinks(c, g, root, d, o, file, c', g', e);
      DirKept(c, g, root, c', g', e);
    }
  }

  lemma AddedChild(c: map<nat, Cell>, g: Shape, root: nat, d: nat, o: nat, file: Cell, c': map<nat, Cell>, g': Shape, e: nat)
    requires StoreOK(c, g, root) && Adds(c, g, d, o, file, c', g') && e in c' && c'[e].Dir?
    ensures ChildOK(c', g', root, e)
  {
    assert ChildOK(c, g, root, e);
  }

  lemma StoreAdded(c: map<nat, Cell>, g: Shape, root: nat, d: nat, o: nat, file: Cell, c': map<nat, Cell>, g': Shape)
    requires StoreOK(c, g, root) && Adds(c, g, d, o, file, c', g')
    ensures StoreOK(c', g', root)
  {
    forall x | x in c' && c'[x].File? ensures FileOK(c', g', x) { AddedFiles(c, g, root, d, o, file, c', g', x); }
    forall e | e in c' && c'[e].Dir? ensures DirOK(c', g', e) && ChildOK(c', g', root, e) {
      AddedDir(c, g, root, d, o, file, c', g', e);
      AddedChild(c, g, root, d, o, file, c', g', e);
    }
  }

  lemma ValueAdded(c: map<nat, Cell>, g: Shape, root: nat, d: nat, o: nat, file: Cell, c': map<nat, Cell>, g': Shape)
    requires StoreOK(c, g, root) && Adds(c, g, d, o, file, c', g')
    ensures o in c' && c'[o].File?
    ensures forall d', n ::
      ValueOf(c', g', d', n) ==
      (if d' == d && file.name != [] && SameName(file.name, n) then Some(Value(file.kind, Contents(c', o)))
       else ValueOf(c, g, d', n))
  {
    ChainMembers(c, g, root, d);
    var v := g.values[d];
    assert v != [] ==> v[|v| - 1] in v;
    forall d', n ensures ValueOf(c', g', d', n) ==
      (if d' == d && file.name != [] && SameName(file.name, n) then Some(Value(file.kind, Contents(c', o)))
       else ValueOf(c, g, d', n))
    {
      forall x | x in c && c[x].File? ensures SameFile(c, c', x) { AddedFiles(c, g, root, d, o, file, c', g', x); }
      AddedLookup(c, g, root, d, o, c', g', d', n);
    }
  }

  lemma AddedLookup(c: map<nat, Cell>, g: Shape, root: nat, d: nat, o: nat, c': map<nat, Cell>, g': Shape, d': nat, n: string)
    requires StoreOK(c, g, root) && d in g.values && o != 0 && g'.values == g.values[d := g.values[d] + [o]]
    requires o in c' && c'[o].File? && (o in c ==> c[o].Blank?)
    requires forall x :: x in c && c[x].File? ==> SameFile(c, c', x)
    requires c'[o].name == [] || FindIn(c, g.values[d], c'[o].name) == 0
    ensures ValueOf(c', g', d', n) ==
      (if d' == d && c'[o].name != [] && SameName(c'[o].name, n) then Some(Value(c'[o].kind, Contents(c', o)))
       else ValueOf(c, g, d', n))
  {
    ChainMembers(c, g, root, d);
    if d' == d {
      var v := g.values[d];
      FindInNames(c, c', v, n, n);
      FindInAppend(c', v, o, n);
      FindInMember(c, v, n);
      if SameName(c'[o].name, n) && c'[o].name != [] {
        FindInNames(c, c, v, c'[o].name, n);
      } else {
        assert FindIn(c, v, n) != 0 ==> SameFile(c, c', FindIn(c, v, n));
      }
    } else {
      ChainMembers(c, g, root, d');
      ValueStays(c, g, root, c', g', d', n);
    }
  }

  // ---------------------------------------------------------------- subkeys

  ghost function GrownShape(g: Shape, d: nat, o: nat): Shape
    requires d in g.subs && d in g.depth
  {
    Shape(g.values[o := []], g.subs[d := g.subs[d] + [o]][o := []], g.home, g.depth[o := g.depth[d] + 1])
  }

  /** Blank cell o becomes a key without subkeys or values, at the end of directory d's subkeys. */
  ghost predicate Grows(c: map<nat, Cell>, g: Shape, d: nat, o: nat, dir: Cell, c': map<nat, Cell>, g': Shape) {
    && d in g.subs && d in g.depth && d in c && c[d].Dir? && o in c && c[o].Blank? && o != 0
    && dir.Dir? && dir.name != [] && dir.parent == d && dir.firstSub == dir.nextSibling == dir.firstValue == dir.count == 0
    && FindIn(c, g.subs[d], dir.name) == 0
    && g' == GrownShape(g, d, o)
    && var s := g.subs[d];
       if s == [] then c' == c[o := dir][d := c[d].(firstSub := o, count := c[d].count + 1)]
       else s[|s| - 1] in c && c[s[|s| - 1]].Dir?
            && c' == c[o := dir][s[|s| - 1] := c[s[|s| - 1]].(nextSibling := o)][d := c[d].(count := c[d].count + 1)]
  }

  /** The last subkey is not its own parent. */
  lemma LastSub(c: map<nat, Cell>, g: Shape, root: nat, d: nat)
    requires StoreOK(c, g, root) && d in g.subs && g.subs[d] != []
    ensures g.subs[d][|g.subs[d]| - 1] != d && g.subs[d][|g.subs[d]| - 1] in g.subs[d]
  {
    assert DirOK(c, g, d);
    assert SubAt(c, g, d, |g.subs[d]| - 1);
  }

  lemma GrownFile(c: map<nat, Cell>, g: Shape, root: nat, d: nat, o: nat, dir: Cell, c': map<nat, Cell>, g': Shape, x: nat)
    requires StoreOK(c, g, root) && Grows(c, g, d, o, dir, c', g') && x in c && c[x].File?
    ensures FileOK(c', g', x) && SameFile(c, c', x)
  {
    assert FileOK(c, g, x);
  }

  lemma GrownOldNames(c: map<nat, Cell>, g: Shape, root: nat, d: nat, o: nat, dir: Cell, c': map<nat, Cell>, g': Shape)
    requires StoreOK(c, g, root) && Grows(c, g, d, o, dir, c', g')
    ensures d in g.values && UniqueNames(c', g.values[d]) && UniqueNames(c', g.subs[d])
    ensures forall x :: x in g.subs[d] ==> NameOf(c', x) == NameOf(c, x)
  {
    ChainMembers(c, g, root, d);
    assert DirOK(c, g, d);
    if g.subs[d] != [] { LastSub(c, g, root, d); }
    SameNames(c, g, root, c', d);
  }

  lemma GrownNames(c: map<nat, Cell>, g: Shape, root: nat, d: nat, o: nat, dir: Cell, c': map<nat, Cell>, g': Shape)
    requires StoreOK(c, g, root) && Grows(c, g, d, o, dir, c', g')
    ensures d in g.values && UniqueNames(c', g.values[d]) && UniqueNames(c', g.subs[d] + [o])
  {
    GrownOldNames(c, g, root, d, o, dir, c', g');
    AppendUnique(c', g.subs[d], o) by {
      ChainMembers(c, g, root, d);
      FindInMember(c, g.subs[d], dir.name);
    }
  }

  lemma GrownTo(c: map<nat, Cell>, g: Shape, root: nat, d: nat, o: nat, dir: Cell, c': map<nat, Cell>, g': Shape)
    requires StoreOK(c, g, root) && Grows(c, g, d, o, dir, c', g')
    ensures DirOK(c', g', d)
  {
    ChainMembers(c, g, root, d);
    assert DirOK(c, g, d);
    GrownNames(c, g, root, d, o, dir, c', g');
    forall i | 0 <= i < |g.values[d]| ensures ValueAt(c', g', d, i) { GrownValueAt(c, g, root, d, o, dir, c', g', i); }
    forall i | 0 <= i < |g'.subs[d]| ensures SubAt(c', g', d, i) { GrownAt(c, g, root, d, o, dir, c', g', i); }
  }

  lemma GrownValueAt(c: map<nat, Cell>, g: Shape, root: nat, d: nat, o: nat, dir: Cell, c': map<nat, Cell>, g': Shape, i: nat)
    requires StoreOK(c, g, root) && Grows(c, g, d, o, dir, c', g') && d in g.values && i < |g.values[d]|
    ensures ValueAt(c', g', d, i)
  {
    ChainMembers(c, g, root, d);
    assert DirOK(c, g, d) && ValueAt(c, g, d, i) && g.values[d][i] in g.values[d];
  }

  lemma GrownAt(c: map<nat, Cell>, g: Shape, root: nat, d: nat, o: nat, dir: Cell, c': map<nat, Cell>, g': Shape, i: nat)
    requires StoreOK(c, g, root) && Grows(c, g, d, o, dir, c', g') && i <= |g.subs[d]|
    ensures SubAt(c', g', d, i)
  {
    var s := g.subs[d];
    assert DirOK(c, g, d);
    if s != [] { LastSub(c, g, root, d); }
    if i < |s| { assert SubAt(c, g, d, i) && s[i] in s; }
  }

  lemma GrownLinks(c: map<nat, Cell>, g: Shape, root: nat, d: nat, o: nat, dir: Cell, c': map<nat, Cell>, g': Shape, e: nat)
    requires StoreOK(c, g, root) && Grows(c, g, d, o, dir, c', g') && e in c && c[e].Dir? && e != d && e in g.values && e in g.subs
    ensures forall x :: x in g.values[e] ==> KeptLinks(c, c', x) && x in g'.home && g'.home[x] == e
    ensures forall x :: x in g.subs[e] ==> KeptLinks(c, c', x)
  {
    ChainMembers(c, g, root, d);
    ChainMembers(c, g, root, e);
    if g.subs[d] != [] { LastSub(c, g, root, d); }
  }

  lemma GrownDir(c: map<nat, Cell>, g: Shape, root: nat, d: nat, o: nat, dir: Cell, c': map<nat, Cell>, g': Shape, e: nat)
    requires StoreOK(c, g, root) && Grows(c, g, d, o, dir, c', g') && e in c' && c'[e].Dir?
    ensures DirOK(c', g', e)
  {
    if e == d {
      GrownTo(c, g, root, d, o, dir, c', g');
    } else if e != o {
      assert DirOK(c, g, e);
      GrownLinks(c, g, root, d, o, dir, c', g', e);
      DirKept(c, g, root, c', g', e);
    }
  }

  lemma GrownChild(c: map<nat, Cell>, g: Shape, root: nat, d: nat, o: nat, dir: Cell, c': map<nat, Cell>, g': Shape, e: nat)
    requires StoreOK(c, g, root) && Grows(c, g, d, o, dir, c', g') && e in c' && c'[e].Dir?
    ensures ChildOK(c', g', root, e)
  {
    if e == o {
      assert g'.subs[d][|g.subs[d]|] == o;
    } else {
      assert ChildOK(c, g, root, e);
      if e != root && c[e].parent == d {
        var i :| 0 <= i < |g.subs[d]| && g.subs[d][i] == e;
        assert g'.subs[d][i] == e;
      }
    }
  }

  lemma GrownDomain(c: map<nat, Cell>, g: Shape, root: nat, d: nat, o: nat, dir: Cell, c': map<nat, Cell>, g': Shape)
    requires StoreOK(c, g, root) && Grows(c, g, d, o, dir, c', g')
    ensures root in c' && c'[root].Dir?
    ensures forall e :: e in g'.values || e in g'.subs || e in g'.depth ==> e in c' && c'[e].Dir?
  {
  }

  lemma StoreGrown(c: map<nat, Cell>, g: Shape, root: nat, d: nat, o: nat, dir: Cell, c': map<nat, Cell>, g': Shape)
    requires StoreOK(c, g, root) && Grows(c, g, d, o, dir, c', g')
    ensures StoreOK(c', g', root)
  {
    GrownDomain(c, g, root, d, o, dir, c', g');
    forall x | x in c' && c'[x].File? ensures FileOK(c', g', x) { GrownFile(c, g, root, d, o, dir, c', g', x); }
    forall e | e in c' && c'[e].Dir? ensures DirOK(c', g', e) && ChildOK(c', g', root, e) {
      GrownDir(c, g, root, d, o, dir, c', g', e);
      GrownChild(c, g, root, d, o, dir, c', g', e);
    }
  }

  lemma GrownValues(c: map<nat, Cell>, g: Shape, root: nat, d: nat, o: nat, dir: Cell, c': map<nat, Cell>, g': Shape,
                    d': nat, n: string)
    requires StoreOK(c, g, root) && Grows(c, g, d, o, dir, c', g')
    ensures ValueOf(c', g', d', n) == ValueOf(c, g, d', n)
  {
    ChainMembers(c, g, root, d');
    forall x | x in c && c[x].File? ensures SameFile(c, c', x) { GrownFile(c, g, root, d, o, dir, c', g', x); }
    if d' != o { ValueStays(c, g, root, c', g', d', n); }
  }

  lemma GrownOldSubs(c: map<nat, Cell>, g: Shape, root: nat, d: nat, o: nat, dir: Cell, c': map<nat, Cell>, g': Shape,
                     d': nat, n: string)
    requires StoreOK(c, g, root) && Grows(c, g, d, o, dir, c', g') && d' in g.subs
    ensures FindIn(c', g.subs[d'], n) == FindIn(c, g.subs[d'], n) && 0 !in g.subs[d']
  {
    ChainMembers(c, g, root, d');
    if g.subs[d] != [] { LastSub(c, g, root, d); }
    FindInNames(c, c', g.subs[d'], n, n);
  }

  lemma GrownSubs(c: map<nat, Cell>, g: Shape, root: nat, d: nat, o: nat, dir: Cell, c': map<nat, Cell>, g': Shape,
                  d': nat, n: string)
    requires StoreOK(c, g, root) && Grows(c, g, d, o, dir, c', g')
    ensures SubOf(c', g', d', n) == (if d' == d && SameName(dir.name, n) then o else SubOf(c, g, d', n))
  {
    if d' in g.subs {
      GrownOldSubs(c, g, root, d, o, dir, c', g', d', n);
      if d' == d {
        FindInAppend(c', g.subs[d], o, n);
        if SameName(dir.name, n) { FindInNames(c, c, g.subs[d], dir.name, n); }
      }
    }
  }

  /** Attaching a key touches no value and no other key; its own name now leads to it. */
  lemma GrownLookup(c: map<nat, Cell>, g: Shape, root: nat, d: nat, o: nat, dir: Cell, c': map<nat, Cell>, g': Shape)
    requires StoreOK(c, g, root) && Grows(c, g, d, o, dir, c', g')
    ensures forall d', n :: ValueOf(c', g', d', n) == ValueOf(c, g, d', n)
    ensures forall d', n :: SubOf(c', g', d', n) == (if d' == d && SameName(dir.name, n) then o else SubOf(c, g, d', n))
  {
    forall d', n ensures ValueOf(c', g', d', n) == ValueOf(c, g, d', n) {
      GrownValues(c, g, root, d, o, dir, c', g', d', n);
    }
    forall d', n ensures SubOf(c', g', d', n) == (if d' == d && SameName(dir.name, n) then o else SubOf(c, g, d', n)) {
      GrownSubs(c, g, root, d, o, dir, c', g', d', n);
    }
  }

  /** Every lookup of a value, and every lookup of a key, answers as before. */
  ghost predicate SameValues(c: map<nat, Cell>, g: Shape, c': map<nat, Cell>, g': Shape) {
    forall d, n :: ValueOf(c', g', d, n) == ValueOf(c, g, d, n)
  }

  ghost predicate SameKeys(c: map<nat, Cell>, g: Shape, c': map<nat, Cell>, g': Shape) {
    forall d, n :: SubOf(c', g', d, n) == SubOf(c, g, d, n)
  }

  /** Every key is still one, with its name and its parent, and of the same class. */
  ghost predicate KeepsKeys(c: map<nat, Cell>, c': map<nat, Cell>) {
    forall x :: x in c && c[x].Dir? ==>
      x in c' && c'[x].Dir? && c'[x].name == c[x].name && c'[x].parent == c[x].parent && c'[x].isVolatile == c[x].isVolatile
  }

  /** Exactly one value has changed. */
  ghost predicate ValueSet(c: map<nat, Cell>, g: Shape, c': map<nat, Cell>, g': Shape, d: nat, name: string, v: Value) {
    forall d', n ::
      ValueOf(c', g', d', n) == (if d' == d && name != [] && SameName(name, n) then Some(v) else ValueOf(c, g, d', n))
  }

  lemma KeysKept(c: map<nat, Cell>, g: Shape, root: nat, c': map<nat, Cell>, g': Shape)
    requires StoreOK(c, g, root) && g'.subs == g.subs
    requires forall x :: x in c && c[x].Dir? ==> x in c' && c'[x].Dir? && c'[x].name == c[x].name
    ensures SameKeys(c, g, c', g')
  {
    forall d, n ensures SubOf(c', g', d, n) == SubOf(c, g, d, n) {
      if d in g.subs {
        ChainMembers(c, g, root, d);
        FindInNames(c, c', g.subs[d], n, n);
      }
    }
  }

  lemma Replaced(c: map<nat, Cell>, g: Shape, root: nat, d: nat, name: string, f: nat, file: Cell, data: Option<Cell>,
                 c': map<nat, Cell>, g': Shape, bytes: seq<Byte>)
    requires StoreOK(c, g, root) && d in g.values && name != [] && f == FindIn(c, g.values[d], name) && f != 0
    requires Replaces(c, g, f, file, data, c', g') && Contents(c', f) == bytes
    ensures StoreOK(c', g', root) && SameKeys(c, g, c', g') && ValueSet(c, g, c', g', d, name, Value(file.kind, bytes))
    ensures KeepsKeys(c, c')
  {
    StoreReplaced(c, g, root, f, file, data, c', g');
    ValueReplaced(c, g, root, d, name, f, file, data, c', g');
    KeysKept(c, g, root, c', g');
  }

  lemma Added(c: map<nat, Cell>, g: Shape, root: nat, d: nat, o: nat, file: Cell, c': map<nat, Cell>, g': Shape, bytes: seq<Byte>)
    requires StoreOK(c, g, root) && Adds(c, g, d, o, file, c', g') && Contents(c', o) == bytes
    ensures StoreOK(c', g', root) && SameKeys(c, g, c', g') && ValueSet(c, g, c', g', d, file.name, Value(file.kind, bytes))
    ensures KeepsKeys(c, c')
  {
    StoreAdded(c, g, root, d, o, file, c', g');
    ValueAdded(c, g, root, d, o, file, c', g');
    KeysKept(c, g, root, c', g');
  }

  /** The cells after value o has been hung behind the last of the values v of directory d. */
  function HungValue(c: map<nat, Cell>, v: seq<nat>, d: nat, o: nat): map<nat, Cell> {
    if v == [] then (if d in c && c[d].Dir? then c[d := c[d].(firstValue := o)] else c)
    else if v[|v| - 1] in c && c[v[|v| - 1]].File? then c[v[|v| - 1] := c[v[|v| - 1]].(next := o)]
    else c
  }

  ghost function AddedShape(g: Shape, d: nat, o: nat): Shape
    requires d in g.values
  {
    g.(values := g.values[d := g.values[d] + [o]], home := g.home[o := d])
  }

  lemma AddsFrom(c: map<nat, Cell>, g: Shape, root: nat, d: nat, o: nat, file: Cell)
    requires StoreOK(c, g, root) && d in g.values && d in c && c[d].Dir? && o in c && c[o].Blank? && o != 0
    requires file.File? && file.next == 0 && (file.inlined ==> file.length <= 4)
    requires file.name == [] || FindIn(c, g.values[d], file.name) == 0
    requires file.length > 4 ==>
      && file.word in c && c[file.word].Data? && file.length <= |c[file.word].bytes|
      && file.word in g.home && g.home[file.word] == o
    ensures Adds(c, g, d, o, file, HungValue(c[o := file], g.values[d], d, o), AddedShape(g, d, o))
    ensures var c' := HungValue(c[o := file], g.values[d], d, o);
      o in c' && c'[o] == file && (file.length > 4 ==> file.word in c' && c'[file.word] == c[file.word])
  {
    ChainMembers(c, g, root, d);
    var v := g.values[d];
    assert v != [] ==> v[|v| - 1] in v;
  }

  /** Writing and hanging a value adds it. */
  lemma AttachedValue(c: map<nat, Cell>, g: Shape, root: nat, d: nat, o: nat, file: Cell, c': map<nat, Cell>, g': Shape,
                      bytes: seq<Byte>)
    requires StoreOK(c, g, root) && d in g.values && d in c && c[d].Dir? && o in c && c[o].Blank? && o != 0
    requires file.File? && file.next == 0 && (file.inlined <==> file.length <= 4)
    requires file.name == [] || FindIn(c, g.values[d], file.name) == 0
    requires file.length <= 4 ==> bytes == Unpack(file.word, file.length)
    requires file.length > 4 ==>
      && file.word in c && c[file.word] == Data(bytes) && file.length == |bytes|
      && file.word in g.home && g.home[file.word] == o
    requires c' == HungValue(c[o := file], g.values[d], d, o) && g' == AddedShape(g, d, o)
    ensures StoreOK(c', g', root) && SameKeys(c, g, c', g') && KeepsKeys(c, c')
    ensures ValueSet(c, g, c', g', d, file.name, Value(file.kind, bytes))
  {
    AddsFrom(c, g, root, d, o, file);
    Added(c, g, root, d, o, file, c', g', bytes);
  }

  /** A name that no value of a directory has is still new when cells have been added. */
  lemma StillNew(c: map<nat, Cell>, g: Shape, root: nat, d: nat, name: string, c': map<nat, Cell>)
    requires StoreOK(c, g, root) && d in g.values && (name == [] || FindIn(c, g.values[d], name) == 0)
    requires forall x :: x in c ==> x in c' && c'[x] == c[x]
    ensures name == [] || FindIn(c', g.values[d], name) == 0
  {
    ChainMembers(c, g, root, d);
    FindInNames(c, c', g.values[d], name, name);
  }

  lemma Fresh(c: map<nat, Cell>, g: Shape, root: nat, o: nat, cell: Cell, c': map<nat, Cell>, g': Shape)
    requires StoreOK(c, g, root) && Freshens(c, g, o, cell, c', g')
    ensures StoreOK(c', g', root) && SameKeys(c, g, c', g') && SameValues(c, g, c', g')
  {
    FreshCell(c, g, root, o, cell, c', g');
    FreshLookup(c, g, root, o, cell, c', g');
    KeysKept(c, g, root, c', g');
  }

  /** A stored value reads back exactly when its name is not empty: a lookup refuses the empty name. */
  lemma ReadBack(c: map<nat, Cell>, g: Shape, c': map<nat, Cell>, g': Shape, d: nat, name: string, v: Value)
    requires ValueSet(c, g, c', g', d, name, v)
    ensures ValueOf(c', g', d, name) == Some(v) <==> name != []
  {
    assert name != [] ==> ValueOf(c', g', d, name) == Some(v);
  }

  datatype Write = Write(d: nat, name: string, value: Value)

  datatype Store = Store(cells: map<nat, Cell>, shape: Shape)

  /** The map a run of writes leaves: the last write to a name, or what was there before. */
  function LastWrite(before: Option<Value>, writes: seq<Write>, d: nat, name: string): Option<Value> {
    if writes == [] then before else
    var w := writes[|writes| - 1];
    if w.d == d && w.name != [] && SameName(w.name, name) then Some(w.value)
    else LastWrite(before, writes[..|writes| - 1], d, name)
  }

  ghost predicate Wrote(s: Store, t: Store, w: Write) { ValueSet(s.cells, s.shape, t.cells, t.shape, w.d, w.name, w.value) }

  /** Each store of the run is what one write made of the one before. */
  ghost predicate Ran(run: seq<Store>, writes: seq<Write>) {
    |run| == |writes| + 1 && forall i {:trigger writes[i]} :: 0 <= i < |writes| ==> Wrote(run[i], run[i + 1], writes[i])
  }

  /** Over any run of writes, every name reads as last written. */
  lemma {:induction false} RunRefinesMap(run: seq<Store>, writes: seq<Write>, d: nat, name: string)
    requires Ran(run, writes)
    ensures ValueOf(run[|writes|].cells, run[|writes|].shape, d, name)
         == LastWrite(ValueOf(run[0].cells, run[0].shape, d, name), writes, d, name)
    decreases |writes|
  {
    if writes != [] {
      var n := |writes| - 1;
      assert Wrote(run[n], run[n + 1], writes[n]);
      forall i | 0 <= i < n ensures Wrote(run[..n + 1][i], run[..n + 1][i + 1], writes[..n][i]) {
        assert Wrote(run[i], run[i + 1], writes[i]);
      }
      RunRefinesMap(run[..n + 1], writes[..n], d, name);
    }
  }

  /** A new key makes its name lead to it and changes no other answer. */
  ghost predicate KeyAdded(c: map<nat, Cell>, g: Shape, c': map<nat, Cell>, g': Shape, d: nat, name: string, o: nat) {
    forall d', n :: SubOf(c', g', d', n) == (if d' == d && SameName(name, n) then o else SubOf(c, g, d', n))
  }

  /** The cells after key o has been hung behind the last of the siblings s, and after directory d has been counted up. */
  function Hung(c: map<nat, Cell>, s: seq<nat>, d: nat, o: nat): map<nat, Cell> {
    if s == [] then (if d in c && c[d].Dir? then c[d := c[d].(firstSub := o)] else c)
    else if s[|s| - 1] in c && c[s[|s| - 1]].Dir? then c[s[|s| - 1] := c[s[|s| - 1]].(nextSibling := o)]
    else c
  }

  function Counted(c: map<nat, Cell>, d: nat): map<nat, Cell> {
    if d in c && c[d].Dir? then c[d := c[d].(count := c[d].count + 1)] else c
  }

  lemma GrowsFrom(c: map<nat, Cell>, g: Shape, root: nat, d: nat, o: nat, dir: Cell)
    requires StoreOK(c, g, root) && d in c && c[d].Dir? && o in c && c[o].Blank? && o != 0
    requires dir.Dir? && dir.name != [] && dir.parent == d && dir.firstSub == dir.nextSibling == dir.firstValue == dir.count == 0
    requires SubOf(c, g, d, dir.name) == 0 && d in g.subs
    ensures d in g.depth && Grows(c, g, d, o, dir, Counted(Hung(c[o := dir], g.subs[d], d, o), d), GrownShape(g, d, o))
  {
    assert DirOK(c, g, d);
    ChainMembers(c, g, root, d);
    var s, c0 := g.subs[d], c[o := dir];
    if s == [] {
      assert Counted(Hung(c0, s, d, o), d) == c0[d := c[d].(firstSub := o, count := c[d].count + 1)];
    } else {
      LastSub(c, g, root, d);
    }
  }

  lemma Grown(c: map<nat, Cell>, g: Shape, root: nat, d: nat, o: nat, dir: Cell, c': map<nat, Cell>, g': Shape)
    requires StoreOK(c, g, root) && Grows(c, g, d, o, dir, c', g')
    ensures StoreOK(c', g', root) && SameValues(c, g, c', g') && KeyAdded(c, g, c', g', d, dir.name, o)
  {
    StoreGrown(c, g, root, d, o, dir, c', g');
    GrownLookup(c, g, root, d, o, dir, c', g');
  }

  /** What the cells hold after a key has been attached. */
  lemma GrownCells(c: map<nat, Cell>, g: Shape, root: nat, d: nat, o: nat, dir: Cell, c': map<nat, Cell>, g': Shape)
    requires StoreOK(c, g, root) && Grows(c, g, d, o, dir, c', g')
    ensures KeepsKeys(c, c') && o in c' && c'[o] == dir && d in c' && c'[d].Dir? && c'[d].count == c[d].count + 1
    ensures d in g'.subs && g'.subs[d] == g.subs[d] + [o]
  {
  }

  /** Writing, hanging and counting a key attaches it. */
  lemma AttachedKey(c: map<nat, Cell>, g: Shape, root: nat, d: nat, o: nat, dir: Cell, c': map<nat, Cell>, g': Shape)
    requires StoreOK(c, g, root) && d in c && c[d].Dir? && o in c && c[o].Blank? && o != 0
    requires dir.Dir? && dir.name != [] && dir.parent == d && dir.firstSub == dir.nextSibling == dir.firstValue == dir.count == 0
    requires SubOf(c, g, d, dir.name) == 0 && d in g.subs && d in g.depth
    requires c' == Counted(Hung(c[o := dir], g.subs[d], d, o), d) && g' == GrownShape(g, d, o)
    ensures StoreOK(c', g', root) && SameValues(c, g, c', g') && KeyAdded(c, g, c', g', d, dir.name, o)
    ensures KeepsKeys(c, c') && o in c' && c'[o] == dir && d in c' && c'[d].Dir? && c'[d].count == c[d].count + 1
    ensures d in g'.subs && g'.subs[d] == g.subs[d] + [o]
  {
    GrowsFrom(c, g, root, d, o, dir);
    Grown(c, g, root, d, o, dir, c', g');
    GrownCells(c, g, root, d, o, dir, c', g');
  }

  // ---------------------------------------------------------------- walking names

  /** Where a list of names leads from a directory, 0 if some name is missing. */
  function Walk(c: map<nat, Cell>, g: Shape, d: nat, names: seq<string>): nat
    decreases |names|
  {
    if names == [] then d else
    var s := SubOf(c, g, d, names[0]);
    if s == 0 then 0 else Walk(c, g, s, names[1..])
  }

  function Depth(g: Shape, x: nat): nat { if x in g.depth then g.depth[x] else 0 }

  /** The names from the root down to a directory: what its path is built from. */
  ghost function NamesTo(c: map<nat, Cell>, g: Shape, root: nat, x: nat): seq<string>
    requires StoreOK(c, g, root) && x in c && c[x].Dir?
    decreases Depth(g, x)
  {
    assert ChildOK(c, g, root, x);
    if x == root then [] else NamesTo(c, g, root, c[x].parent) + [c[x].name]
  }

  lemma {:induction false} WalkAppend(c: map<nat, Cell>, g: Shape, d: nat, names: seq<string>, name: string)
    requires Walk(c, g, d, names) != 0
    ensures Walk(c, g, d, names + [name]) == SubOf(c, g, Walk(c, g, d, names), name)
    decreases |names|
  {
    if names == [] {
      assert [] + [name] == [name] && [name][1..] == [];
      var s := SubOf(c, g, d, name);
      assert s != 0 ==> Walk(c, g, s, [name][1..]) == s;
    } else {
      assert (names + [name])[0] == names[0] && (names + [name])[1..] == names[1..] + [name];
      WalkAppend(c, g, SubOf(c, g, d, names[0]), names[1..], name);
    }
  }

  /** The path of a key leads back to that very key. */
  lemma {:induction false} PathLeadsBack(c: map<nat, Cell>, g: Shape, root: nat, x: nat)
    requires StoreOK(c, g, root) && x in c && c[x].Dir?
    ensures Walk(c, g, root, NamesTo(c, g, root, x)) == x
    decreases Depth(g, x)
  {
    assert ChildOK(c, g, root, x) && DirOK(c, g, root);
    if x != root {
      var p := c[x].parent;
      assert DirOK(c, g, p);
      PathLeadsBack(c, g, root, p);
      WalkAppend(c, g, root, NamesTo(c, g, root, p), c[x].name);
      var i :| 0 <= i < |g.subs[p]| && g.subs[p][i] == x;
      assert SubAt(c, g, p, i);
      ChainMembers(c, g, root, p);
      FindInUnique(c, g.subs[p], i);
    }
  }

  /** No two keys share a path. */
  lemma PathsDistinct(c: map<nat, Cell>, g: Shape, root: nat, x: nat, y: nat)
    requires StoreOK(c, g, root) && x in c && c[x].Dir? && y in c && c[y].Dir?
    ensures NamesTo(c, g, root, x) == NamesTo(c, g, root, y) ==> x == y
  {
    PathLeadsBack(c, g, root, x);
    PathLeadsBack(c, g, root, y);
  }

  lemma {:induction false} WalkZero(c: map<nat, Cell>, g: Shape, d: nat, names: seq<string>, more: seq<string>)
    requires Walk(c, g, d, names) == 0 && d != 0
    ensures Walk(c, g, d, names + more) == 0
    decreases |names|
  {
    assert names != [] && (names + more)[0] == names[0] && (names + more)[1..] == names[1..] + more;
    var s := SubOf(c, g, d, names[0]);
    if s != 0 { WalkZero(c, g, s, names[1..], more); }
  }

  /** Every path that led somewhere still leads there. */
  ghost predicate WalksKept(c: map<nat, Cell>, g: Shape, c': map<nat, Cell>, g': Shape) {
    forall s, names :: Walk(c, g, s, names) != 0 ==> Walk(c', g', s, names) == Walk(c, g, s, names)
  }

  /** Walks see only the links between keys. */
  lemma {:induction false} WalkSame(c: map<nat, Cell>, g: Shape, c': map<nat, Cell>, g': Shape, s: nat, names: seq<string>)
    requires SameKeys(c, g, c', g')
    ensures Walk(c', g', s, names) == Walk(c, g, s, names)
    decreases |names|
  {
    if names != [] {
      assert SubOf(c', g', s, names[0]) == SubOf(c, g, s, names[0]);
      if SubOf(c, g, s, names[0]) != 0 { WalkSame(c, g, c', g', SubOf(c, g, s, names[0]), names[1..]); }
    }
  }

  /** Keys that could be reached stay where they are when a key is added under a new name. */
  lemma {:induction false} WalkStays(c: map<nat, Cell>, g: Shape, c': map<nat, Cell>, g': Shape, d: nat, name: string, o: nat,
                                     s: nat, names: seq<string>)
    requires KeyAdded(c, g, c', g', d, name, o) && SubOf(c, g, d, name) == 0
    requires forall n :: SameName(name, n) ==> SubOf(c, g, d, n) == 0
    requires Walk(c, g, s, names) != 0
    ensures Walk(c', g', s, names) == Walk(c, g, s, names)
    decreases |names|
  {
    if names != [] {
      assert SubOf(c', g', s, names[0]) == SubOf(c, g, s, names[0]);
      WalkStays(c, g, c', g', d, name, o, SubOf(c, g, s, names[0]), names[1..]);
    }
  }

  /** Lookups cannot tell two matching names apart. */
  lemma SubOfSame(c: map<nat, Cell>, g: Shape, d: nat, n: string, n': string)
    requires SameName(n, n')
    ensures SubOf(c, g, d, n) == SubOf(c, g, d, n')
  {
    if d in g.subs { FindInNames(c, c, g.subs[d], n, n'); }
  }

  /** Name n of key d is one of the links of a path: the first k names lead to d, the next one is n. */
  ghost predicate OnPath(c': map<nat, Cell>, g': Shape, start: nat, names: seq<string>, d: nat, n: string) {
    exists k {:trigger names[..k]} :: 0 <= k < |names| && Walk(c', g', start, names[..k]) == d && d != 0 && SameName(names[k], n)
  }

  /** Every lookup of a key answers as before, apart from missing links of the path. */
  ghost predicate OnlyPath(c: map<nat, Cell>, g: Shape, c': map<nat, Cell>, g': Shape, start: nat, names: seq<string>) {
    forall d, n :: SubOf(c', g', d, n) == SubOf(c, g, d, n) || (SubOf(c, g, d, n) == 0 && OnPath(c', g', start, names, d, n))
  }

  /** A link of a path is one of every longer path, also after keys have been added. */
  lemma OnPathStays(c: map<nat, Cell>, g: Shape, c': map<nat, Cell>, g': Shape, start: nat, names: seq<string>, more: seq<string>,
                    d: nat, n: string)
    requires WalksKept(c, g, c', g') && OnPath(c, g, start, names, d, n)
    ensures OnPath(c', g', start, names + more, d, n)
  {
    var k :| 0 <= k < |names| && Walk(c, g, start, names[..k]) == d && d != 0 && SameName(names[k], n);
    assert (names + more)[..k] == names[..k] && (names + more)[k] == names[k];
    assert Walk(c', g', start, (names + more)[..k]) == d;
  }

  lemma OnlyPathLonger(c: map<nat, Cell>, g: Shape, c': map<nat, Cell>, g': Shape, start: nat, names: seq<string>, more: seq<string>)
    requires OnlyPath(c, g, c', g', start, names)
    ensures OnlyPath(c, g, c', g', start, names + more)
  {
    forall d, n | SubOf(c', g', d, n) != SubOf(c, g, d, n) ensures SubOf(c, g, d, n) == 0 && OnPath(c', g', start, names + more, d, n) {
      OnPathStays(c', g', c', g', start, names, more, d, n);
    }
  }

  /** The next missing link of the path is added at its end. */
  lemma OnlyPathGrows(c: map<nat, Cell>, g: Shape, c1: map<nat, Cell>, g1: Shape, c': map<nat, Cell>, g': Shape, start: nat,
                      done: seq<string>, at: nat, token: string, o: nat)
    requires OnlyPath(c, g, c1, g1, start, done) && WalksKept(c1, g1, c', g') && KeyAdded(c1, g1, c', g', at, token, o)
    requires at == Walk(c', g', start, done) != 0 && forall n :: SameName(token, n) ==> SubOf(c1, g1, at, n) == 0
    ensures OnlyPath(c, g, c', g', start, done + [token])
  {
    forall d, n | SubOf(c', g', d, n) != SubOf(c, g, d, n)
      ensures SubOf(c, g, d, n) == 0 && OnPath(c', g', start, done + [token], d, n)
    {
      if d == at && SameName(token, n) {
        assert SubOf(c1, g1, d, n) == 0;
        assert (done + [token])[..|done|] == done && (done + [token])[|done|] == token;
      } else {
        assert SubOf(c', g', d, n) == SubOf(c1, g1, d, n);
        OnPathStays(c1, g1, c', g', start, done, [token], d, n);
      }
    }
  }

  /** A walk that creates missing keys stands at `at` behind the names `done`; before, the store was (c, g). */
  ghost predicate Walked(c: map<nat, Cell>, g: Shape, c': map<nat, Cell>, g': Shape, start: nat, done: seq<string>,
                         at: nat, created: bool) {
    && SameValues(c, g, c', g') && WalksKept(c, g, c', g') && KeepsKeys(c, c') && OnlyPath(c, g, c', g', start, done)
    && at in c' && c'[at].Dir? && at == Walk(c', g', start, done) && at != 0
    && (created <==> Walk(c, g, start, done) == 0)
    && (!created ==> c' == c && g' == g)
  }

  /** The part of a path up to its next slash or its end. */
  function Head(s: string): (t: string)
    ensures |t| <= |s| && t == s[..|t|] && '/' !in t && '\0' !in t
    ensures |t| < |s| ==> s[|t|] == '/' || s[|t|] == '\0'
  {
    if s == [] || s[0] == '/' || s[0] == '\0' then [] else [s[0]] + Head(s[1..])
  }

  /** The names in a path: runs of characters between slashes, up to the terminating NUL. */
  function Tokens(s: string): seq<string>
    decreases |s|
  {
    if s == [] || s[0] == '\0' then [] else if s[0] == '/' then Tokens(s[1..])
    else [Head(s)] + Tokens(s[|Head(s)|..])
  }

  /** A path as it is printed: a slash in front of each name. */
  function PathText(names: seq<string>): string {
    if names == [] then [] else ['/'] + names[0] + PathText(names[1..])
  }

  function Reversed(s: seq<string>): seq<string> {
    if s == [] then [] else [s[|s| - 1]] + Reversed(s[..|s| - 1])
  }

  predicate ShortNames(names: seq<string>) { forall k :: 0 <= k < |names| ==> |names[k]| < 128 }

  /** The names in front of the first that is too long. */
  function Short(names: seq<string>): seq<string> {
    if names == [] || |names[0]| >= 128 then [] else [names[0]] + Short(names[1..])
  }

  function KeySizes(names: seq<string>): seq<nat> {
    if names == [] then [] else [DIR_HEADER + |names[0]|] + KeySizes(names[1..])
  }

  /** The sizes of the keys a path lacks below a directory: all its names from the first that is not found. */
  function MissingKeys(c: map<nat, Cell>, g: Shape, d: nat, names: seq<string>): seq<nat>
    decreases |names|
  {
    if names == [] then [] else
    var s := SubOf(c, g, d, names[0]);
    if s == 0 then KeySizes(names) else MissingKeys(c, g, s, names[1..])
  }

  /** Below a directory without subkeys everything is missing. */
  lemma AllMissing(c: map<nat, Cell>, g: Shape, d: nat, names: seq<string>)
    requires forall n :: SubOf(c, g, d, n) == 0
    ensures MissingKeys(c, g, d, names) == KeySizes(names)
  {
  }

  /** No more keys are missing than the path has names, and their sizes are those of short names. */
  lemma {:induction false} MissingBound(c: map<nat, Cell>, g: Shape, d: nat, names: seq<string>)
    ensures var m := MissingKeys(c, g, d, Short(names));
      |m| <= |names| && forall i :: 0 <= i < |m| ==> DIR_HEADER <= m[i] < DIR_HEADER + 128
    decreases |names|
  {
    var s := Short(names);
    KeySizesBound(names);
    if s != [] {
      assert s[1..] == Short(names[1..]);
      if SubOf(c, g, d, names[0]) != 0 { MissingBound(c, g, SubOf(c, g, d, names[0]), names[1..]); }
    }
  }

  lemma {:induction false} KeySizesBound(names: seq<string>)
    ensures var m := KeySizes(Short(names));
      |m| <= |names| && forall i :: 0 <= i < |m| ==> DIR_HEADER <= m[i] < DIR_HEADER + 128
  {
    var s := Short(names);
    if s != [] {
      assert s[1..] == Short(names[1..]);
      KeySizesBound(names[1..]);
    }
  }

  /** Nothing is missing on a path that leads somewhere. */
  lemma {:induction false} NoneMissing(c: map<nat, Cell>, g: Shape, d: nat, names: seq<string>)
    requires ShortNames(names) && Walk(c, g, d, names) != 0
    ensures Short(names) == names && MissingKeys(c, g, d, names) == []
    decreases |names|
  {
    if names != [] {
      assert forall k :: 0 <= k < |names[1..]| ==> names[1..][k] == names[k + 1];
      NoneMissing(c, g, SubOf(c, g, d, names[0]), names[1..]);
    }
  }

  lemma ShortMore(names: seq<string>, name: string)
    requires ShortNames(names) && |name| < 128
    ensures ShortNames(names + [name])
  {
  }

  predicate Clean(name: string) { name != [] && '/' !in name && '\0' !in name }

  lemma {:induction false} HeadOfName(name: string, rest: string)
    requires '/' !in name && '\0' !in name && (rest == [] || rest[0] == '/')
    ensures Head(name + rest) == name
  {
    if name == [] {
      assert name + rest == rest;
    } else {
      assert (name + rest)[1..] == name[1..] + rest;
      HeadOfName(name[1..], rest);
    }
  }

  /** Printing a path and splitting it again are inverse. */
  lemma {:induction false} TokensOfPath(names: seq<string>)
    requires forall k :: 0 <= k < |names| ==> Clean(names[k])
    ensures Tokens(PathText(names)) == names
  {
    if names != [] {
      var name, rest := names[0], PathText(names[1..]);
      assert Clean(names[0]);
      assert PathText(names)[1..] == name + rest;
      HeadOfName(name, rest);
      assert (name + rest)[|name|..] == rest && (name + rest)[0] == name[0];
      TokensOfPath(names[1..]);
    }
  }

  /** The printed path of a key, split and walked from the root, leads back to the key. */
  lemma PrintedPathLeadsBack(c: map<nat, Cell>, g: Shape, root: nat, x: nat)
    requires StoreOK(c, g, root) && x in c && c[x].Dir?
    requires forall k :: 0 <= k < |NamesTo(c, g, root, x)| ==> Clean(NamesTo(c, g, root, x)[k])
    ensures Walk(c, g, root, Tokens(PathText(NamesTo(c, g, root, x)))) == x
  {
    TokensOfPath(NamesTo(c, g, root, x));
    PathLeadsBack(c, g, root, x);
  }
}
