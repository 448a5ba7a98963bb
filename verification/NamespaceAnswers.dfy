/** What lookups answer, and what names look like, said without the functions that compute them
    (veakrnl/ob/obdirectory.c, veakrnl/ob/obmanager.c). */
module NamespaceAnswers {
  import opened Namespace
  import opened Wrappers

  // ---------------------------------------------------------------- characters and tokens

  /** A lookup that ignores case takes a letter for the other of its case, and no two further characters for the same. */
  lemma SameCharIs(a: char, b: char, insensitive: bool)
    ensures SameChar(a, b, insensitive) <==>
      || a == b
      || (insensitive && 'A' <= a <= 'Z' && b as int == a as int + 32)
      || (insensitive && 'A' <= b <= 'Z' && a as int == b as int + 32)
  {
  }

  /** Names match when they are equally long and match character by character. */
  lemma MatchesIs(a: string, b: string, insensitive: bool)
    ensures Matches(a, b, insensitive) <==>
      |a| == |b| && forall i :: 0 <= i < |a| ==>
        || a[i] == b[i]
        || (insensitive && 'A' <= a[i] <= 'Z' && b[i] as int == a[i] as int + 32)
        || (insensitive && 'A' <= b[i] <= 'Z' && a[i] as int == b[i] as int + 32)
  {
    if |a| == |b| {
      forall i | 0 <= i < |a| ensures SameChar(a[i], b[i], insensitive) <==>
        || a[i] == b[i]
        || (insensitive && 'A' <= a[i] <= 'Z' && b[i] as int == a[i] as int + 32)
        || (insensitive && 'A' <= b[i] <= 'Z' && a[i] as int == b[i] as int + 32)
      {
        SameCharIs(a[i], b[i], insensitive);
      }
    }
  }

  /** What is skipped are slashes of either kind, up to the first other character or the end of the name. */
  lemma {:induction false} SkipIs(q: Request, s: State)
    requires s.pos + s.len <= |Source(q, s)|
    ensures var r, src, end := Skip(q, s), Source(q, s), s.pos + s.len;
      && r == s.(pos := r.pos, len := r.len) && s.pos <= r.pos <= r.pos + r.len == end
      && (forall i :: s.pos <= i < r.pos ==> src[i] == '/' || src[i] == '\\')
      && (r.pos < end ==> src[r.pos] != '/' && src[r.pos] != '\\')
    decreases s.len
  {
    if s.len > 0 && IsSlash(Source(q, s)[s.pos]) { SkipIs(q, Advance(s, 1)); }
  }

  /** A token runs up to the first slash or NUL, or to the end of the name. */
  lemma {:induction false} TokenIs(q: Request, s: State)
    requires s.pos + s.len <= |Source(q, s)|
    ensures var n, src, end := TokenLength(q, s), Source(q, s), s.pos + s.len;
      && (forall i :: s.pos <= i < s.pos + n ==> src[i] != '/' && src[i] != '\\' && src[i] != '\0')
      && (s.pos + n < end ==> src[s.pos + n] == '/' || src[s.pos + n] == '\\' || src[s.pos + n] == '\0')
    decreases s.len
  {
    if s.len > 0 && !IsSlash(Source(q, s)[s.pos]) && Source(q, s)[s.pos] != '\0' { TokenIs(q, Advance(s, 1)); }
  }

  // ---------------------------------------------------------------- names that are missing, and answers of parse routines

  /** A directory has no entry of the name that comes next: found is nothing, or, when a new object is to be inserted and
      nothing at all is left behind the name, the place for it. */
  lemma NameMissing(m: Objects, q: Request, s: State, name: string, rest: string)
    requires Closed(m, q) && StateOK(m, q, s) && m[s.current].kind.Directory?
    requires Text(q, Skip(q, s)) == name + rest && Clean(name) && (rest == [] || IsSlash(rest[0]))
    requires forall x :: x in m[s.current].kind.entries ==> !EntryMatches(m, x, name, q.insensitive)
    ensures Resolve(m, q, s) == if q.insertMode && rest == [] then InsertHere else NotFound
  {
    TokenOfClean(q, Skip(q, s), name, rest);
    assert (name + rest)[..|name|] == name;
    FindMember(m, m[s.current].kind.entries, name, q.insensitive);
  }

  /** The last name: a directory or an object without a parse routine is the answer; a link, or an object with a parse
      routine of its own, is still asked, with nothing left of the name. */
  lemma LastName(m: Objects, q: Request, s: State, x: nat, name: string) returns (s': State)
    requires Closed(m, q) && StateOK(m, q, s) && Entry(m, s.current, x, name) && Text(q, Skip(q, s)) == name
    ensures m[x].kind.Directory? || m[x].kind.Plain? ==>
      Resolve(m, q, s) == if q.expected.None? || m[x].typ == q.expected.value then Found(x) else TypeMismatch
    ensures m[x].kind.Link? || m[x].kind.Foreign? ==>
      && StateOK(m, q, s') && s'.current == x && s'.count == s.count && Text(q, s') == ""
      && Resolve(m, q, s) == Resolve(m, q, s')
  {
    assert name + [] == name;
    StepDown(m, q, s, x, name, []);
    s' := Skip(q, Behind(q, s, x, |name|));
    assert Step(m, q, s) == AtDirectory(m, q, s);
    if HasParse(m[x]) { ResolveNext(m, q, s, s'); }
  }

  /** A lookup starts at the directory the caller gave, even for a name that begins with slashes, or else at the root. */
  lemma StartsAt(m: Objects, q: Request, buffer: seq<char>, x: nat, name: string, slashes: string)
    requires Closed(m, q) && |buffer| == BUFFER && q.name == slashes + name && forall i :: 0 <= i < |slashes| ==> IsSlash(slashes[i])
    requires Entry(m, if q.rootObject.Some? then q.rootObject.value else q.root, x, name) && !HasParse(m[x])
    ensures StateOK(m, q, Start(q, buffer))
    ensures Resolve(m, q, Start(q, buffer)) == if q.expected.None? || m[x].typ == q.expected.value then Found(x) else TypeMismatch
  {
    var s := Start(q, buffer);
    assert Text(q, s) == slashes + name;
    SlashesSkipped(q, s, slashes, name);
    var s' := LastName(m, q, s, x, name);
  }

  lemma {:induction false} SlashesSkipped(q: Request, s: State, slashes: string, name: string)
    requires s.pos + s.len <= |Source(q, s)| && Text(q, s) == slashes + name && name != [] && !IsSlash(name[0])
    requires forall i :: 0 <= i < |slashes| ==> IsSlash(slashes[i])
    ensures Text(q, Skip(q, s)) == name
    decreases |slashes|
  {
    assert s.len > 0 && Source(q, s)[s.pos] == Text(q, s)[0];
    if slashes == [] {
      assert slashes + name == name;
    } else {
      assert Text(q, Advance(s, 1)) == Text(q, s)[1..] == slashes[1..] + name;
      SlashesSkipped(q, Advance(s, 1), slashes[1..], name);
    }
  }

  /** A lookup that reaches an object with a parse routine of its own goes by that routine's answer; a text to go on with is
      taken up 32 times, from the root if it starts with a slash, else from the caller's directory if there is one. */
  lemma ParsedAnswers(m: Objects, q: Request, s: State) returns (s': State)
    requires Closed(m, q) && StateOK(m, q, s) && m[s.current].kind.Foreign?
    ensures var a, o := q.parse(s.current, Text(q, s), s.count), Resolve(m, q, s);
      && (a.Resolved? && a.result.None? ==> o == if q.insertMode then InsertHere else NotFound)
      && (a.Resolved? && a.result.Some? ==>
            var x := a.result.value;
            x in m && o == if q.expected.None? || m[x].typ == q.expected.value then Found(x) else TypeMismatch)
      && (a.Refused? ==> o == Failed(a.status))
      && (a.Reparse? && s.count == 32 ==> o == MayLoop)
      && (a.Reparse? && s.count < 32 ==>
            && StateOK(m, q, s') && o == Resolve(m, q, s') && s'.count == s.count + 1 && Text(q, s') == a.text
            && s'.current == if a.text != [] && (a.text[0] == '/' || a.text[0] == '\\') then q.root
                             else if q.rootObject.Some? then q.rootObject.value else s.current)
  {
    StepDecreases(m, q, s);
    var a := q.parse(s.current, Text(q, s), s.count);
    s' := s;
    if a.Reparse? && s.count < REPARSE_LIMIT {
      s' := Step(m, q, s).state;
      assert s'.buffer == (a.text + ['\0'] + s.buffer)[..BUFFER] && s'.buffer[0] == (a.text + ['\0'])[0];
      assert Text(q, s') == a.text;
    }
  }

  /** A link to an object is followed with the name that is left, 32 times at most. */
  lemma TargetFollowed(m: Objects, q: Request, s: State)
    requires Closed(m, q) && StateOK(m, q, s) && m[s.current].kind.Link?
    ensures s.count == 32 ==> Resolve(m, q, s) == MayLoop
    ensures s.count < 32 && m[s.current].kind.target.Some? ==>
      var s' := Skip(q, s).(count := s.count + 1, current := m[s.current].kind.target.value);
      StateOK(m, q, s') && Resolve(m, q, s) == Resolve(m, q, s')
  {
    if s.count < REPARSE_LIMIT && m[s.current].kind.target.Some? {
      var s' := Skip(q, s).(count := s.count + 1, current := m[s.current].kind.target.value);
      assert Step(m, q, s) == Next(s');
      ResolveNext(m, q, s, s');
    } else if s.count == REPARSE_LIMIT {
      assert Step(m, q, s) == Done(MayLoop);
    }
  }

  // ---------------------------------------------------------------- the type expected

  /** The same request for an object of any type. */
  function Untyped(q: Request): Request { q.(expected := None) }

  lemma {:induction false} SkipUntyped(q: Request, s: State)
    requires s.pos + s.len <= |Source(q, s)|
    ensures Skip(Untyped(q), s) == Skip(q, s)
    decreases s.len
  {
    if s.len > 0 && IsSlash(Source(q, s)[s.pos]) { SkipUntyped(q, Advance(s, 1)); }
  }

  lemma {:induction false} TokenUntyped(q: Request, s: State)
    requires s.pos + s.len <= |Source(q, s)|
    ensures TokenLength(Untyped(q), s) == TokenLength(q, s)
    decreases s.len
  {
    if s.len > 0 && !IsSlash(Source(q, s)[s.pos]) && Source(q, s)[s.pos] != '\0' { TokenUntyped(q, Advance(s, 1)); }
  }

  lemma {:induction false} CopyUntyped(q: Request, within: bool, b: seq<char>, from: nat, to: nat, n: nat)
    requires from + n <= (if within then |b| else |q.name|) && to + n <= |b|
    ensures CopyRest(Untyped(q), within, b, from, to, n) == CopyRest(q, within, b, from, to, n)
    decreases n
  {
    if n > 0 { CopyUntyped(q, within, b[to := if within then b[from] else q.name[from]], from + 1, to + 1, n - 1); }
  }

  lemma JoinUntyped(q: Request, s: State, m: nat)
    requires |s.buffer| == BUFFER && s.pos + s.len <= |Source(q, s)| && m < BUFFER
    ensures Join(Untyped(q), s, m) == Join(q, s, m)
  {
    CopyUntyped(q, s.inBuffer, WithSlash(s, m), s.pos, RestAt(s, m), RestRoom(s, m));
  }

  lemma LinkUntyped(m: Objects, q: Request, s: State)
    requires Closed(m, q) && StateOK(m, q, s) && m[s.current].kind.Link?
    ensures AtLink(m, Untyped(q), s) == AtLink(m, q, s)
  {
    var text := m[s.current].kind.text;
    SkipUntyped(q, s);
    SkipUntyped(q, Front(s, text));
    JoinUntyped(q, Skip(q, Front(s, text)), Min(|text|, BUFFER - 1));
  }

  lemma ClosedUntyped(m: Objects, q: Request)
    requires Closed(m, q)
    ensures Closed(m, Untyped(q))
  {
  }

  /** One turn that ends the lookup with o, or goes on, whatever type is expected. */
  ghost predicate SameTurn(m: Objects, q: Request, p: Progress, typed: Progress) {
    match p
    case Next(_) => typed == p
    case Done(o) =>
      && (o.Found? ==> o.x in m)
      && typed == Done(if o.Found? && q.expected.Some? && m[o.x].typ != q.expected.value then TypeMismatch else o)
  }

  lemma DirectoryUntyped(m: Objects, q: Request, s: State)
    requires Closed(m, q) && StateOK(m, q, s) && m[s.current].kind.Directory?
    ensures SameTurn(m, q, AtDirectory(m, Untyped(q), s), AtDirectory(m, q, s))
  {
    var entries, q0, s1 := m[s.current].kind.entries, Untyped(q), Skip(q, s);
    SkipUntyped(q, s);
    TokenUntyped(q, s1);
    var n := TokenLength(q, s1);
    assert Text(q0, s1) == Text(q, s1);
    if n > 0 {
      var found := FindEntry(m, entries, Text(q, s1)[..n], q.insensitive);
      FindMember(m, entries, Text(q, s1)[..n], q.insensitive);
      if found.Some? {
        assert Behind(q0, s, found.value, n) == Behind(q, s, found.value, n);
        SkipUntyped(q, Behind(q, s, found.value, n));
      }
    }
  }

  lemma TurnUntyped(m: Objects, q: Request, s: State)
    requires Closed(m, q) && Closed(m, Untyped(q)) && StateOK(m, q, s)
    ensures SameTurn(m, q, Step(m, Untyped(q), s), Step(m, q, s))
  {
    match m[s.current].kind
    case Link(_, _) => LinkUntyped(m, q, s);
    case Directory(_) => DirectoryUntyped(m, q, s);
    case Foreign => assert Text(Untyped(q), s) == Text(q, s);
    case Plain =>
  }

  /** The type a caller expects only turns a find into a mismatch: the lookup goes the same way as without one, and its
      answer is another exactly when it finds an object of another type. */
  lemma {:induction false} ExpectedType(m: Objects, q: Request, s: State)
    requires Closed(m, q) && StateOK(m, q, s)
    ensures Closed(m, Untyped(q)) && StateOK(m, Untyped(q), s)
    ensures var o := Resolve(m, Untyped(q), s);
      && (o.Found? ==> o.x in m)
      && Resolve(m, q, s) == if o.Found? && q.expected.Some? && m[o.x].typ != q.expected.value then TypeMismatch else o
    decreases REPARSE_LIMIT + 1 - s.count, s.len
  {
    ClosedUntyped(m, q);
    TurnUntyped(m, q, s);
    StepDecreases(m, q, s);
    match Step(m, q, s)
    case Done(_) =>
    case Next(s') => ExpectedType(m, q, s');
  }

  /** What is found exists and has the type expected. */
  lemma FoundTyped(m: Objects, q: Request, s: State)
    requires Closed(m, q) && StateOK(m, q, s)
    ensures var o := Resolve(m, q, s);
      o.Found? ==> o.x in m && (q.expected.None? || m[o.x].typ == q.expected.value)
  {
    ExpectedType(m, q, s);
  }

  // ---------------------------------------------------------------- mismatches without a type

  /** The object at which a lookup ends. */
  ghost function Stop(m: Objects, q: Request, s: State): nat
    requires Closed(m, q) && StateOK(m, q, s)
    decreases REPARSE_LIMIT + 1 - s.count, s.len
  {
    StepDecreases(m, q, s);
    match Step(m, q, s)
    case Done(_) => s.current
    case Next(s') => Stop(m, q, s')
  }

  /** A lookup for an object of any type still ends with a mismatch: exactly when it ends at an object that is no
      directory and has no parse routine, and not at the end of the name. */
  lemma {:induction false} UntypedMismatch(m: Objects, q: Request, s: State)
    requires Closed(m, q) && StateOK(m, q, s) && q.expected.None?
    ensures Stop(m, q, s) in m && (Resolve(m, q, s) == TypeMismatch <==> m[Stop(m, q, s)].kind.Plain?)
    decreases REPARSE_LIMIT + 1 - s.count, s.len
  {
    StepDecreases(m, q, s);
    match Step(m, q, s)
    case Done(_) =>
    case Next(s') => UntypedMismatch(m, q, s');
  }

  /** A namespace in which no lookup for an object of any type ends with a mismatch is one without such objects. */
  lemma NoMismatchExactly(m: Objects, q: Request)
    requires Closed(m, q) && q.expected.None?
    ensures (forall s :: StateOK(m, q, s) ==> Resolve(m, q, s) != TypeMismatch) <==> forall x :: x in m ==> !m[x].kind.Plain?
  {
    forall s | StateOK(m, q, s)
      ensures Stop(m, q, s) in m && (Resolve(m, q, s) == TypeMismatch <==> m[Stop(m, q, s)].kind.Plain?)
    {
      UntypedMismatch(m, q, s);
    }
    forall x | x in m && m[x].kind.Plain? ensures exists s :: StateOK(m, q, s) && Resolve(m, q, s) == TypeMismatch {
      var s := State(x, false, 0, 0, 0, seq(BUFFER, _ => '\0'));
      assert StateOK(m, q, s) && Resolve(m, q, s) == TypeMismatch;
    }
  }

  /** A name that goes on behind such an object: a mismatch, whatever type is expected. */
  lemma BehindObject(m: Objects, q: Request, s: State, x: nat, name: string, rest: string)
    requires Closed(m, q) && StateOK(m, q, s) && Entry(m, s.current, x, name) && m[x].kind.Plain?
    requires Text(q, s) == ['/'] + (name + (['/'] + rest)) && rest != [] && !IsSlash(rest[0])
    ensures Resolve(m, q, s) == TypeMismatch
  {
    var s' := OneDown(m, q, s, x, name, rest);
    assert Step(m, q, s') == Done(TypeMismatch);
  }

  /** A root directory with one object in it, no directory itself. */
  function OneObject(): Objects {
    map[0 := Object(Directory([1]), 0, None), 1 := Object(Plain, 2, Some(NameInfo("x", Some(0))))]
  }

  /** "/x/y", looked up in it for an object of any type, is a type mismatch, not a name that is not found. */
  lemma MismatchWithoutType(q: Request, buffer: seq<char>)
    requires Closed(OneObject(), q) && q.root == 0 && q.rootObject == None && q.expected == None && q.name == "/x/y"
    requires |buffer| == BUFFER
    ensures StateOK(OneObject(), q, Start(q, buffer)) && Resolve(OneObject(), q, Start(q, buffer)) == TypeMismatch
  {
    var m, s := OneObject(), Start(q, buffer);
    var entries := [1];
    assert Unique(m, entries) && entries[0] == 1 && Entry(m, 0, 1, "x");
    assert Text(q, s) == "/x/y" == ['/'] + ("x" + (['/'] + "y"));
    BehindObject(m, q, s, 1, "x", "y");
  }

  // ---------------------------------------------------------------- printed names

  /** What is printed for an object: a backslash for the root; else its name, behind a backslash, behind what is printed for
      its directory, where the root prints nothing and a directory without a name three dots. */
  lemma FullNameIs(m: Objects, root: nat, rank: map<nat, nat>, x: nat)
    requires Ranked(m, rank) && x in m
    ensures x == root ==> FullName(m, root, rank, x) == "\\"
    ensures x != root && m[x].info.None? ==> FullName(m, root, rank, x) == ""
    ensures x != root && m[x].info.Some? ==>
      var name, d := m[x].info.value.name, m[x].info.value.directory;
      FullName(m, root, rank, x) ==
        if d.None? || d.value == root then "\\" + name
        else if m[d.value].info.None? then "\\...\\" + name
        else FullName(m, root, rank, d.value) + "\\" + name
  {
    if x != root && m[x].info.Some? {
      var name, d := m[x].info.value.name, m[x].info.value.directory;
      assert "\\" + name == ['\\'] + name && "\\..." + ['\\'] + name == "\\...\\" + name && [] + ['\\'] + name == "\\" + name;
    }
  }
}
