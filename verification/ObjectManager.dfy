/** Inserting into a directory, resolving a name and printing one, as the object manager does them
    (veakrnl/ob/obdirectory.c, veakrnl/ob/obmanager.c). */
module ObjectManager {
  import opened Namespace
  import opened NamespaceAnswers
  import opened Wrappers

  /** The lookup context: the remaining name is a stretch of the caller's name or of the reparse buffer. */
  class Context {
    const buffer: array<char>
    var current: nat
    var inBuffer: bool
    var pos: nat
    var len: nat
    var count: nat

    constructor (q: Request)
      ensures fresh(buffer) && buffer.Length == BUFFER
    {
      buffer := new char[BUFFER](_ => '\0');
      current, inBuffer, pos, len, count := q.root, false, 0, |q.name|, 0;
    }

    ghost function State(): State
      reads this, buffer
    {
      Namespace.State(current, inBuffer, pos, len, count, buffer[..])
    }

    predicate InRange(q: Request)
      reads this
    {
      buffer.Length == BUFFER && pos + len <= (if inBuffer then BUFFER else |q.name|)
    }

    /** The character d places behind the start of the remaining name. */
    function At(q: Request, i: nat): char
      requires InRange(q) && i < (if inBuffer then BUFFER else |q.name|)
      reads this, buffer
    {
      if inBuffer then buffer[i] else q.name[i]
    }

    /** The loop that drops leading slashes. */
    method SkipSlashes(q: Request)
      requires InRange(q)
      modifies this`pos, this`len
      ensures InRange(q) && State() == Skip(q, old(State()))
      ensures old(pos) <= pos && pos + len == old(pos + len)
      ensures forall i :: old(pos) <= i < pos ==> At(q, i) == '/' || At(q, i) == '\\'
      ensures len > 0 ==> At(q, pos) != '/' && At(q, pos) != '\\'
    {
      SkipIs(q, State());
      DropSlashes(q);
    }

    method DropSlashes(q: Request)
      requires InRange(q)
      modifies this`pos, this`len
      ensures InRange(q) && State() == Skip(q, old(State()))
    {
      ghost var s0 := State();
      while len > 0 && IsSlash(At(q, pos))
        invariant InRange(q) && State() == s0.(pos := pos, len := len) && Skip(q, State()) == Skip(q, s0)
        decreases len
      {
        ghost var s := State();
        pos := pos + 1;
        len := len - 1;
        assert State() == Advance(s, 1);
      }
    }

    /** ObpGetNextPathToken: the token lies at `start`, the remaining name begins behind it; without one, nothing remains. */
    method NextToken(q: Request) returns (start: nat, n: nat)
      requires InRange(q)
      modifies this`pos, this`len
      ensures InRange(q)
      ensures n == TokenLength(q, Skip(q, old(State()))) && start == Skip(q, old(State())).pos
      ensures State() == if n > 0 then Advance(Skip(q, old(State())), n) else Skip(q, old(State())).(len := 0)
      // slashes, then up to the next slash or NUL, or to the end
      ensures old(pos) <= start && start + n <= old(pos + len)
      ensures forall i :: old(pos) <= i < start ==> At(q, i) == '/' || At(q, i) == '\\'
      ensures forall i :: start <= i < start + n ==> At(q, i) != '/' && At(q, i) != '\\' && At(q, i) != '\0'
      ensures start + n < old(pos + len) ==> At(q, start + n) == '\0' || (n > 0 && (At(q, start + n) == '/' || At(q, start + n) == '\\'))
    {
      SkipIs(q, State());
      TokenIs(q, Skip(q, State()));
      start, n := CutToken(q);
    }

    method CutToken(q: Request) returns (start: nat, n: nat)
      requires InRange(q)
      modifies this`pos, this`len
      ensures InRange(q)
      ensures n == TokenLength(q, Skip(q, old(State()))) && start == Skip(q, old(State())).pos
      ensures State() == if n > 0 then Advance(Skip(q, old(State())), n) else Skip(q, old(State())).(len := 0)
    {
      SkipSlashes(q);
      start := pos;
      if len == 0 || At(q, pos) == '\0' {
        len, n := 0, 0;
        return;
      }
      n := ScanToken(q);
    }

    /** The loop that runs to the end of the token. */
    method ScanToken(q: Request) returns (n: nat)
      requires InRange(q)
      modifies this`pos, this`len
      ensures InRange(q) && n == TokenLength(q, old(State())) && State() == Advance(old(State()), n)
    {
      ghost var s1 := State();
      n := 0;
      while len > 0 && !IsSlash(At(q, pos)) && At(q, pos) != '\0'
        invariant InRange(q) && n <= s1.len && State() == Advance(s1, n)
        invariant n + TokenLength(q, State()) == TokenLength(q, s1)
        decreases len
      {
        ghost var s := State();
        n := n + 1;
        pos := pos + 1;
        len := len - 1;
        assert State() == Advance(s, 1);
      }
    }

    /** ObpParseSymbolicLink: the link's text, a slash if one is missing, and the rest of the name, cut to the buffer. */
    method ParseSymbolicLink(q: Request, text: string)
      requires InRange(q)
      modifies this`inBuffer, this`pos, this`len, buffer
      ensures InRange(q) && State() == LinkText(q, old(State()), text)
    {
      var m := CopyText(text);
      SkipSlashes(q);
      JoinRemaining(q, m);
    }

    method CopyText(text: string) returns (t: nat)
      requires buffer.Length == BUFFER
      modifies buffer
      ensures t == Min(|text|, BUFFER - 1) && buffer[..] == text[..t] + old(buffer[..])[t..]
    {
      ghost var b := buffer[..];
      var i := 0;
      t := 0;
      while i < |text| && t < BUFFER - 1
        invariant 0 <= i <= |text| && i == t <= BUFFER - 1
        invariant forall k :: 0 <= k < BUFFER ==> buffer[k] == if k < t then text[k] else b[k]
      {
        buffer[t] := text[i];
        t := t + 1;
        i := i + 1;
      }
    }

    method JoinRemaining(q: Request, m: nat)
      requires InRange(q) && m < BUFFER
      modifies this`inBuffer, this`pos, this`len, buffer
      ensures InRange(q) && inBuffer && pos == 0
      ensures var j := Join(q, old(State()), m); len == j.len && buffer[..] == j.buffer
    {
      ghost var s := State();
      var t := AddSlash(m);
      var n := Min(len, BUFFER - 1 - t);
      CopyRemaining(q, t, n);
      assert buffer[..] == WithRest(q, s, m);
      buffer[t + n] := '\0';
      assert buffer[..] == WithRest(q, s, m)[t + n := '\0'];
      inBuffer, pos, len := true, 0, t + n;
    }

    method AddSlash(m: nat) returns (t: nat)
      requires buffer.Length == BUFFER && m < BUFFER
      modifies buffer
      ensures t == RestAt(old(State()), m) && buffer[..] == WithSlash(old(State()), m)
    {
      t := m;
      if len > 0 {
        if t > 0 && !IsSlash(buffer[t - 1]) && t < BUFFER - 1 {
          buffer[t] := '/';
          t := t + 1;
        }
      }
    }

    /** The loop that copies n characters of the remaining name to place t of the buffer. */
    method CopyRemaining(q: Request, t: nat, n: nat)
      requires InRange(q) && n <= len && t + n < BUFFER
      modifies buffer
      ensures buffer[..] == CopyRest(q, inBuffer, old(buffer[..]), pos, t, n)
    {
      var i := 0;
      ghost var b := buffer[..];
      while i < n
        invariant 0 <= i <= n
        invariant CopyRest(q, inBuffer, buffer[..], pos + i, t + i, n - i) == CopyRest(q, inBuffer, b, pos, t, n)
      {
        ghost var c := buffer[..];
        buffer[t + i] := At(q, pos + i);
        assert buffer[..] == c[t + i := if inBuffer then c[pos + i] else q.name[pos + i]];
        i := i + 1;
      }
    }
  }

  /** ObpMatchToken, character by character up to the NUL that ends the entry's name. */
  method MatchToken(token: string, entry: string, insensitive: bool) returns (same: bool)
    requires '\0' !in entry
    ensures same <==>
      |entry| == |token| && forall i :: 0 <= i < |entry| ==>
        || entry[i] == token[i]
        || (insensitive && 'A' <= entry[i] <= 'Z' && token[i] as int == entry[i] as int + 32)
        || (insensitive && 'A' <= token[i] <= 'Z' && entry[i] as int == token[i] as int + 32)
    ensures same <==> Matches(entry, token, insensitive)
  {
    MatchesIs(entry, token, insensitive);
    var i := 0;
    while i < |token|
      invariant 0 <= i <= |token| && i <= |entry|
      invariant forall k :: 0 <= k < i ==> SameChar(entry[k], token[k], insensitive)
    {
      if i == |entry| || !SameChar(entry[i], token[i], insensitive) { return false; }
      i := i + 1;
    }
    return i == |entry|;
  }

  /** Names end at their NUL, so they hold none. */
  ghost predicate NamesOK(m: Objects) {
    forall x :: x in m && m[x].info.Some? ==> '\0' !in m[x].info.value.name
  }

  /** ObpLookupEntryDirectory. */
  method LookupEntry(m: Objects, entries: seq<nat>, token: string, insensitive: bool) returns (r: Option<nat>)
    requires NamesOK(m) && forall i :: 0 <= i < |entries| ==> entries[i] in m
    ensures r == FindEntry(m, entries, token, insensitive)
    ensures r.None? ==> forall k :: 0 <= k < |entries| ==> !EntryMatches(m, entries[k], token, insensitive)
    ensures r.Some? ==>
      exists k :: 0 <= k < |entries| && entries[k] == r.value && EntryMatches(m, entries[k], token, insensitive)
                  && forall j :: 0 <= j < k ==> !EntryMatches(m, entries[j], token, insensitive)
  {
    var i := 0;
    assert entries[0..] == entries;
    while i < |entries|
      invariant 0 <= i <= |entries| && FindEntry(m, entries[i..], token, insensitive) == FindEntry(m, entries, token, insensitive)
      invariant forall j :: 0 <= j < i ==> !EntryMatches(m, entries[j], token, insensitive)
    {
      var info := m[entries[i]].info;
      if info.Some? {
        var same := MatchToken(token, info.value.name, insensitive);
        if same {
          assert EntryMatches(m, entries[i], token, insensitive);
          return Some(entries[i]);
        }
      }
      assert entries[i..][1..] == entries[i + 1..];
      i := i + 1;
    }
    return None;
  }

  function Remaining(q: Request, ctx: Context): string
    requires ctx.InRange(q)
    reads ctx, ctx.buffer
  {
    if ctx.inBuffer then ctx.buffer[ctx.pos..ctx.pos + ctx.len] else q.name[ctx.pos..ctx.pos + ctx.len]
  }

  /** How a turn went, and where it left the lookup. */
  function Ended(r: Option<Outcome>, s: State): Progress { if r.Some? then Done(r.value) else Next(s) }

  method TurnAtLink(m: Objects, q: Request, ctx: Context) returns (r: Option<Outcome>)
    requires ctx.InRange(q) && ctx.current in m && m[ctx.current].kind.Link?
    modifies ctx, ctx.buffer
    ensures ctx.InRange(q) && AtLink(m, q, old(ctx.State())) == Ended(r, ctx.State())
  {
    var link := m[ctx.current].kind;
    if ctx.count >= REPARSE_LIMIT { return Some(MayLoop); }
    if link.target.Some? {
      FollowTarget(q, ctx, link.target.value);
    } else {
      FollowText(q, ctx, link.text);
    }
    return None;
  }

  method FollowTarget(q: Request, ctx: Context, target: nat)
    requires ctx.InRange(q)
    modifies ctx
    ensures ctx.InRange(q)
    ensures ctx.State() == Skip(q, old(ctx.State())).(count := old(ctx.count) + 1, current := target)
  {
    ctx.SkipSlashes(q);
    ctx.count := ctx.count + 1;
    ctx.current := target;
  }

  method FollowText(q: Request, ctx: Context, text: string)
    requires ctx.InRange(q)
    modifies ctx, ctx.buffer
    ensures ctx.InRange(q)
    ensures ctx.State() == Restart(q, LinkText(q, old(ctx.State()), text)).(count := old(ctx.count) + 1)
  {
    ctx.ParseSymbolicLink(q, text);
    ctx.count := ctx.count + 1;
    RestartAt(q, ctx);
  }

  method TurnAtForeign(m: Objects, q: Request, ctx: Context) returns (r: Option<Outcome>)
    requires ctx.InRange(q) && ctx.current in m
    requires var a := q.parse(ctx.current, Remaining(q, ctx), ctx.count);
             && (a.Resolved? && a.result.Some? ==> a.result.value in m) && (a.Reparse? ==> |a.text| < BUFFER)
    modifies ctx, ctx.buffer
    ensures ctx.InRange(q) && AtForeign(m, q, old(ctx.State())) == Ended(r, ctx.State())
  {
    assert Remaining(q, ctx) == Text(q, ctx.State());
    var answer := q.parse(ctx.current, Remaining(q, ctx), ctx.count);
    match answer {
      case Resolved(None) => return Some(if q.insertMode then InsertHere else NotFound);
      case Resolved(Some(x)) => return Some(Finish(m, q, x));
      case Refused(status) => return Some(Failed(status));
      case Reparse(text) =>
        if ctx.count >= REPARSE_LIMIT { return Some(MayLoop); }
        ctx.count := ctx.count + 1;
        Fill(ctx, text);
        ctx.inBuffer, ctx.pos, ctx.len := true, 0, |text|;
        RestartAt(q, ctx);
        return None;
    }
  }

  lemma TokenText(src: string, pos: nat, len: nat, n: nat)
    requires pos + len <= |src| && n <= len
    ensures src[pos..pos + len][..n] == src[pos..pos + n]
  {
  }

  /** A turn at a directory, once its token has been read and looked up. */
  lemma DirectoryTurn(m: Objects, q: Request, s: State, n: nat, token: string, found: Option<nat>)
    requires s.pos + s.len <= |Source(q, s)| && s.current in m && m[s.current].kind.Directory?
    requires forall i :: 0 <= i < |m[s.current].kind.entries| ==> m[s.current].kind.entries[i] in m
    requires n == TokenLength(q, Skip(q, s)) > 0 && token == Text(q, Skip(q, s))[..n]
    requires found == FindEntry(m, m[s.current].kind.entries, token, q.insensitive)
    ensures found.None? ==> AtDirectory(m, q, s) == Done(if q.insertMode && n == Skip(q, s).len then InsertHere else NotFound)
    ensures found.Some? ==> var s1 := Skip(q, Behind(q, s, found.value, n));
      AtDirectory(m, q, s) == if s1.len == 0 && found.value in m && !HasParse(m[found.value]) then Done(Finish(m, q, found.value))
                              else Next(s1)
  {
  }

  method TurnAtDirectory(m: Objects, q: Request, ctx: Context) returns (r: Option<Outcome>)
    requires ctx.InRange(q) && ctx.current in m && m[ctx.current].kind.Directory? && NamesOK(m)
    requires forall i :: 0 <= i < |m[ctx.current].kind.entries| ==> m[ctx.current].kind.entries[i] in m
    modifies ctx
    ensures ctx.InRange(q) && AtDirectory(m, q, old(ctx.State())) == Ended(r, ctx.State())
  {
    ghost var s := ctx.State();
    var entries := m[ctx.current].kind.entries;
    var start, n := ctx.NextToken(q);
    if n == 0 { return Some(Finish(m, q, ctx.current)); }
    var token := if ctx.inBuffer then ctx.buffer[start..start + n] else q.name[start..start + n];
    TokenText(Source(q, s), start, Skip(q, s).len, n);
    var next := LookupEntry(m, entries, token, q.insensitive);
    DirectoryTurn(m, q, s, n, token, next);
    if next.None? { return Some(if q.insertMode && ctx.len == 0 then InsertHere else NotFound); }
    FindMember(m, entries, token, q.insensitive);
    r := MoveTo(m, q, ctx, next.value, Behind(q, s, next.value, n));
  }

  /** The lookup moves on to entry x, behind the slashes; with nothing left it ends there, unless x has a parse routine. */
  method MoveTo(m: Objects, q: Request, ctx: Context, x: nat, ghost s: State) returns (r: Option<Outcome>)
    requires ctx.InRange(q) && x in m && s == ctx.State().(current := x)
    modifies ctx
    ensures ctx.InRange(q) && s.pos + s.len <= |Source(q, s)|
    ensures Ended(r, ctx.State()) == if Skip(q, s).len == 0 && !HasParse(m[x]) then Done(Finish(m, q, x)) else Next(Skip(q, s))
  {
    ctx.current := x;
    ctx.SkipSlashes(q);
    return if ctx.len == 0 && !HasParse(m[x]) then Some(Finish(m, q, x)) else None;
  }

  /** ObpLookupObjectName: whatever the links, the loop ends, and its answer is that of Resolve. What it finds exists and has
      the type expected, if any is. */
  method LookupObjectName(m: Objects, q: Request, ctx: Context) returns (o: Outcome)
    requires Closed(m, q) && NamesOK(m) && ctx.buffer.Length == BUFFER
    modifies ctx, ctx.buffer
    ensures StateOK(m, q, Start(q, old(ctx.buffer[..]))) && o == Resolve(m, q, Start(q, old(ctx.buffer[..])))
    ensures Start(q, old(ctx.buffer[..])).current == if q.rootObject.Some? then q.rootObject.value else q.root
    ensures o.Found? ==> o.x in m && (q.expected.None? || m[o.x].typ == q.expected.value)
  {
    ghost var s0 := Start(q, ctx.buffer[..]);
    o := WalkName(m, q, ctx);
    FoundTyped(m, q, s0);
  }

  /** The main loop of the object manager. */
  method WalkName(m: Objects, q: Request, ctx: Context) returns (o: Outcome)
    requires Closed(m, q) && NamesOK(m) && ctx.buffer.Length == BUFFER
    modifies ctx, ctx.buffer
    ensures StateOK(m, q, Start(q, old(ctx.buffer[..]))) && o == Resolve(m, q, Start(q, old(ctx.buffer[..])))
  {
    ghost var s0 := Start(q, ctx.buffer[..]);
    ctx.count := 0;
    ctx.current := if q.rootObject.Some? then q.rootObject.value else q.root;
    ctx.inBuffer, ctx.pos, ctx.len := false, 0, |q.name|;
    assert ctx.State() == s0;
    while true
      invariant ctx.InRange(q) && StateOK(m, q, ctx.State()) && Resolve(m, q, ctx.State()) == Resolve(m, q, s0)
      decreases REPARSE_LIMIT + 1 - ctx.count, ctx.len
    {
      ghost var s := ctx.State();
      StepDecreases(m, q, s);
      var r: Option<Outcome>;
      match m[ctx.current].kind {
        case Link(_, _) => r := TurnAtLink(m, q, ctx);
        case Foreign => r := TurnAtForeign(m, q, ctx);
        case Plain => r := Some(TypeMismatch);
        case Directory(_) => r := TurnAtDirectory(m, q, ctx);
      }
      if r.Some? { return r.value; }
      ResolveNext(m, q, s, ctx.State());
    }
  }

  /** Where the loop goes on after a reparse. */
  method RestartAt(q: Request, ctx: Context)
    requires ctx.buffer.Length == BUFFER
    modifies ctx`current
    ensures ctx.State() == Restart(q, old(ctx.State()))
  {
    if IsSlash(ctx.buffer[0]) {
      ctx.current := q.root;
    } else if q.rootObject.Some? {
      ctx.current := q.rootObject.value;
    }
  }

  /** A parse routine leaves its text, ended by a NUL, in the reparse buffer. */
  method Fill(ctx: Context, text: string)
    requires |text| < ctx.buffer.Length == BUFFER
    modifies ctx.buffer
    ensures ctx.buffer[..] == (text + ['\0'] + old(ctx.buffer[..]))[..BUFFER]
  {
    ghost var b := ctx.buffer[..];
    var i := 0;
    var all := text + ['\0'] + ctx.buffer[..];
    while i < BUFFER
      invariant 0 <= i <= BUFFER && ctx.buffer[..i] == all[..i]
    {
      ctx.buffer[i] := all[i];
      i := i + 1;
    }
  }

  // ---------------------------------------------------------------- inserting

  datatype Status = Success | InvalidParameter | Collision | NoResources | NameTooLong | BufferTooSmall

  ghost predicate AllUnique(m: Objects) {
    forall d :: d in m && m[d].kind.Directory? ==> Unique(m, m[d].kind.entries)
  }

  /** A directory has an entry whose name differs from this one at most in case. */
  ghost predicate Taken(m: Objects, d: nat, name: string)
    requires d in m && m[d].kind.Directory?
  {
    exists i :: 0 <= i < |m[d].kind.entries| && EntryMatches(m, m[d].kind.entries[i], name, true)
  }

  /** The comparison of two NUL-terminated names in ObpInsertDirectory. */
  method SameFolded(a: string, b: string) returns (same: bool)
    requires '\0' !in a && '\0' !in b
    ensures same <==>
      |a| == |b| && forall i :: 0 <= i < |a| ==>
        || a[i] == b[i]
        || ('A' <= a[i] <= 'Z' && b[i] as int == a[i] as int + 32)
        || ('A' <= b[i] <= 'Z' && a[i] as int == b[i] as int + 32)
    ensures same <==> Matches(a, b, true)
  {
    MatchesIs(a, b, true);
    var i := 0;
    while i < |a| || i < |b|
      invariant 0 <= i <= |a| && i <= |b|
      invariant forall k :: 0 <= k < i ==> SameChar(a[k], b[k], true)
      decreases |a| + |b| - i
    {
      if i == |a| || i == |b| || Fold(a[i]) != Fold(b[i]) { return false; }
      i := i + 1;
    }
    return true;
  }

  lemma TakenIs(m: Objects, d: nat, name: string)
    requires d in m && m[d].kind.Directory?
    ensures Taken(m, d, name) <==>
      exists e :: e in m[d].kind.entries && e in m && m[e].info.Some?
        && var a := m[e].info.value.name;
           |a| == |name| && forall i :: 0 <= i < |a| ==>
             || a[i] == name[i]
             || ('A' <= a[i] <= 'Z' && name[i] as int == a[i] as int + 32)
             || ('A' <= name[i] <= 'Z' && a[i] as int == name[i] as int + 32)
  {
    forall e | e in m && m[e].info.Some? ensures EntryMatches(m, e, name, true) <==>
      var a := m[e].info.value.name;
      |a| == |name| && forall i :: 0 <= i < |a| ==>
        || a[i] == name[i]
        || ('A' <= a[i] <= 'Z' && name[i] as int == a[i] as int + 32)
        || ('A' <= name[i] <= 'Z' && a[i] as int == name[i] as int + 32)
    {
      MatchesIs(m[e].info.value.name, name, true);
    }
  }

  /** The objects of the system and their directories. */
  class Space {
    const root: nat
    var objects: Objects

    constructor (root: nat, objects: Objects)
      ensures this.root == root && this.objects == objects
    {
      this.root, this.objects := root, objects;
    }

    /** ObpInsertDirectory: refuses a name that differs from an existing one only in case. */
    method InsertDirectory(d: nat, x: nat, memory: bool) returns (status: Status)
      requires d in objects && objects[d].kind.Directory? && x in objects && x != d
      requires NamesOK(objects) && AllUnique(objects)
      requires forall i :: 0 <= i < |objects[d].kind.entries| ==> objects[d].kind.entries[i] in objects
      modifies this`objects
      ensures status.InvalidParameter? <==> old(objects)[x].info.None?
      ensures status.Collision? <==> old(objects)[x].info.Some? && Taken(old(objects), d, old(objects)[x].info.value.name)
      // the same name, letter by letter up to case
      ensures status.Collision? <==>
        && old(objects)[x].info.Some?
        && exists e :: e in old(objects)[d].kind.entries && old(objects)[e].info.Some?
             && var a, b := old(objects)[e].info.value.name, old(objects)[x].info.value.name;
                |a| == |b| && forall i :: 0 <= i < |a| ==>
                  || a[i] == b[i]
                  || ('A' <= a[i] <= 'Z' && b[i] as int == a[i] as int + 32)
                  || ('A' <= b[i] <= 'Z' && a[i] as int == b[i] as int + 32)
      ensures status.Success? ==>
        objects == old(objects)[d := old(objects)[d].(kind := Directory(old(objects)[d].kind.entries + [x]))]
      ensures !status.Success? ==> objects == old(objects)
      ensures AllUnique(objects) && NamesOK(objects) && (memory ==> !status.NoResources?)
    {
      if objects[x].info.None? { return InvalidParameter; }
      var name, entries := objects[x].info.value.name, objects[d].kind.entries;
      TakenIs(objects, d, name);
      var i := 0;
      while i < |entries|
        invariant 0 <= i <= |entries| && objects == old(objects)
        invariant forall k :: 0 <= k < i ==> !EntryMatches(objects, entries[k], name, true)
      {
        var info := objects[entries[i]].info;
        if info.Some? {
          var same := SameFolded(info.value.name, name);
          if same {
            assert EntryMatches(objects, entries[i], name, true) && Taken(objects, d, name);
            return Collision;
          }
        }
        i := i + 1;
      }
      if !memory { return NoResources; }
      InsertUnique(objects, d, x);
      objects := Inserted(objects, d, x);
      return Success;
    }

    /** ObQueryNameString: one pass over the directories above sizes the name, the other writes it from its end. */
    method QueryNameString(x: nat, room: nat, ghost rank: map<nat, nat>)
      returns (status: Status, required: nat, start: nat, text: string)
      requires x in objects && Ranked(objects, rank)
      ensures status in {Success, NameTooLong, BufferTooSmall}
      ensures status.NameTooLong? <==> x != root && objects[x].info.Some? && |FullName(objects, root, rank, x)| > 0xFFFE
      ensures !status.NameTooLong? ==> (status.BufferTooSmall? <==> required > room)
      ensures !status.NameTooLong? ==>
        required == 8 + (if x != root && objects[x].info.None? then 0 else |FullName(objects, root, rank, x)| + 1)
      ensures status.Success? ==> start == 0 && text == FullName(objects, root, rank, x)
    {
      required, start, text := 0, 0, [];
      var info := objects[x].info;
      if info.None? && x != root {
        required := HEADER;
        return if required > room then BufferTooSmall else Success, required, start, text;
      }
      var size := 1;
      if x != root {
        var ok;
        ok, size := NameSize(x, rank);
        if !ok { return NameTooLong, required, start, text; }
      }
      if size > MAX_NAME { return NameTooLong, required, start, text; }
      required := HEADER + size + 1;
      if required > room { return BufferTooSmall, required, start, text; }
      var out := new char[size + 1](_ => '\0');
      if x == root {
        start := size - 1;
        out[start] := '\\';
      } else {
        start := WriteName(x, rank, out);
      }
      text := out[start..size];
      status := Success;
    }

    method NameSize(x: nat, ghost rank: map<nat, nat>) returns (ok: bool, size: nat)
      requires x in objects && x != root && objects[x].info.Some? && Ranked(objects, rank)
      ensures ok ==> size == |FullName(objects, root, rank, x)|
      ensures !ok ==> |FullName(objects, root, rank, x)| > MAX_NAME
    {
      var p := objects[x].info.value.directory;
      size := |objects[x].info.value.name|;
      while p.Some? && p.value != root
        invariant p.Some? ==> p.value in objects
        invariant size + |Above(objects, root, rank, p)| + 1 == |FullName(objects, root, rank, x)|
        decreases RankOf(rank, p)
      {
        var info := objects[p.value].info;
        var part := if info.Some? then 1 + |info.value.name| else 1 + 3;
        p := if info.Some? then info.value.directory else None;
        if size > MAX_ULONG - part { return false, size; }
        size := size + part;
      }
      if size > MAX_ULONG - 1 { return false, size; }
      return true, size + 1;
    }

    method WriteName(x: nat, ghost rank: map<nat, nat>, out: array<char>) returns (pos: nat)
      requires x in objects && x != root && objects[x].info.Some? && Ranked(objects, rank)
      requires out.Length == |FullName(objects, root, rank, x)| + 1
      modifies out
      ensures pos == 0 && out[..out.Length - 1] == FullName(objects, root, rank, x)
    {
      ghost var full := FullName(objects, root, rank, x);
      var size := out.Length - 1;
      out[size] := '\0';
      assert out[size..size] == [];
      pos := Prepend(out, size, size, objects[x].info.value.name);
      var p := objects[x].info.value.directory;
      while p.Some? && p.value != root
        invariant p.Some? ==> p.value in objects
        invariant pos == |Above(objects, root, rank, p)| + 1 <= size
        invariant full == Above(objects, root, rank, p) + ['\\'] + out[pos..size]
        decreases RankOf(rank, p)
      {
        var info := objects[p.value].info;
        var part := if info.Some? then info.value.name else "...";
        AboveStep(objects, root, rank, p.value, out[pos..size]);
        pos := PrependPart(out, pos, size, part);
        if info.None? {
          p := None;
          break;
        }
        p := info.value.directory;
      }
      assert Above(objects, root, rank, p) + ['\\'] == "\\";
      pos := Prepend(out, pos, size, "\\");
      assert out[pos..size] == out[..size];
    }
  }

  /** Ask for the name of an object, then look that name up from the root: when the name fits, the lookup ends at the
      object. The request q says how to look up; its name is not used. */
  method NameThenLookup(space: Space, x: nat, room: nat, q: Request, ctx: Context, ghost rank: map<nat, nat>, ghost path: seq<nat>)
    returns (status: Status, answer: Outcome)
    requires Closed(space.objects, q) && NamesOK(space.objects) && Ranked(space.objects, rank) && ctx.buffer.Length == BUFFER
    requires q.root == space.root && q.rootObject == None && space.objects[q.root].kind.Directory?
    requires PathTo(space.objects, space.root, path) && path[|path| - 1] == x
    requires x in space.objects && !HasParse(space.objects[x])
    modifies ctx, ctx.buffer
    ensures status.Success? <==> |FullName(space.objects, space.root, rank, x)| <= 0xFFFE
                                 && 8 + |FullName(space.objects, space.root, rank, x)| + 1 <= room
    ensures status.Success? ==>
      answer == if q.expected.None? || space.objects[x].typ == q.expected.value then Found(x) else TypeMismatch
  {
    if |path| > 1 { assert LinkDown(space.objects, space.root, path, |path| - 2); }
    var result, _, _, text := space.QueryNameString(x, room, rank);
    status, answer := result, NotFound;
    if !status.Success? { return; }
    var named := q.(name := text);
    ghost var s := Start(named, ctx.buffer[..]);
    assert Closed(space.objects, named) && Text(named, s) == text;
    answer := LookupObjectName(space.objects, named, ctx);
    NameRoundTrip(space.objects, named, s, rank, path);
  }

  const HEADER := 8                // sizeof(ANSI_STRING)
  const MAX_NAME := 0xFFFE
  const MAX_ULONG := 0xFFFF_FFFF

  /** A piece of the name copied right in front of what is written already. */
  method Prepend(out: array<char>, pos: nat, size: nat, piece: string) returns (start: nat)
    requires |piece| <= pos <= size < out.Length
    modifies out
    ensures start == pos - |piece| && out[start..size] == piece + old(out[pos..size])
  {
    ghost var tail := out[pos..size];
    start := pos - |piece|;
    var i := 0;
    while i < |piece|
      invariant 0 <= i <= |piece| && out[start..start + i] == piece[..i] && out[pos..size] == tail
    {
      out[start + i] := piece[i];
      i := i + 1;
    }
    assert out[start..size] == out[start..pos] + out[pos..size];
  }

  lemma AboveStep(m: Objects, root: nat, rank: map<nat, nat>, p: nat, tail: string)
    requires Ranked(m, rank) && p in m && p != root
    ensures var part := if m[p].info.Some? then m[p].info.value.name else "...";
            var next := if m[p].info.Some? then m[p].info.value.directory else None;
      && Above(m, root, rank, Some(p)) + ['\\'] + tail == Above(m, root, rank, next) + ['\\'] + (part + ['\\'] + tail)
      && |Above(m, root, rank, Some(p))| == |Above(m, root, rank, next)| + 1 + |part|
  {
    var part := if m[p].info.Some? then m[p].info.value.name else "...";
    var next := if m[p].info.Some? then m[p].info.value.directory else None;
    assert "\\..." == ['\\'] + "...";
    assert Above(m, root, rank, Some(p)) == Above(m, root, rank, next) + ['\\'] + part;
  }

  /** A directory's name and the backslash behind it. */
  method PrependPart(out: array<char>, pos: nat, size: nat, part: string) returns (start: nat)
    requires |part| + 1 <= pos <= size < out.Length
    modifies out
    ensures start == pos - |part| - 1 && out[start..size] == part + ['\\'] + old(out[pos..size])
  {
    var p := Prepend(out, pos, size, "\\");
    start := Prepend(out, p, size, part);
  }

  function Inserted(m: Objects, d: nat, x: nat): Objects
    requires d in m && m[d].kind.Directory?
  {
    m[d := m[d].(kind := Directory(m[d].kind.entries + [x]))]
  }

  lemma InsertUnique(m: Objects, d: nat, x: nat)
    requires d in m && m[d].kind.Directory? && AllUnique(m) && NameOf(m, x).Some?
    requires forall k :: 0 <= k < |m[d].kind.entries| ==> !EntryMatches(m, m[d].kind.entries[k], NameOf(m, x).value, true)
    ensures AllUnique(Inserted(m, d, x))
  {
    var m' := Inserted(m, d, x);
    forall e | e in m' && m'[e].kind.Directory? ensures Unique(m', m'[e].kind.entries) {
      var l := m'[e].kind.entries;
      forall i, j | 0 <= i < j < |l| && NameOf(m', l[i]).Some? ensures !EntryMatches(m', l[j], NameOf(m', l[i]).value, true) {
        var kept := m[e].kind.entries;
        assert l[i] == kept[i];
        if j < |kept| { assert !EntryMatches(m, kept[j], NameOf(m, kept[i]).value, true); }
      }
    }
  }
}
