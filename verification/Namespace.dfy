/** The object namespace: directories, symbolic links, names, and how a name is resolved
    (veakrnl/ob/obdirectory.c, veakrnl/ob/obmanager.c), as values. */
module Namespace {
  import opened Wrappers

  /** What the lookup does with an object: walk it, follow it, ask its type's parse routine, or stop at it. */
  datatype Kind =
    | Directory(entries: seq<nat>)
    | Link(target: Option<nat>, text: string)
    | Foreign
    | Plain

  datatype NameInfo = NameInfo(name: string, directory: Option<nat>)

  datatype Object = Object(kind: Kind, typ: nat, info: Option<NameInfo>)

  type Objects = map<nat, Object>

  predicate HasParse(o: Object) { o.kind.Link? || o.kind.Foreign? }

  // ---------------------------------------------------------------- names

  predicate IsSlash(ch: char) { ch == '/' || ch == '\\' }

  function Fold(ch: char): char {
    if 'A' <= ch <= 'Z' then ch + 32 as char else ch
  }

  /** Two characters a lookup takes for the same. */
  predicate SameChar(a: char, b: char, insensitive: bool) { if insensitive then Fold(a) == Fold(b) else a == b }

  predicate Matches(a: string, b: string, insensitive: bool) {
    |a| == |b| && forall i :: 0 <= i < |a| ==> SameChar(a[i], b[i], insensitive)
  }

  predicate Clean(name: string) { name != [] && forall i :: 0 <= i < |name| ==> !IsSlash(name[i]) && name[i] != '\0' }

  /** The name of an object, if it has one. */
  function NameOf(m: Objects, x: nat): Option<string> {
    if x in m && m[x].info.Some? then Some(m[x].info.value.name) else None
  }

  predicate EntryMatches(m: Objects, x: nat, token: string, insensitive: bool) {
    NameOf(m, x).Some? && Matches(NameOf(m, x).value, token, insensitive)
  }

  /** The first entry that matches. */
  function FindEntry(m: Objects, entries: seq<nat>, token: string, insensitive: bool): Option<nat> {
    if entries == [] then None
    else if EntryMatches(m, entries[0], token, insensitive) then Some(entries[0])
    else FindEntry(m, entries[1..], token, insensitive)
  }

  /** What inserting keeps: no two entries whose names differ only in case. */
  ghost predicate Unique(m: Objects, entries: seq<nat>) {
    forall i, j :: 0 <= i < j < |entries| && NameOf(m, entries[i]).Some? ==>
      !EntryMatches(m, entries[j], NameOf(m, entries[i]).value, true)
  }

  lemma {:induction false} FindUnique(m: Objects, entries: seq<nat>, k: nat, insensitive: bool)
    requires Unique(m, entries) && k < |entries| && NameOf(m, entries[k]).Some?
    ensures FindEntry(m, entries, NameOf(m, entries[k]).value, insensitive) == Some(entries[k])
  {
    var name := NameOf(m, entries[k]).value;
    if k > 0 {
      if EntryMatches(m, entries[0], name, insensitive) {
        assert Matches(NameOf(m, entries[0]).value, name, true);
        assert EntryMatches(m, entries[k], NameOf(m, entries[0]).value, true);
      }
      forall i, j | 0 <= i < j < |entries[1..]| && NameOf(m, entries[1..][i]).Some?
        ensures !EntryMatches(m, entries[1..][j], NameOf(m, entries[1..][i]).value, true) {
        assert entries[1..][i] == entries[i + 1] && entries[1..][j] == entries[j + 1];
      }
      FindUnique(m, entries[1..], k - 1, insensitive);
    }
  }

  // ---------------------------------------------------------------- texts

  /** The text a name printed under names is resolved from: names joined by backslashes. */
  function Joined(names: seq<string>): string {
    if names == [] then [] else if |names| == 1 then names[0] else names[0] + ['\\'] + Joined(names[1..])
  }

  // ---------------------------------------------------------------- resolving

  const BUFFER := 512              // sizeof(ReparseBuffer)
  const REPARSE_LIMIT := 32

  datatype Outcome = Found(x: nat) | InsertHere | NotFound | TypeMismatch | MayLoop | Failed(status: nat)

  /** What another type's parse routine may answer. */
  datatype Answer = Resolved(result: Option<nat>) | Reparse(text: string) | Refused(status: nat)

  /** What stays fixed during one lookup. */
  datatype Request = Request(name: string, root: nat, rootObject: Option<nat>, insensitive: bool, insertMode: bool,
                             expected: Option<nat>, parse: (nat, string, nat) -> Answer)

  /** Where a lookup stands: the remaining name is a stretch of the caller's name or of the reparse buffer. */
  datatype State = State(current: nat, inBuffer: bool, pos: nat, len: nat, count: nat, buffer: seq<char>)

  function Source(q: Request, s: State): string { if s.inBuffer then s.buffer else q.name }

  /** Every object a step can reach exists. */
  ghost predicate Closed(m: Objects, q: Request) {
    && q.root in m && (q.rootObject.Some? ==> q.rootObject.value in m)
    && (forall x :: x in m && m[x].kind.Directory? ==> forall i :: 0 <= i < |m[x].kind.entries| ==> m[x].kind.entries[i] in m)
    && (forall x :: x in m && m[x].kind.Link? && m[x].kind.target.Some? ==> m[x].kind.target.value in m)
    && (forall x, t, n :: q.parse(x, t, n).Reparse? ==> |q.parse(x, t, n).text| < BUFFER)
    && (forall x, t, n :: q.parse(x, t, n).Resolved? && q.parse(x, t, n).result.Some? ==> q.parse(x, t, n).result.value in m)
  }

  ghost predicate StateOK(m: Objects, q: Request, s: State) {
    s.current in m && |s.buffer| == BUFFER && s.pos + s.len <= |Source(q, s)| && s.count <= REPARSE_LIMIT
  }

  function Text(q: Request, s: State): string
    requires s.pos + s.len <= |Source(q, s)|
  {
    Source(q, s)[s.pos..s.pos + s.len]
  }

  function Advance(s: State, k: nat): State
    requires k <= s.len
  {
    s.(pos := s.pos + k, len := s.len - k)
  }

  /** The remaining name behind its leading slashes. */
  function Skip(q: Request, s: State): (r: State)
    requires s.pos + s.len <= |Source(q, s)|
    ensures r.len <= s.len && r == s.(pos := r.pos, len := r.len) && r.pos + r.len == s.pos + s.len
    ensures r.len > 0 ==> !IsSlash(Source(q, s)[r.pos])
    decreases s.len
  {
    if s.len > 0 && IsSlash(Source(q, s)[s.pos]) then Skip(q, Advance(s, 1)) else s
  }

  /** The length of the token the remaining name starts with. */
  function TokenLength(q: Request, s: State): (n: nat)
    requires s.pos + s.len <= |Source(q, s)|
    ensures n <= s.len
    decreases s.len
  {
    if s.len == 0 || IsSlash(Source(q, s)[s.pos]) || Source(q, s)[s.pos] == '\0' then 0
    else 1 + TokenLength(q, Advance(s, 1))
  }

  /** A lookup ends at an object: right type or not. */
  function Finish(m: Objects, q: Request, x: nat): Outcome
    requires x in m
  {
    if q.expected.Some? && m[x].typ != q.expected.value then TypeMismatch else Found(x)
  }

  /** Bytes copied forwards, one at a time, from the caller's name or within the buffer, where what is read may have
      been written already. */
  function CopyRest(q: Request, within: bool, b: seq<char>, from: nat, to: nat, n: nat): (r: seq<char>)
    requires from + n <= (if within then |b| else |q.name|) && to + n <= |b|
    ensures |r| == |b| && forall i :: (0 <= i < to || to + n <= i < |b|) ==> r[i] == b[i]
    decreases n
  {
    if n == 0 then b
    else CopyRest(q, within, b[to := if within then b[from] else q.name[from]], from + 1, to + 1, n - 1)
  }

  function Min(a: nat, b: nat): nat { if a < b then a else b }

  /** The link's text at the front of the buffer. */
  function Front(s: State, text: string): State
    requires |s.buffer| == BUFFER
  {
    var m := Min(|text|, BUFFER - 1);
    s.(buffer := text[..m] + s.buffer[m..])
  }

  /** A slash is missing between m characters of text and the rest of the name. */
  predicate NeedsSlash(s: State, m: nat)
    requires |s.buffer| == BUFFER && m < BUFFER
  {
    s.len > 0 && m > 0 && !IsSlash(s.buffer[m - 1]) && m < BUFFER - 1
  }

  /** Where the rest of the name goes. */
  function RestAt(s: State, m: nat): (t: nat)
    requires |s.buffer| == BUFFER && m < BUFFER
    ensures t < BUFFER
  {
    if NeedsSlash(s, m) then m + 1 else m
  }

  /** How much of it there is room for. */
  function RestRoom(s: State, m: nat): nat
    requires |s.buffer| == BUFFER && m < BUFFER
  {
    Min(s.len, BUFFER - 1 - RestAt(s, m))
  }

  function WithSlash(s: State, m: nat): (b: seq<char>)
    requires |s.buffer| == BUFFER && m < BUFFER
    ensures |b| == BUFFER
  {
    if NeedsSlash(s, m) then s.buffer[m := '/'] else s.buffer
  }

  function WithRest(q: Request, s: State, m: nat): (b: seq<char>)
    requires |s.buffer| == BUFFER && s.pos + s.len <= |Source(q, s)| && m < BUFFER
    ensures |b| == BUFFER
  {
    CopyRest(q, s.inBuffer, WithSlash(s, m), s.pos, RestAt(s, m), RestRoom(s, m))
  }

  /** Behind m characters of text: a slash if one is missing, the rest of the name, a NUL. */
  function Join(q: Request, s: State, m: nat): (r: State)
    requires |s.buffer| == BUFFER && s.pos + s.len <= |Source(q, s)| && m < BUFFER
    ensures |r.buffer| == BUFFER && r == s.(inBuffer := true, pos := 0, len := r.len, buffer := r.buffer) && r.len < BUFFER
  {
    var end := RestAt(s, m) + RestRoom(s, m);
    s.(inBuffer := true, pos := 0, len := end, buffer := WithRest(q, s, m)[end := '\0'])
  }

  /** The state after a link's text has replaced the link in the remaining name. */
  function LinkText(q: Request, s: State, text: string): (r: State)
    requires |s.buffer| == BUFFER && s.pos + s.len <= |Source(q, s)|
    ensures |r.buffer| == BUFFER && r.inBuffer && r.pos == 0 && r.len < BUFFER && r.count == s.count && r.current == s.current
    ensures text != [] ==> r.buffer[0] == text[0]
  {
    Join(q, Skip(q, Front(s, text)), Min(|text|, BUFFER - 1))
  }

  /** Where a reparse goes on: absolute texts at the root, others at the caller's directory, if it gave one. */
  function Restart(q: Request, s: State): State
    requires |s.buffer| == BUFFER
  {
    s.(current := if IsSlash(s.buffer[0]) then q.root else if q.rootObject.Some? then q.rootObject.value else s.current)
  }

  datatype Progress = Done(outcome: Outcome) | Next(state: State)

  function AtLink(m: Objects, q: Request, s: State): Progress
    requires |s.buffer| == BUFFER && s.pos + s.len <= |Source(q, s)| && s.current in m && m[s.current].kind.Link?
  {
    var link := m[s.current].kind;
    if s.count >= REPARSE_LIMIT then Done(MayLoop) else
    if link.target.Some? then Next(Skip(q, s).(count := s.count + 1, current := link.target.value))
    else Next(Restart(q, LinkText(q, s, link.text)).(count := s.count + 1))
  }

  function AtForeign(m: Objects, q: Request, s: State): Progress
    requires |s.buffer| == BUFFER && s.pos + s.len <= |Source(q, s)| && s.current in m
    requires var a := q.parse(s.current, Text(q, s), s.count);
             && (a.Resolved? && a.result.Some? ==> a.result.value in m) && (a.Reparse? ==> |a.text| < BUFFER)
  {
    match q.parse(s.current, Text(q, s), s.count)
    case Resolved(None) => Done(if q.insertMode then InsertHere else NotFound)
    case Resolved(Some(x)) => Done(Finish(m, q, x))
    case Refused(status) => Done(Failed(status))
    case Reparse(text) =>
      if s.count >= REPARSE_LIMIT then Done(MayLoop)
      else Next(Restart(q, s.(count := s.count + 1, inBuffer := true, pos := 0, len := |text|,
                              buffer := (text + ['\0'] + s.buffer)[..BUFFER])))
  }

  /** The state behind a token of length n that led to x. */
  function Behind(q: Request, s: State, x: nat, n: nat): State
    requires s.pos + s.len <= |Source(q, s)| && n <= Skip(q, s).len
  {
    Advance(Skip(q, s), n).(current := x)
  }

  function AtDirectory(m: Objects, q: Request, s: State): Progress
    requires s.pos + s.len <= |Source(q, s)| && s.current in m && m[s.current].kind.Directory?
    requires forall i :: 0 <= i < |m[s.current].kind.entries| ==> m[s.current].kind.entries[i] in m
  {
    var t := Text(q, Skip(q, s));
    var n := TokenLength(q, Skip(q, s));
    if n == 0 then Done(Finish(m, q, s.current)) else
    var found := FindEntry(m, m[s.current].kind.entries, t[..n], q.insensitive);
    if found.None? then Done(if q.insertMode && n == |t| then InsertHere else NotFound) else
    var s1 := Skip(q, Behind(q, s, found.value, n));
    if s1.len == 0 && found.value in m && !HasParse(m[found.value]) then Done(Finish(m, q, found.value)) else Next(s1)
  }

  lemma {:induction false} FindMember(m: Objects, entries: seq<nat>, token: string, insensitive: bool)
    ensures FindEntry(m, entries, token, insensitive).Some? ==>
      FindEntry(m, entries, token, insensitive).value in entries
      && EntryMatches(m, FindEntry(m, entries, token, insensitive).value, token, insensitive)
    ensures FindEntry(m, entries, token, insensitive).None? ==> forall x :: x in entries ==> !EntryMatches(m, x, token, insensitive)
  {
    if entries != [] && !EntryMatches(m, entries[0], token, insensitive) { FindMember(m, entries[1..], token, insensitive); }
  }

  /** One turn of the lookup loop. */
  ghost function Step(m: Objects, q: Request, s: State): Progress
    requires Closed(m, q) && StateOK(m, q, s)
  {
    match m[s.current].kind
    case Link(_, _) => AtLink(m, q, s)
    case Foreign => AtForeign(m, q, s)
    case Plain => Done(TypeMismatch)
    case Directory(_) => AtDirectory(m, q, s)
  }

  lemma DirectoryDecreases(m: Objects, q: Request, s: State)
    requires Closed(m, q) && StateOK(m, q, s) && m[s.current].kind.Directory?
    ensures var p := AtDirectory(m, q, s); p.Next? ==> StateOK(m, q, p.state) && p.state.count == s.count && p.state.len < s.len
  {
    var s1 := Skip(q, s);
    FindMember(m, m[s.current].kind.entries, Text(q, s1)[..TokenLength(q, s1)], q.insensitive);
  }

  /** Every turn of the loop either uses up a reparse or shortens the remaining name. */
  lemma StepDecreases(m: Objects, q: Request, s: State)
    requires Closed(m, q) && StateOK(m, q, s)
    ensures var p := Step(m, q, s);
      p.Next? ==> StateOK(m, q, p.state)
                  && (p.state.count > s.count || (p.state.count == s.count && p.state.len < s.len))
  {
    if m[s.current].kind.Directory? { DirectoryDecreases(m, q, s); }
  }

  /** What a lookup answers. That this function exists for every namespace, cyclic links included, is its termination. */
  ghost function Resolve(m: Objects, q: Request, s: State): Outcome
    requires Closed(m, q) && StateOK(m, q, s)
    decreases REPARSE_LIMIT + 1 - s.count, s.len
  {
    StepDecreases(m, q, s);
    match Step(m, q, s)
    case Done(o) => o
    case Next(s') => Resolve(m, q, s')
  }

  function Start(q: Request, buffer: seq<char>): State {
    State(if q.rootObject.Some? then q.rootObject.value else q.root, false, 0, |q.name|, 0, buffer)
  }

  // ---------------------------------------------------------------- printed names

  /** A chain of directories from the root down to an object, each naming the one above as its directory. */
  ghost predicate PathTo(m: Objects, root: nat, path: seq<nat>) {
    && path != [] && path[0] == root && root in m
    && forall i {:trigger LinkDown(m, root, path, i)} :: 0 <= i < |path| - 1 ==> LinkDown(m, root, path, i)
  }

  ghost predicate LinkDown(m: Objects, root: nat, path: seq<nat>, i: nat) {
    && i + 1 < |path| && path[i] in m && path[i + 1] in m && path[i + 1] != root
    && m[path[i]].kind.Directory? && path[i + 1] in m[path[i]].kind.entries && Unique(m, m[path[i]].kind.entries)
    && m[path[i + 1]].info.Some? && m[path[i + 1]].info.value.directory == Some(path[i])
    && Clean(m[path[i + 1]].info.value.name)
  }

  /** The names of the objects of a path behind position i. */
  ghost function NamesBelow(m: Objects, path: seq<nat>, i: nat): (r: seq<string>)
    requires i < |path|
    ensures |r| == |path| - 1 - i
    decreases |path| - i
  {
    if i + 1 == |path| then [] else
    [if NameOf(m, path[i + 1]).Some? then NameOf(m, path[i + 1]).value else []] + NamesBelow(m, path, i + 1)
  }

  lemma {:induction false} TokenOfClean(q: Request, s: State, name: string, rest: string)
    requires s.pos + s.len <= |Source(q, s)| && Text(q, s) == name + rest
    requires (forall i :: 0 <= i < |name| ==> !IsSlash(name[i]) && name[i] != '\0') && (rest == [] || IsSlash(rest[0]))
    ensures TokenLength(q, s) == |name|
    decreases |name|
  {
    assert |name + rest| == s.len;
    assert s.len > 0 ==> Source(q, s)[s.pos] == Text(q, s)[0];
    if name == [] {
      assert name + rest == rest;
    } else {
      assert Text(q, Advance(s, 1)) == Text(q, s)[1..];
      assert (name + rest)[1..] == name[1..] + rest;
      TokenOfClean(q, Advance(s, 1), name[1..], rest);
    }
  }

  lemma TailOf(src: string, pos: nat, len: nat, name: string, rest: string)
    requires pos + len <= |src| && src[pos..pos + len] == name + rest
    ensures |name| <= len && src[pos + |name|..(pos + |name|) + (len - |name|)] == rest
  {
    assert |name + rest| == len && (name + rest)[|name|..] == rest;
  }

  lemma BehindText(q: Request, s: State, x: nat, name: string, rest: string)
    requires s.pos + s.len <= |Source(q, s)| && Text(q, Skip(q, s)) == name + rest
    ensures |name| <= Skip(q, s).len && Text(q, Behind(q, s, x, |name|)) == rest
  {
    var r := Skip(q, s);
    TailOf(Source(q, r), r.pos, r.len, name, rest);
    AdvancedText(q, r, x, |name|);
  }

  lemma AdvancedText(q: Request, r: State, x: nat, n: nat)
    requires r.pos + r.len <= |Source(q, r)| && n <= r.len
    ensures var b := Advance(r, n).(current := x);
      b.pos + b.len <= |Source(q, b)| && Text(q, b) == Source(q, r)[r.pos + n..(r.pos + n) + (r.len - n)]
  {
  }

  /** One turn at a directory: the token is the name of entry x, and the lookup moves there. */
  lemma StepDown(m: Objects, q: Request, s: State, x: nat, name: string, rest: string)
    requires s.pos + s.len <= |Source(q, s)| && s.current in m && m[s.current].kind.Directory?
    requires forall i :: 0 <= i < |m[s.current].kind.entries| ==> m[s.current].kind.entries[i] in m
    requires x in m[s.current].kind.entries && Unique(m, m[s.current].kind.entries) && NameOf(m, x) == Some(name) && Clean(name)
    requires Text(q, Skip(q, s)) == name + rest && (rest == [] || IsSlash(rest[0]))
    ensures |name| <= Skip(q, s).len && Text(q, Behind(q, s, x, |name|)) == rest
    ensures var s3 := Skip(q, Behind(q, s, x, |name|));
      x in m && AtDirectory(m, q, s) == (if s3.len == 0 && !HasParse(m[x]) then Done(Finish(m, q, x)) else Next(s3))
  {
    var entries := m[s.current].kind.entries;
    BehindText(q, s, x, name, rest);
    TokenOfClean(q, Skip(q, s), name, rest);
    var k :| 0 <= k < |entries| && entries[k] == x;
    FindUnique(m, entries, k, q.insensitive);
    assert (name + rest)[..|name|] == name && x in m;
  }

  lemma SkipSlash(q: Request, s: State, t: string)
    requires s.pos + s.len <= |Source(q, s)| && Text(q, s) == ['\\'] + t && t != [] && !IsSlash(t[0])
    ensures Text(q, Skip(q, s)) == t && Skip(q, Skip(q, s)) == Skip(q, s)
  {
    assert Source(q, s)[s.pos] == Text(q, s)[0];
    assert Text(q, Advance(s, 1)) == Text(q, s)[1..] == t;
    assert Source(q, s)[s.pos + 1] == t[0];
  }

  /** The printed rest of a path, one name further down. */
  function RestOf(names: seq<string>): string
    requires names != []
  {
    if |names| == 1 then [] else ['\\'] + Joined(names[1..])
  }

  lemma NextName(m: Objects, root: nat, path: seq<nat>, i: nat)
    requires PathTo(m, root, path) && i + 1 < |path|
    ensures LinkDown(m, root, path, i)
    ensures var names, name := NamesBelow(m, path, i), m[path[i + 1]].info.value.name;
      && Joined(names) == name + RestOf(names) && NameOf(m, path[i + 1]) == Some(name)
      && (i + 2 < |path| ==> RestOf(names) == ['\\'] + Joined(NamesBelow(m, path, i + 1))
                             && Joined(NamesBelow(m, path, i + 1)) != [] && !IsSlash(Joined(NamesBelow(m, path, i + 1))[0])
                             && LinkDown(m, root, path, i + 1))
      && (i + 2 == |path| ==> RestOf(names) == [])
  {
    assert LinkDown(m, root, path, i);
    var names := NamesBelow(m, path, i);
    assert names[1..] == NamesBelow(m, path, i + 1);
    if i + 2 < |path| {
      assert LinkDown(m, root, path, i + 1);
      assert names[1] == m[path[i + 2]].info.value.name;
      assert Joined(names[1..])[0] == names[1][0];
    } else {
      assert names[0] + [] == names[0];
    }
  }

  /** A turn that the loop takes without ending leaves the answer the same. */
  lemma ResolveNext(m: Objects, q: Request, s: State, s': State)
    requires Closed(m, q) && StateOK(m, q, s) && Step(m, q, s) == Next(s')
    ensures StateOK(m, q, s') && Resolve(m, q, s) == Resolve(m, q, s')
  {
    StepDecreases(m, q, s);
  }

  /** The lookup stands at the i-th directory of the path, in front of the names of the rest. */
  ghost predicate OnTail(m: Objects, q: Request, s: State, path: seq<nat>, i: nat) {
    StateOK(m, q, s) && i + 1 < |path| && s.current == path[i] && Text(q, Skip(q, s)) == Joined(NamesBelow(m, path, i))
  }

  /** The state behind the name of the next object of the path. */
  function Further(m: Objects, q: Request, s: State, x: nat): State
    requires s.pos + s.len <= |Source(q, s)|
  {
    var n := if NameOf(m, x).Some? then |NameOf(m, x).value| else 0;
    if n <= Skip(q, s).len then Skip(q, Behind(q, s, x, n)) else s
  }

  /** One turn at a directory on the path: the end is reached, or the lookup stands one name further down. */
  lemma TailTurn(m: Objects, q: Request, s: State, path: seq<nat>, i: nat)
    requires Closed(m, q) && PathTo(m, q.root, path) && OnTail(m, q, s, path, i)
    requires path[|path| - 1] in m && !HasParse(m[path[|path| - 1]])
    ensures i + 2 == |path| ==> Step(m, q, s) == Done(Finish(m, q, path[|path| - 1]))
    ensures i + 2 < |path| ==> Step(m, q, s) == Next(Further(m, q, s, path[i + 1]))
  {
    NextName(m, q.root, path, i);
    var x, name, rest := path[i + 1], m[path[i + 1]].info.value.name, RestOf(NamesBelow(m, path, i));
    StepDown(m, q, s, x, name, rest);
    if i + 2 < |path| {
      SkipSlash(q, Behind(q, s, x, |name|), Joined(NamesBelow(m, path, i + 1)));
    }
  }

  lemma TailText(m: Objects, q: Request, s: State, path: seq<nat>, i: nat)
    requires Closed(m, q) && PathTo(m, q.root, path) && OnTail(m, q, s, path, i) && i + 2 < |path|
    ensures var s' := Further(m, q, s, path[i + 1]);
      s'.current == path[i + 1] && s'.pos + s'.len <= |Source(q, s')| && Text(q, Skip(q, s')) == Joined(NamesBelow(m, path, i + 1))
  {
    NextName(m, q.root, path, i);
    var x, name := path[i + 1], m[path[i + 1]].info.value.name;
    BehindText(q, s, x, name, RestOf(NamesBelow(m, path, i)));
    SkipSlash(q, Behind(q, s, x, |name|), Joined(NamesBelow(m, path, i + 1)));
  }

  ghost predicate Answers(m: Objects, q: Request, s: State, o: Outcome)
    requires Closed(m, q)
  {
    StateOK(m, q, s) && Resolve(m, q, s) == o
  }

  lemma TailStep(m: Objects, q: Request, s: State, path: seq<nat>, i: nat, o: Outcome) returns (s': State)
    requires Closed(m, q) && PathTo(m, q.root, path) && OnTail(m, q, s, path, i)
    requires path[|path| - 1] in m && !HasParse(m[path[|path| - 1]]) && o == Finish(m, q, path[|path| - 1])
    ensures i + 2 >= |path| ==> Answers(m, q, s, o)
    ensures i + 2 < |path| ==> OnTail(m, q, s', path, i + 1) && (Answers(m, q, s', o) ==> Answers(m, q, s, o))
  {
    s' := Further(m, q, s, path[i + 1]);
    TailTurn(m, q, s, path, i);
    if i + 2 < |path| {
      TailText(m, q, s, path, i);
      ResolveNext(m, q, s, s');
    }
  }

  /** From a directory on the path, the remaining printed name leads to the object at the end. */
  lemma {:induction false} ResolveTail(m: Objects, q: Request, s: State, path: seq<nat>, i: nat, o: Outcome)
    requires Closed(m, q) && PathTo(m, q.root, path) && OnTail(m, q, s, path, i)
    requires path[|path| - 1] in m && !HasParse(m[path[|path| - 1]]) && o == Finish(m, q, path[|path| - 1])
    ensures Answers(m, q, s, o)
    decreases |path| - i
  {
    var s' := TailStep(m, q, s, path, i, o);
    if i + 2 < |path| { ResolveTail(m, q, s', path, i + 1, o); }
  }

  /** Looking up the printed name of an object from the root gives the object, when it has the type expected. */
  lemma PrintedNameResolves(m: Objects, q: Request, s: State, path: seq<nat>)
    requires Closed(m, q) && StateOK(m, q, s) && PathTo(m, q.root, path) && s.current == q.root
    requires path[|path| - 1] in m && !HasParse(m[path[|path| - 1]]) && m[q.root].kind.Directory?
    requires Text(q, s) == ['\\'] + Joined(NamesBelow(m, path, 0))
    ensures var x := path[|path| - 1];
      Resolve(m, q, s) == if q.expected.None? || m[x].typ == q.expected.value then Found(x) else TypeMismatch
  {
    var names := NamesBelow(m, path, 0);
    if |path| == 1 {
      assert Text(q, s)[0] == Source(q, s)[s.pos];
      assert Skip(q, s) == Advance(s, 1);
    } else {
      assert LinkDown(m, q.root, path, 0);
      assert names[0] != [] && Joined(names)[0] == names[0][0] && !IsSlash(names[0][0]);
      SkipSlash(q, s, Joined(names));
      ResolveTail(m, q, s, path, 0, Finish(m, q, path[|path| - 1]));
    }
  }

  // ---------------------------------------------------------------- links

  /** A relative text put in front of the remaining name never makes it absolute. */
  lemma RelativeStays(q: Request, s: State, text: string)
    requires |s.buffer| == BUFFER && s.pos + s.len <= |Source(q, s)| && (text == [] || !IsSlash(text[0]))
    ensures !IsSlash(LinkText(q, s, text).buffer[0])
  {
    if text == [] {
      assert text[..0] + s.buffer[0..] == s.buffer;
      assert s.(buffer := s.buffer) == s;
      var s1 := Skip(q, s);
      var n := Min(s1.len, BUFFER - 1);
      if n > 0 {
        FirstCopied(q, s1.inBuffer, s1.buffer, s1.pos, 0, n);
      }
    }
  }

  lemma FirstCopied(q: Request, within: bool, b: seq<char>, from: nat, to: nat, n: nat)
    requires from + n <= (if within then |b| else |q.name|) && to + n <= |b| && n > 0
    ensures CopyRest(q, within, b, from, to, n)[to] == if within then b[from] else q.name[from]
  {
  }

  lemma {:induction false} NameCopied(q: Request, b: seq<char>, from: nat, to: nat, n: nat, i: nat)
    requires from + n <= |q.name| && to + n <= |b| && i < n
    ensures CopyRest(q, false, b, from, to, n)[to + i] == q.name[from + i]
    decreases n
  {
    if i > 0 { NameCopied(q, b[to := q.name[from]], from + 1, to + 1, n - 1, i - 1); }
  }

  predicate Relative(text: string) { text == [] || !IsSlash(text[0]) }

  /** A relative text met by a lookup that has nowhere else to start from: the caller gave no directory, or this very link. */
  predicate NeverLeft(m: Objects, q: Request, s: State) {
    s.current in m && m[s.current].kind.Link? && Relative(m[s.current].kind.text)
    && (q.rootObject.None? || q.rootObject == Some(s.current))
  }

  lemma RestartedAt(q: Request, s: State, text: string)
    requires |s.buffer| == BUFFER && s.pos + s.len <= |Source(q, s)|
    ensures Restart(q, LinkText(q, s, text)).current ==
      if !Relative(text) then q.root else if q.rootObject.Some? then q.rootObject.value else s.current
  {
    if Relative(text) { RelativeStays(q, s, text); }
  }

  /** A link's text and what is left of the name behind it. */
  function Linked(text: string, rest: string): string { Lead(text, rest) + rest }

  function Lead(text: string, rest: string): string {
    if rest != [] && text != [] && !IsSlash(text[|text| - 1]) then text + ['/'] else text
  }

  /** What of it the buffer holds. */
  function Cut(t: string): string { t[..Min(|t|, BUFFER - 1)] }

  /** Where a turn at a link that has a text leaves the lookup. */
  function Resumed(q: Request, s: State, text: string): State
    requires |s.buffer| == BUFFER && s.pos + s.len <= |Source(q, s)|
  {
    Restart(q, LinkText(q, s, text)).(count := s.count + 1)
  }

  lemma LinkTurn(m: Objects, q: Request, s: State)
    requires Closed(m, q) && StateOK(m, q, s) && m[s.current].kind.Link? && m[s.current].kind.target.None?
    requires s.count < REPARSE_LIMIT
    ensures Step(m, q, s) == Next(Resumed(q, s, m[s.current].kind.text))
    ensures var s' := Resumed(q, s, m[s.current].kind.text);
      s'.count == s.count + 1 && s'.current == if !Relative(m[s.current].kind.text) then q.root
                                               else if q.rootObject.Some? then q.rootObject.value else s.current
  {
    RestartedAt(q, s, m[s.current].kind.text);
  }

  /** One turn at a link that has a text, with reparses left: the lookup stays on the link exactly when the text is
      relative and the caller gave no directory or gave the link itself. */
  lemma LinkLeft(m: Objects, q: Request, s: State)
    requires Closed(m, q) && StateOK(m, q, s) && m[s.current].kind.Link? && m[s.current].kind.target.None?
    requires m[q.root].kind.Directory? && s.count < REPARSE_LIMIT
    ensures Step(m, q, s).Next? && (Step(m, q, s).state.current == s.current <==> NeverLeft(m, q, s))
  {
    LinkTurn(m, q, s);
  }

  /** A link that a lookup never leaves ends it with the reparse limit. */
  lemma {:induction false} RelativeLinkLoops(m: Objects, q: Request, s: State)
    requires Closed(m, q) && StateOK(m, q, s) && m[s.current].kind.Link? && m[s.current].kind.target.None?
    requires NeverLeft(m, q, s)
    ensures Resolve(m, q, s) == MayLoop
    decreases REPARSE_LIMIT - s.count
  {
    if s.count < REPARSE_LIMIT {
      LinkTurn(m, q, s);
      StepDecreases(m, q, s);
      RelativeLinkLoops(m, q, Step(m, q, s).state);
    }
  }

  /** The first link of a lookup, when it is left: the lookup goes on with the text and the rest of the name, a slash between
      them, cut to 511 characters, from the root if the text is absolute, else from the caller's directory. */
  lemma LinkResumes(m: Objects, q: Request, s: State) returns (s': State)
    requires Closed(m, q) && StateOK(m, q, s) && m[s.current].kind.Link? && m[s.current].kind.target.None?
    requires !s.inBuffer && s.count < REPARSE_LIMIT && !NeverLeft(m, q, s)
    ensures StateOK(m, q, s') && Resolve(m, q, s) == Resolve(m, q, s') && s'.count == s.count + 1
    ensures var text, rest := m[s.current].kind.text, Text(q, Skip(q, s));
      && (text != [] && (text[0] == '/' || text[0] == '\\') ==> s'.current == q.root)
      && (text == [] || (text[0] != '/' && text[0] != '\\') ==> Some(s'.current) == q.rootObject)
      && var slash := rest != [] && text != [] && text[|text| - 1] != '/' && text[|text| - 1] != '\\';
         var full := if slash then text + "/" + rest else text + rest;
         Text(q, s') == full[..if |full| < 511 then |full| else 511]
  {
    s' := Resumed(q, s, m[s.current].kind.text);
    LinkTurn(m, q, s);
    ResolveNext(m, q, s, s');
    ResumedText(q, s, m[s.current].kind.text);
  }

  lemma ResumedText(q: Request, s: State, text: string)
    requires |s.buffer| == BUFFER && s.pos + s.len <= |Source(q, s)| && !s.inBuffer
    ensures var s' := Resumed(q, s, text);
      s'.pos + s'.len <= |Source(q, s')| && Text(q, s') == Cut(Linked(text, Text(q, Skip(q, s))))
  {
    LinkTextIs(q, s, text);
    SameText(q, LinkText(q, s, text), Resumed(q, s, text));
  }

  /** The remaining name depends on where it lies only. */
  lemma SameText(q: Request, s: State, t: State)
    requires s.pos + s.len <= |Source(q, s)| && t.inBuffer == s.inBuffer && t.pos == s.pos && t.len == s.len
    requires s.inBuffer ==> t.buffer == s.buffer
    ensures t.pos + t.len <= |Source(q, t)| && Text(q, t) == Text(q, s)
  {
  }

  /** The first link of a lookup: its text takes the place of the names that led to it, cut to the buffer. */
  lemma LinkTextIs(q: Request, s: State, text: string)
    requires |s.buffer| == BUFFER && s.pos + s.len <= |Source(q, s)| && !s.inBuffer
    ensures Text(q, LinkText(q, s, text)) == Cut(Linked(text, Text(q, Skip(q, s))))
  {
    var m := Min(|text|, BUFFER - 1);
    SkipElsewhere(q, s, Front(s, text).buffer);
    var s1, rest := Skip(q, Front(s, text)), Text(q, Skip(q, s));
    SameText(q, Skip(q, s), s1);
    NameJoined(q, s1, m);
    LeadIs(s1, text, rest) by { assert s1.buffer[..m] == text[..m]; }
    CutLinked(text, rest);
    assert LinkText(q, s, text) == Join(q, s1, m);
  }

  /** The front of the joined text: the link's text, and a slash if one is missing. */
  lemma LeadIs(s: State, text: string, rest: string)
    requires |s.buffer| == BUFFER && s.len == |rest| && s.buffer[..Min(|text|, BUFFER - 1)] == text[..Min(|text|, BUFFER - 1)]
    ensures WithSlash(s, Min(|text|, BUFFER - 1))[..RestAt(s, Min(|text|, BUFFER - 1))] == CutLead(text, rest)
  {
    var m := Min(|text|, BUFFER - 1);
    if m > 0 { assert s.buffer[..m][m - 1] == text[..m][m - 1]; }
  }

  /** The lead, cut to the buffer. */
  function CutLead(text: string, rest: string): string {
    if |text| < BUFFER - 1 then Lead(text, rest) else text[..BUFFER - 1]
  }

  lemma CutLinked(text: string, rest: string)
    ensures |CutLead(text, rest)| < BUFFER
    ensures Cut(Linked(text, rest)) == CutLead(text, rest) + rest[..Min(|rest|, BUFFER - 1 - |CutLead(text, rest)|)]
  {
  }

  /** What is joined: the front of the buffer with its slash, then what was copied. */
  lemma JoinText(q: Request, s: State, m: nat, copied: string)
    requires |s.buffer| == BUFFER && s.pos + s.len <= |Source(q, s)| && m < BUFFER && |copied| == RestRoom(s, m)
    requires forall i :: 0 <= i < |copied| ==> WithRest(q, s, m)[RestAt(s, m) + i] == copied[i]
    ensures Text(q, Join(q, s, m)) == WithSlash(s, m)[..RestAt(s, m)] + copied
  {
    var r, t, b := WithRest(q, s, m), RestAt(s, m), WithSlash(s, m);
    forall i | 0 <= i < t ensures r[i] == b[i] { }
    assert Text(q, Join(q, s, m)) == r[..t + |copied|];
  }

  lemma NameJoined(q: Request, s: State, m: nat)
    requires |s.buffer| == BUFFER && s.pos + s.len <= |Source(q, s)| && !s.inBuffer && m < BUFFER
    ensures Text(q, Join(q, s, m)) == WithSlash(s, m)[..RestAt(s, m)] + Text(q, s)[..RestRoom(s, m)]
  {
    var n := RestRoom(s, m);
    forall i | 0 <= i < n ensures WithRest(q, s, m)[RestAt(s, m) + i] == Text(q, s)[..n][i] {
      NameCopied(q, WithSlash(s, m), s.pos, RestAt(s, m), n, i);
    }
    JoinText(q, s, m, Text(q, s)[..n]);
  }

  /** While the remaining name is not in the buffer, the buffer does not matter. */
  lemma {:induction false} SkipElsewhere(q: Request, s: State, b: seq<char>)
    requires s.pos + s.len <= |Source(q, s)| && !s.inBuffer
    ensures Skip(q, s.(buffer := b)) == Skip(q, s).(buffer := b)
    decreases s.len
  {
    if s.len > 0 && IsSlash(Source(q, s)[s.pos]) {
      SkipElsewhere(q, Advance(s, 1), b);
      assert Advance(s, 1).(buffer := b) == Advance(s.(buffer := b), 1);
    }
  }

  // ---------------------------------------------------------------- links behind links

  /** A lookup meets a later link with the rest of the name already behind its slashes. */
  lemma LaterLinksSkipped(m: Objects, q: Request, s: State)
    requires Closed(m, q) && StateOK(m, q, s) && m[q.root].kind.Directory? && Step(m, q, s).Next?
    ensures var s' := Step(m, q, s).state; s'.current in m && m[s'.current].kind.Link? ==> Skip(q, s') == s'
  {
    if m[s.current].kind.Link? && m[s.current].kind.target.None? {
      RestartedAt(q, s, m[s.current].kind.text);
    }
  }

  /** The buffer holds at pos a rest of n characters that starts with none of the slashes. */
  ghost predicate Later(q: Request, s: State, text: string) {
    && |s.buffer| == BUFFER && s.pos + s.len <= BUFFER && s.inBuffer && s.len > 0 && !IsSlash(s.buffer[s.pos])
    && |Linked(text, Text(q, s))| < BUFFER
  }

  lemma FrontBytes(s: State, text: string)
    requires |s.buffer| == BUFFER && |text| < BUFFER
    ensures |Front(s, text).buffer| == BUFFER && Front(s, text).buffer[..|text|] == text
    ensures forall k :: 0 <= k < BUFFER ==> Front(s, text).buffer[k] == if k < |text| then text[k] else s.buffer[k]
  {
    assert text[..|text|] == text;
  }

  lemma NothingToSkip(q: Request, s: State)
    requires s.pos + s.len <= |Source(q, s)| && (s.len > 0 ==> !IsSlash(Source(q, s)[s.pos]))
    ensures Skip(q, s) == s
  {
  }

  /** The state behind the link's text, with the rest of the name where it was. */
  lemma TextInFront(q: Request, s: State, text: string) returns (s1: State)
    requires Later(q, s, text) && (|text| > s.pos ==> !IsSlash(text[s.pos]))
    ensures |s1.buffer| == BUFFER && |text| < BUFFER && s1 == s.(buffer := s1.buffer) && LinkText(q, s, text) == Join(q, s1, |text|)
    ensures s1.buffer[..|text|] == text
    ensures |text| <= s.pos ==> forall i :: 0 <= i < s.len ==> s1.buffer[s.pos + i] == Text(q, s)[i]
  {
    s1 := Front(s, text);
    FrontBytes(s, text);
    NothingToSkip(q, s1);
  }

  /** The slash, if one is needed, goes between text and rest too. */
  lemma FitsBefore(s: State, text: string, rest: string)
    requires |s.buffer| == BUFFER && |rest| == s.len > 0 && s.pos + s.len <= BUFFER
    requires |Lead(text, rest)| <= s.pos && |Lead(text, rest)| + |rest| < BUFFER && s.buffer[..|text|] == text
    requires forall i :: 0 <= i < s.len ==> s.buffer[s.pos + i] == rest[i]
    ensures var m, lead := |text|, Lead(text, rest);
      RestAt(s, m) == |lead| && RestRoom(s, m) == s.len && WithSlash(s, m)[..RestAt(s, m)] == lead
      && forall i :: 0 <= i < s.len ==> WithSlash(s, m)[s.pos + i] == rest[i]
  {
    assert text[..|text|] == text;
    LeadIs(s, text, rest);
  }

  /** A later link whose text fits in front of the rest of the name is replaced as the first one is. */
  lemma LaterLinkFits(q: Request, s: State, text: string)
    requires Later(q, s, text) && |Lead(text, Text(q, s))| <= s.pos
    ensures Text(q, LinkText(q, s, text)) == Linked(text, Text(q, s))
  {
    var rest := Text(q, s);
    var s1 := TextInFront(q, s, text);
    FitsBefore(s1, text, rest);
    RestMoved(q, s1, |text|, Lead(text, rest), rest);
  }

  lemma RestMoved(q: Request, s: State, m: nat, lead: string, rest: string)
    requires |s.buffer| == BUFFER && s.inBuffer && s.pos + s.len <= BUFFER && m < BUFFER && |rest| == s.len
    requires RestAt(s, m) <= s.pos && RestRoom(s, m) == s.len && WithSlash(s, m)[..RestAt(s, m)] == lead
    requires forall i :: 0 <= i < s.len ==> WithSlash(s, m)[s.pos + i] == rest[i]
    ensures Text(q, Join(q, s, m)) == lead + rest
  {
    forall i | 0 <= i < s.len ensures WithRest(q, s, m)[RestAt(s, m) + i] == rest[i] {
      CopiedDown(q, WithSlash(s, m), s.pos, RestAt(s, m), s.len, i);
    }
    JoinText(q, s, m, rest);
  }

  /** One whose text reaches into the rest of the name overwrites it before it is copied. */
  lemma LaterLinkOverwrites(q: Request, s: State, text: string)
    requires Later(q, s, text) && s.pos < |Lead(text, Text(q, s))| && s.buffer[s.pos] != Lead(text, Text(q, s))[s.pos]
    ensures Text(q, LinkText(q, s, text)) != Linked(text, Text(q, s))
  {
    var rest := Text(q, s);
    assert Linked(text, rest)[|Lead(text, rest)|] == rest[0] == s.buffer[s.pos];
    if |text| > s.pos && IsSlash(text[s.pos]) {
      OverwrittenShort(q, s, text);
    } else {
      OverwrittenAt(q, s, text);
    }
  }

  /** A slash of the text in the place of the first character makes the rest shorter. */
  lemma OverwrittenShort(q: Request, s: State, text: string)
    requires Later(q, s, text) && s.pos < |text| && IsSlash(text[s.pos])
    ensures |Text(q, LinkText(q, s, text))| < |Linked(text, Text(q, s))|
  {
    var m, s1 := |text|, Front(s, text);
    assert text[..m] == text && s1.buffer[..m] == text && s1.buffer[s.pos] == s1.buffer[..m][s.pos];
    assert Skip(q, s1) == Skip(q, Advance(s1, 1));
    LeadIs(s1, text, Text(q, s));
  }

  lemma OverwrittenAt(q: Request, s: State, text: string)
    requires Later(q, s, text) && s.pos < |Lead(text, Text(q, s))| && (|text| > s.pos ==> !IsSlash(text[s.pos]))
    ensures var t, j := |Lead(text, Text(q, s))|, LinkText(q, s, text);
      |Text(q, j)| > t && Text(q, j)[t] == Lead(text, Text(q, s))[s.pos]
  {
    var s1 := TextInFront(q, s, text);
    LeadOverwrites(s1, text, Text(q, s));
    FirstJoined(q, s1, |text|);
  }

  lemma FirstJoined(q: Request, s: State, m: nat)
    requires |s.buffer| == BUFFER && s.inBuffer && s.pos + s.len <= BUFFER && m < BUFFER && RestRoom(s, m) > 0
    ensures |Text(q, Join(q, s, m))| > RestAt(s, m) && Text(q, Join(q, s, m))[RestAt(s, m)] == WithSlash(s, m)[s.pos]
  {
    FirstCopied(q, true, WithSlash(s, m), s.pos, RestAt(s, m), RestRoom(s, m));
  }

  /** What stands where the rest began is now a character of the lead. */
  lemma LeadOverwrites(s: State, text: string, rest: string)
    requires |s.buffer| == BUFFER && |rest| == s.len > 0 && s.pos < |Lead(text, rest)| && |Lead(text, rest)| + |rest| < BUFFER
    requires s.buffer[..|text|] == text
    ensures RestAt(s, |text|) == |Lead(text, rest)| && RestRoom(s, |text|) == s.len
    ensures WithSlash(s, |text|)[s.pos] == Lead(text, rest)[s.pos]
  {
    assert text[..|text|] == text;
    LeadIs(s, text, rest);
    assert WithSlash(s, |text|)[..RestAt(s, |text|)][s.pos] == Lead(text, rest)[s.pos];
  }

  /** With this buffer, the link is replaced as it should be. */
  ghost predicate RightWith(q: Request, s: State, text: string, b: seq<char>) {
    Later(q, s.(buffer := b), text) ==>
      Text(q, LinkText(q, s.(buffer := b), text)) == Linked(text, Text(q, s.(buffer := b)))
  }

  /** So a later link is replaced rightly, whatever the buffer holds, exactly when its text fits in front of the rest. */
  lemma LaterLinkRight(q: Request, s: State, text: string)
    requires Later(q, s, text)
    ensures (forall b: seq<char> :: RightWith(q, s, text, b)) <==> |Lead(text, Text(q, s))| <= s.pos
  {
    if |Lead(text, Text(q, s))| <= s.pos {
      forall b: seq<char> ensures RightWith(q, s, text, b) {
        if Later(q, s.(buffer := b), text) { LaterLinkFits(q, s.(buffer := b), text); }
      }
    } else {
      var b := Spoiled(q, s, text);
    }
  }

  lemma Spoiled(q: Request, s: State, text: string) returns (b: seq<char>)
    requires Later(q, s, text) && s.pos < |Lead(text, Text(q, s))|
    ensures !RightWith(q, s, text, b)
  {
    b := s.buffer[s.pos := if Lead(text, Text(q, s))[s.pos] == 'a' then 'b' else 'a'];
    assert Later(q, s.(buffer := b), text);
    LaterLinkOverwrites(q, s.(buffer := b), text);
  }

  /** A directory with a link a to "/x", a link x to "/yz", and a directory yz that holds r. */
  function TwoLinks(): Objects {
    map[0 := Object(Directory([1, 2, 3]), 0, None),
        1 := Object(Link(None, "/x"), 1, Some(NameInfo("a", Some(0)))),
        2 := Object(Link(None, "/yz"), 1, Some(NameInfo("x", Some(0)))),
        3 := Object(Directory([4]), 0, Some(NameInfo("yz", Some(0)))),
        4 := Object(Plain, 2, Some(NameInfo("r", Some(3))))]
  }

  /** A lookup in it from the root, for an object of any type. */
  ghost predicate InTwoLinks(q: Request) { Closed(TwoLinks(), q) && q.root == 0 && q.rootObject == None && q.expected == None }

  lemma TwoLinksUnique()
    ensures Unique(TwoLinks(), [1, 2, 3]) && Unique(TwoLinks(), [4])
  {
    var m, entries := TwoLinks(), [1, 2, 3];
    forall i, j | 0 <= i < j < |entries| && NameOf(m, entries[i]).Some?
      ensures !EntryMatches(m, entries[j], NameOf(m, entries[i]).value, true) {
      assert !SameChar(NameOf(m, entries[j]).value[0], NameOf(m, entries[i]).value[0], true);
    }
  }

  /** An entry of a directory without doubles, with its name. */
  ghost predicate Entry(m: Objects, d: nat, x: nat, name: string) {
    && d in m && m[d].kind.Directory? && x in m[d].kind.entries && x in m && Unique(m, m[d].kind.entries)
    && NameOf(m, x) == Some(name) && Clean(name)
  }

  lemma TwoLinksEntries()
    ensures var m := TwoLinks();
      && Entry(m, 0, 1, "a") && Entry(m, 0, 2, "x") && Entry(m, 0, 3, "yz") && Entry(m, 3, 4, "r")
      && m[1].kind == Link(None, "/x") && m[2].kind == Link(None, "/yz") && m[3].kind.Directory? && m[4].kind == Plain
  {
    TwoLinksUnique();
    var entries := [1, 2, 3];
    assert entries[0] == 1 && entries[1] == 2 && entries[2] == 3;
  }

  /** One name down behind a slash, with something left behind the next. */
  lemma OneDown(m: Objects, q: Request, s: State, x: nat, name: string, rest: string) returns (s': State)
    requires Closed(m, q) && StateOK(m, q, s) && Entry(m, s.current, x, name)
    requires Text(q, s) == ['/'] + (name + (['/'] + rest)) && rest != [] && !IsSlash(rest[0])
    ensures StateOK(m, q, s') && Resolve(m, q, s) == Resolve(m, q, s')
    ensures s' == s.(current := x, pos := s'.pos, len := s'.len) && s'.pos + s'.len == s.pos + s.len
    ensures Text(q, s') == rest && Skip(q, s') == s'
  {
    SlashGone(q, s, '/', name + (['/'] + rest));
    StepDown(m, q, s, x, name, ['/'] + rest);
    var b := Behind(q, s, x, |name|);
    SlashGone(q, b, '/', rest);
    s' := Skip(q, b);
    ResolveNext(m, q, s, s');
  }

  lemma SlashGone(q: Request, s: State, c: char, t: string)
    requires s.pos + s.len <= |Source(q, s)| && Text(q, s) == [c] + t && IsSlash(c) && t != [] && !IsSlash(t[0])
    ensures Text(q, Skip(q, s)) == t && Skip(q, Skip(q, s)) == Skip(q, s)
  {
    assert Source(q, s)[s.pos] == Text(q, s)[0];
    assert Text(q, Advance(s, 1)) == Text(q, s)[1..] == t;
    assert Source(q, s)[s.pos + 1] == t[0];
  }

  /** A name, and the entry it stands for two directories down. */
  lemma TwoDown(m: Objects, q: Request, s: State, d: nat, up: string, x: nat, name: string)
    requires Closed(m, q) && StateOK(m, q, s) && Entry(m, s.current, d, up) && Entry(m, d, x, name) && !HasParse(m[x])
    requires Text(q, s) == ['/'] + (up + (['/'] + name))
    ensures Resolve(m, q, s) == Finish(m, q, x)
  {
    var s1 := OneDown(m, q, s, d, up, name);
    assert name + [] == name;
    StepDown(m, q, s1, x, name, []);
  }

  /** A name with nothing but slashes behind it is the directory's own. */
  lemma OnlySlashes(m: Objects, q: Request, s: State, d: nat, name: string)
    requires Closed(m, q) && StateOK(m, q, s) && Entry(m, s.current, d, name) && !HasParse(m[d])
    requires Text(q, s) == ['/'] + (name + ['/', '/'])
    ensures Resolve(m, q, s) == Finish(m, q, d)
  {
    SlashGone(q, s, '/', name + ['/', '/']);
    StepDown(m, q, s, d, name, ['/', '/']);
    SlashesGone(q, Behind(q, s, d, |name|));
  }

  lemma SlashesGone(q: Request, b: State)
    requires b.pos + b.len <= |Source(q, b)| && Text(q, b) == ['/', '/']
    ensures Skip(q, b).len == 0
  {
    assert Source(q, b)[b.pos] == Text(q, b)[0] && Source(q, b)[b.pos + 1] == Text(q, b)[1];
    assert Skip(q, b) == Skip(q, Advance(b, 1)) == Skip(q, Advance(Advance(b, 1), 1));
  }

  /** The second link is met with "/x/r" in the buffer, and its text is written over it: "/yz//" is left. */
  lemma SecondText(q: Request, s: State)
    requires s.inBuffer && |s.buffer| == BUFFER && s.pos == 3 && s.len == 1 && s.buffer[3] == 'r'
    ensures Text(q, LinkText(q, s, "/yz")) == "/yz//"
  {
    var s1, text := Front(s, "/yz"), "/yz";
    FrontBytes(s, text);
    NothingToSkip(q, s1);
    assert s1.buffer[..3][2] == text[2] && NeedsSlash(s1, 3) && RestAt(s1, 3) == 4 && RestRoom(s1, 3) == 1;
    var b := WithSlash(s1, 3);
    assert CopyRest(q, true, b[4 := b[3]], 4, 5, 0) == b[4 := b[3]];
    assert WithRest(q, s1, 3) == b[4 := b[3]];
    assert s1.buffer[..3] == text;
    assert Join(q, s1, 3).buffer[..5] == "/yz//";
  }

  /** A lookup that meets its first link, with an absolute text, in the root directory. */
  lemma FirstLink(m: Objects, q: Request, buffer: seq<char>, x: nat, name: string, text: string, rest: string) returns (s: State)
    requires Closed(m, q) && |buffer| == BUFFER && q.rootObject == None && Entry(m, q.root, x, name)
    requires m[x].kind == Link(None, text) && !Relative(text) && |Linked(text, rest)| < BUFFER
    requires q.name == ['/'] + (name + (['/'] + rest)) && rest != [] && !IsSlash(rest[0])
    ensures StateOK(m, q, Start(q, buffer)) && StateOK(m, q, s) && Resolve(m, q, Start(q, buffer)) == Resolve(m, q, s)
    ensures s.current == q.root && s.inBuffer && s.pos == 0 && s.count == 1 && Text(q, s) == Linked(text, rest)
  {
    var s1 := OneDown(m, q, Start(q, buffer), x, name, rest);
    LinkTurn(m, q, s1);
    s := Resumed(q, s1, text);
    ResolveNext(m, q, s1, s);
    ResumedText(q, s1, text);
  }

  /** Then the second one: only its text and the rest of the name matter, and where that rest stands. */
  lemma SecondLink(m: Objects, q: Request, s: State, x: nat, name: string, text: string, rest: string) returns (s1: State, s2: State)
    requires Closed(m, q) && StateOK(m, q, s) && s.inBuffer && s.pos == 0 && s.count == 1 && q.rootObject == None
    requires s.current == q.root && Entry(m, q.root, x, name) && m[x].kind == Link(None, text) && !Relative(text)
    requires Text(q, s) == ['/'] + (name + (['/'] + rest)) && rest != [] && !IsSlash(rest[0])
    ensures s1.inBuffer && |s1.buffer| == BUFFER && s1.pos == |name| + 2 && s1.len == |rest| && s1.pos + s1.len <= BUFFER
    ensures s1.buffer[s1.pos] == rest[0]
    ensures StateOK(m, q, s2) && Resolve(m, q, s) == Resolve(m, q, s2) && s2.current == q.root
    ensures Text(q, s2) == Text(q, LinkText(q, s1, text))
  {
    s1 := OneDown(m, q, s, x, name, rest);
    assert s1.buffer[s1.pos] == Text(q, s1)[0];
    LinkTurn(m, q, s1);
    s2 := Resumed(q, s1, text);
    ResolveNext(m, q, s1, s2);
    SameText(q, LinkText(q, s1, text), s2);
  }

  /** "/x/r" is r. */
  lemma OneLinkRight(q: Request, buffer: seq<char>)
    requires InTwoLinks(q) && q.name == "/x/r" && |buffer| == BUFFER
    ensures StateOK(TwoLinks(), q, Start(q, buffer)) && Resolve(TwoLinks(), q, Start(q, buffer)) == Found(4)
  {
    TwoLinksEntries();
    assert "/x/r" == ['/'] + ("x" + (['/'] + "r")) && Linked("/yz", "r") == ['/'] + ("yz" + (['/'] + "r"));
    var s := FirstLink(TwoLinks(), q, buffer, 2, "x", "/yz", "r");
    TwoDown(TwoLinks(), q, s, 3, "yz", 4, "r");
  }

  lemma TwoLinksWrong(q: Request, buffer: seq<char>)
    requires InTwoLinks(q) && q.name == "/a/r" && |buffer| == BUFFER
    ensures StateOK(TwoLinks(), q, Start(q, buffer)) && Resolve(TwoLinks(), q, Start(q, buffer)) == Found(3)
  {
    TwoLinksEntries();
    assert "/a/r" == ['/'] + ("a" + (['/'] + "r")) && Linked("/x", "r") == ['/'] + ("x" + (['/'] + "r"));
    var s := FirstLink(TwoLinks(), q, buffer, 1, "a", "/x", "r");
    SecondWrong(TwoLinks(), q, s, 2, 3);
  }

  /** A second link, x to "/yz", met with "/x/r" in the buffer: the lookup ends at yz. */
  lemma SecondWrong(m: Objects, q: Request, s: State, x: nat, yz: nat)
    requires Closed(m, q) && StateOK(m, q, s) && s.inBuffer && s.pos == 0 && s.count == 1 && q.rootObject == None
    requires s.current == q.root && Entry(m, q.root, x, "x") && m[x].kind == Link(None, "/yz")
    requires Entry(m, q.root, yz, "yz") && !HasParse(m[yz]) && Text(q, s) == ['/'] + ("x" + (['/'] + "r"))
    ensures Resolve(m, q, s) == Finish(m, q, yz)
  {
    var name, text, rest := "x", "/yz", "r";
    assert |name| == 1 && |rest| == 1 && rest[0] == 'r';
    var s1, s2 := SecondLink(m, q, s, x, name, text, rest);
    SecondText(q, s1);
    AtYz(m, q, s2, yz);
  }

  lemma AtYz(m: Objects, q: Request, s: State, yz: nat)
    requires Closed(m, q) && StateOK(m, q, s) && Entry(m, s.current, yz, "yz") && !HasParse(m[yz]) && Text(q, s) == "/yz//"
    ensures Resolve(m, q, s) == Finish(m, q, yz)
  {
    assert "/yz//" == ['/'] + ("yz" + ['/', '/']);
    OnlySlashes(m, q, s, yz, "yz");
  }

  /** A link behind a link, looked up wrongly: "/x/r" leads to r, and a stands for "/x", but "/a/r" leads to the directory
      that holds r. */
  lemma LaterLinkSpoilt(q: Request, q': Request, buffer: seq<char>)
    requires InTwoLinks(q) && q.name == "/x/r" && q' == q.(name := "/a/r") && |buffer| == BUFFER
    ensures var m := TwoLinks();
      && Closed(m, q') && StateOK(m, q, Start(q, buffer)) && StateOK(m, q', Start(q', buffer))
      && Resolve(m, q, Start(q, buffer)) == Found(4) && Resolve(m, q', Start(q', buffer)) == Found(3)
  {
    OneLinkRight(q, buffer);
    assert InTwoLinks(q');
    TwoLinksWrong(q', buffer);
  }

  lemma {:induction false} CopiedDown(q: Request, b: seq<char>, from: nat, to: nat, n: nat, i: nat)
    requires from + n <= |b| && to <= from && i < n
    ensures CopyRest(q, true, b, from, to, n)[to + i] == b[from + i]
    decreases n
  {
    if i > 0 { CopiedDown(q, b[to := b[from]], from + 1, to + 1, n - 1, i - 1); }
  }

  // ---------------------------------------------------------------- full names

  /** Climbing from an object to its directory ends. */
  ghost predicate Ranked(m: Objects, rank: map<nat, nat>) {
    forall x :: x in m && m[x].info.Some? && m[x].info.value.directory.Some? ==>
      && m[x].info.value.directory.value in m && x in rank && m[x].info.value.directory.value in rank
      && rank[m[x].info.value.directory.value] < rank[x]
  }

  function RankOf(rank: map<nat, nat>, p: Option<nat>): nat {
    if p.None? then 0 else if p.value in rank then rank[p.value] + 1 else 1
  }

  /** What is printed in front of a name: the names above, or "..." where a directory has none. */
  ghost function Above(m: Objects, root: nat, rank: map<nat, nat>, p: Option<nat>): string
    requires Ranked(m, rank)
    decreases RankOf(rank, p)
  {
    if p.None? || p.value == root || p.value !in m then [] else
    var o := m[p.value];
    if o.info.Some? then Above(m, root, rank, o.info.value.directory) + ['\\'] + o.info.value.name else "\\..."
  }

  ghost function FullName(m: Objects, root: nat, rank: map<nat, nat>, x: nat): string
    requires Ranked(m, rank) && x in m
  {
    if x == root then ['\\'] else if m[x].info.None? then [] else
    Above(m, root, rank, m[x].info.value.directory) + ['\\'] + m[x].info.value.name
  }

  /** The names below position i, each behind a backslash. */
  function Slashed(names: seq<string>): string {
    if names == [] then [] else Slashed(names[..|names| - 1]) + ['\\'] + names[|names| - 1]
  }

  lemma {:induction false} SlashedFront(name: string, names: seq<string>)
    ensures Slashed([name] + names) == ['\\'] + name + Slashed(names)
    decreases |names|
  {
    var all := [name] + names;
    if names == [] {
      assert all == [name] && all[..0] == [] && Slashed(all) == Slashed(all[..0]) + ['\\'] + name;
    } else {
      var n := |names| - 1;
      assert all[..n + 1] == [name] + names[..n] && all[n + 1] == names[n];
      SlashedFront(name, names[..n]);
    }
  }

  lemma {:induction false} SlashedJoined(names: seq<string>)
    requires names != []
    ensures Slashed(names) == ['\\'] + Joined(names)
    decreases |names|
  {
    assert names == [names[0]] + names[1..];
    SlashedFront(names[0], names[1..]);
    if |names| > 1 { SlashedJoined(names[1..]); }
  }

  /** What is printed above the object at the end of a path is the path's names. */
  lemma {:induction false} FullNameOfPath(m: Objects, root: nat, rank: map<nat, nat>, path: seq<nat>)
    requires PathTo(m, root, path) && Ranked(m, rank)
    ensures path[|path| - 1] in m
    ensures |path| == 1 ==> FullName(m, root, rank, path[|path| - 1]) == ['\\']
    ensures |path| > 1 ==> FullName(m, root, rank, path[|path| - 1]) == Slashed(NamesBelow(m, path, 0))
    ensures |path| > 1 ==> Above(m, root, rank, Some(path[|path| - 1])) == Slashed(NamesBelow(m, path, 0))
    decreases |path|
  {
    if |path| > 1 {
      var n := |path| - 2;
      assert LinkDown(m, root, path, n);
      PathFront(m, root, path);
      FullNameOfPath(m, root, rank, path[..n + 1]);
      NamesBelowFront(m, path, 0);
    }
  }

  lemma PathFront(m: Objects, root: nat, path: seq<nat>)
    requires PathTo(m, root, path) && |path| > 1
    ensures PathTo(m, root, path[..|path| - 1])
  {
    var front := path[..|path| - 1];
    forall i | 0 <= i < |front| - 1 ensures LinkDown(m, root, front, i) { assert LinkDown(m, root, path, i); }
  }

  lemma {:induction false} NamesBelowFront(m: Objects, path: seq<nat>, i: nat)
    requires i + 1 < |path|
    ensures var front := path[..|path| - 1];
      NamesBelow(m, path, i)[..|path| - 2 - i] == NamesBelow(m, front, i)
      && NamesBelow(m, path, i)[|path| - 2 - i] == (if NameOf(m, path[|path| - 1]).Some? then NameOf(m, path[|path| - 1]).value else [])
    decreases |path| - i
  {
    if i + 2 < |path| { NamesBelowFront(m, path, i + 1); }
  }

  /** The name an object prints, looked up from the root, leads to that object; of another type than the one expected, it is
      refused. */
  lemma NameRoundTrip(m: Objects, q: Request, s: State, rank: map<nat, nat>, path: seq<nat>)
    requires Closed(m, q) && StateOK(m, q, s) && PathTo(m, q.root, path) && Ranked(m, rank) && m[q.root].kind.Directory?
    requires s.current == q.root && path[|path| - 1] in m && !HasParse(m[path[|path| - 1]])
    requires Text(q, s) == FullName(m, q.root, rank, path[|path| - 1])
    ensures var x := path[|path| - 1];
      Resolve(m, q, s) == if q.expected.None? || m[x].typ == q.expected.value then Found(x) else TypeMismatch
  {
    FullNameOfPath(m, q.root, rank, path);
    if |path| > 1 { SlashedJoined(NamesBelow(m, path, 0)); }
    PrintedNameResolves(m, q, s, path);
  }
}
