/** The access check (veakrnl/sf/acheck.c): a walk over the access list that means "the first entry naming a right decides
    it". A 32-bit mask is the set of its bit numbers: the code only takes bitwise and, or and complement of masks. */
module AccessCheck {
  import opened Wrappers

  datatype Sid = Sid(revision: nat, authority: nat, machine: nat, user: nat)

  type Right = b: nat | b < 32
  type Mask = set<Right>

  /** An access control entry; entries of other types are passed over. */
  datatype AceType = Allow | Deny | Other
  datatype Ace = Ace(kind: AceType, mask: Mask, target: Sid)

  datatype Token = Token(user: Sid, groups: Option<seq<Option<Sid>>>)

  datatype Mapping = Mapping(read: Mask, write: Mask, execute: Mask, all: Mask)

  const GENERIC_READ: Right := 31
  const GENERIC_WRITE: Right := 30
  const GENERIC_EXECUTE: Right := 29
  const GENERIC_ALL: Right := 28

  /** A token stands for its user and for its groups. */
  predicate IsMember(t: Token, s: Sid) {
    t.user == s || (t.groups.Some? && exists i :: 0 <= i < |t.groups.value| && t.groups.value[i] == Some(s))
  }

  datatype Verdict = Undecided | Granted | Refused

  /** What one entry says about one right. */
  function Says(a: Ace, t: Token, b: Right): Verdict {
    if !IsMember(t, a.target) || b !in a.mask then Undecided
    else match a.kind case Allow => Granted case Deny => Refused case Other => Undecided
  }

  /** The first entry that names the caller and the right decides. */
  function Decision(aces: seq<Ace>, t: Token, b: Right): Verdict {
    if aces == [] then Undecided
    else if Says(aces[0], t, b) != Undecided then Says(aces[0], t, b)
    else Decision(aces[1..], t, b)
  }

  /** Every requested right is granted by the entry that decides it. */
  ghost predicate AllGranted(aces: seq<Ace>, t: Token, mask: Mask) {
    forall b :: b in mask ==> Decision(aces, t, b) == Granted
  }

  // ---------------------------------------------------------------- generic rights

  /** The generic rights are replaced in this order: read, write, execute, all. */
  function Generic(i: nat): Right
    requires i < 4
  {
    31 - i
  }

  function StandsFor(g: Mapping, i: nat): Mask {
    match i case 0 => g.read case 1 => g.write case 2 => g.execute case _ => g.all
  }

  /** The i-th generic right is asked for, or what an earlier one stands for holds it. */
  ghost predicate Reached(mask: Mask, g: Mapping, i: nat)
    requires i < 4
  {
    Generic(i) in mask || exists j {:trigger Reached(mask, g, j)} :: 0 <= j < i && Reached(mask, g, j) && Generic(i) in StandsFor(g, j)
  }

  /** b comes in through the i-th generic right and is none of the next ones up to the n-th, which are replaced later. */
  ghost predicate BroughtBy(mask: Mask, g: Mapping, n: nat, i: nat, b: Right)
    requires i < 4 && n <= 4
  {
    Reached(mask, g, i) && b in StandsFor(g, i) && forall k :: i < k < n ==> b != Generic(k)
  }

  /** The rights after n replacements: those asked for that are none of the first n generic ones, and what those bring in. */
  ghost predicate YieldsAfter(mask: Mask, g: Mapping, n: nat, b: Right)
    requires n <= 4
  {
    (b in mask && forall k :: 0 <= k < n ==> b != Generic(k))
    || exists i {:trigger BroughtBy(mask, g, n, i, b)} :: 0 <= i < n && BroughtBy(mask, g, n, i, b)
  }

  /** The rights a request ends up with: the specific ones asked for, and what reached generic rights bring in. */
  ghost predicate Yields(mask: Mask, g: Mapping, b: Right) {
    (b in mask && b !in GENERIC) || exists i {:trigger BroughtBy(mask, g, 4, i, b)} :: 0 <= i < 4 && BroughtBy(mask, g, 4, i, b)
  }

  ghost function Mapped(mask: Mask, g: Mapping): Mask {
    set b: nat | b < 32 && Yields(mask, g, b)
  }

  /** SfMapGenericMask, which works in place in the source. Without a mapping nothing changes; with any mapping the
      result holds the specific rights requested and whatever the generic rights reached bring in. */
  method MapGenericMask(mask: Mask, mapping: Option<Mapping>) returns (r: Mask)
    ensures mapping.None? ==> r == mask
    ensures mapping.Some? ==> r == Mapped(mask, mapping.value)
    ensures mapping.Some? && Specific(mapping.value) ==> r == Meaning(mask, mapping.value) && r !! GENERIC
    // right by right, when no generic right (28 to 31) stands for another
    ensures mapping.Some? ==>
      var g := mapping.value;
      (forall b :: b in g.read + g.write + g.execute + g.all ==> b < 28) ==> forall b: Right :: b in r <==>
        || (b in mask && b < 28)
        || (31 in mask && b in g.read) || (30 in mask && b in g.write)
        || (29 in mask && b in g.execute) || (28 in mask && b in g.all)
  {
    r := mask;
    if mapping.None? { return; }
    var g := mapping.value;
    if GENERIC_READ in r {
      r := r - {GENERIC_READ};
      r := r + g.read;
    }
    if GENERIC_WRITE in r {
      r := r - {GENERIC_WRITE};
      r := r + g.write;
    }
    if GENERIC_EXECUTE in r {
      r := r - {GENERIC_EXECUTE};
      r := r + g.execute;
    }
    if GENERIC_ALL in r {
      r := r - {GENERIC_ALL};
      r := r + g.all;
    }
    ReplacedInOrder(mask, g, r);
    if Specific(g) { MappedMeaning(mask, g); }
    SpecificIs(mask, g);
  }

  const GENERIC: Mask := {GENERIC_READ, GENERIC_WRITE, GENERIC_EXECUTE, GENERIC_ALL}

  predicate Specific(g: Mapping) { g.read + g.write + g.execute + g.all !! GENERIC }

  lemma SpecificIs(mask: Mask, g: Mapping)
    ensures Specific(g) <==> forall b :: b in g.read + g.write + g.execute + g.all ==> b < 28
    ensures forall b: Right :: b in Meaning(mask, g) <==>
      || (b in mask && b < 28)
      || (31 in mask && b in g.read) || (30 in mask && b in g.write) || (29 in mask && b in g.execute) || (28 in mask && b in g.all)
  {
    forall b: Right ensures b in GENERIC <==> b >= 28 {}
  }

  /** What a request means: its specific rights, and what its generic rights stand for. */
  function Meaning(mask: Mask, g: Mapping): Mask {
    (mask - GENERIC) + (if GENERIC_READ in mask then g.read else {}) + (if GENERIC_WRITE in mask then g.write else {})
    + (if GENERIC_EXECUTE in mask then g.execute else {}) + (if GENERIC_ALL in mask then g.all else {})
  }

  /** One generic right replaced by what it stands for. */
  function Replace(mask: Mask, generic: Right, specific: Mask): Mask {
    if generic in mask then (mask - {generic}) + specific else mask
  }

  ghost predicate After(mask: Mask, g: Mapping, n: nat, r: Mask)
    requires n <= 4
  {
    forall b: Right :: b in r <==> YieldsAfter(mask, g, n, b)
  }

  lemma YieldsNext(mask: Mask, g: Mapping, n: nat, b: Right)
    requires n < 4
    ensures b == Generic(n) ==> (YieldsAfter(mask, g, n + 1, b) <==> Reached(mask, g, n) && b in StandsFor(g, n))
    ensures b != Generic(n) ==>
      (YieldsAfter(mask, g, n + 1, b) <==> YieldsAfter(mask, g, n, b) || (Reached(mask, g, n) && b in StandsFor(g, n)))
  {
    assert BroughtBy(mask, g, n + 1, n, b) <==> Reached(mask, g, n) && b in StandsFor(g, n);
    forall i | 0 <= i < n ensures BroughtBy(mask, g, n + 1, i, b) <==> BroughtBy(mask, g, n, i, b) && b != Generic(n) { }
    if b != Generic(n) {
      var next := n + 1;
      if i :| 0 <= i < next && BroughtBy(mask, g, next, i, b) {
        assert i < n ==> BroughtBy(mask, g, n, i, b);
      }
      if YieldsAfter(mask, g, n, b) {
        if i :| 0 <= i < n && BroughtBy(mask, g, n, i, b) {
          assert BroughtBy(mask, g, n + 1, i, b);
        } else {
          assert b in mask && forall k :: 0 <= k < n + 1 ==> b != Generic(k);
        }
        assert YieldsAfter(mask, g, n + 1, b);
      }
    }
  }

  lemma ReachedIs(mask: Mask, g: Mapping, n: nat)
    requires n < 4
    ensures Reached(mask, g, n) <==> YieldsAfter(mask, g, n, Generic(n))
  {
    if Reached(mask, g, n) && Generic(n) !in mask {
      var j :| 0 <= j < n && Reached(mask, g, j) && Generic(n) in StandsFor(g, j);
      assert BroughtBy(mask, g, n, j, Generic(n));
    }
  }

  lemma ReplaceNext(mask: Mask, g: Mapping, n: nat, r: Mask)
    requires n < 4 && After(mask, g, n, r)
    ensures After(mask, g, n + 1, Replace(r, Generic(n), StandsFor(g, n)))
  {
    ReachedIs(mask, g, n);
    forall b: Right ensures b in Replace(r, Generic(n), StandsFor(g, n)) <==> YieldsAfter(mask, g, n + 1, b) {
      YieldsNext(mask, g, n, b);
    }
  }

  lemma ReplacedInOrder(mask: Mask, g: Mapping, r: Mask)
    requires r == Replace(Replace(Replace(Replace(mask, GENERIC_READ, g.read), GENERIC_WRITE, g.write), GENERIC_EXECUTE, g.execute),
                          GENERIC_ALL, g.all)
    ensures r == Mapped(mask, g)
  {
    var r1 := Replace(mask, Generic(0), g.read);
    var r2 := Replace(r1, Generic(1), g.write);
    var r3 := Replace(r2, Generic(2), g.execute);
    ReplaceNext(mask, g, 0, mask);
    ReplaceNext(mask, g, 1, r1);
    ReplaceNext(mask, g, 2, r2);
    ReplaceNext(mask, g, 3, r3);
    AfterAll(mask, g, r);
  }

  lemma AfterAll(mask: Mask, g: Mapping, r: Mask)
    requires After(mask, g, 4, r)
    ensures r == Mapped(mask, g)
  {
    forall b: Right ensures b in r <==> Yields(mask, g, b) {
      assert b in GENERIC ==> b == Generic(31 - b);
      assert forall k :: 0 <= k < 4 ==> Generic(k) in GENERIC;
    }
  }

  /** Under a mapping to specific rights, replacing one generic right after the other gives the meaning, and leaves no
      generic right. */
  lemma MappedMeaning(mask: Mask, g: Mapping)
    requires Specific(g)
    ensures Mapped(mask, g) == Meaning(mask, g) && Mapped(mask, g) !! GENERIC
  {
    forall i | 0 <= i < 4 ensures Reached(mask, g, i) <==> Generic(i) in mask {
      assert Generic(i) in GENERIC;
    }
    forall b: Right ensures b in Mapped(mask, g) <==> b in Meaning(mask, g) {
      forall i | 0 <= i < 4 ensures BroughtBy(mask, g, 4, i, b) <==> Generic(i) in mask && b in StandsFor(g, i) {
        assert forall k :: 0 <= k < 4 ==> Generic(k) in GENERIC;
      }
      assert BroughtBy(mask, g, 4, 0, b) || BroughtBy(mask, g, 4, 1, b) || BroughtBy(mask, g, 4, 2, b) || BroughtBy(mask, g, 4, 3, b)
        <==> exists i :: 0 <= i < 4 && BroughtBy(mask, g, 4, i, b);
    }
  }

  // ---------------------------------------------------------------- the walk

  /** SfpMatchSidWithToken: the token's user, or one of its groups. */
  method MatchSid(t: Token, s: Sid) returns (r: bool)
    ensures r <==> t.user == s || (t.groups.Some? && Some(s) in t.groups.value)
    ensures r <==> IsMember(t, s)
  {
    if t.user == s { return true; }
    if t.groups.Some? {
      var groups, i := t.groups.value, 0;
      while i < |groups|
        invariant 0 <= i <= |groups| && forall k :: 0 <= k < i ==> groups[k] != Some(s)
      {
        if groups[i].Some? && groups[i].value == s { return true; }
        i := i + 1;
      }
    }
    return false;
  }

  lemma MemberIs(t: Token, s: Sid)
    ensures IsMember(t, s) <==> t.user == s || (t.groups.Some? && Some(s) in t.groups.value)
  {
  }

  /** A right is granted when an entry for the caller allows it and none in front of that one denies it. */
  lemma {:induction false} GrantedIs(aces: seq<Ace>, t: Token, b: Right)
    ensures Decision(aces, t, b) == Granted <==>
      exists k :: 0 <= k < |aces| && aces[k].kind.Allow? && b in aces[k].mask && IsMember(t, aces[k].target)
                  && forall j :: 0 <= j < k && aces[j].kind.Deny? && b in aces[j].mask ==> !IsMember(t, aces[j].target)
    decreases |aces|
  {
    if aces != [] {
      var rest := aces[1..];
      GrantedIs(rest, t, b);
      if Says(aces[0], t, b) == Undecided {
        if Decision(rest, t, b) == Granted {
          var k :| 0 <= k < |rest| && rest[k].kind.Allow? && b in rest[k].mask && IsMember(t, rest[k].target)
                   && forall j :: 0 <= j < k && rest[j].kind.Deny? && b in rest[j].mask ==> !IsMember(t, rest[j].target);
          assert aces[k + 1] == rest[k];
          assert forall j :: 0 < j < k + 1 ==> aces[j] == rest[j - 1];
        } else {
          forall k | 0 <= k < |aces| && aces[k].kind.Allow? && b in aces[k].mask && IsMember(t, aces[k].target)
            ensures exists j :: 0 <= j < k && aces[j].kind.Deny? && b in aces[j].mask && IsMember(t, aces[j].target)
          {
            assert k > 0 && aces[k] == rest[k - 1];
            var j :| 0 <= j < k - 1 && rest[j].kind.Deny? && b in rest[j].mask && IsMember(t, rest[j].target);
            assert aces[j + 1] == rest[j];
          }
        }
      }
    }
  }

  lemma AllGrantedIs(aces: seq<Ace>, t: Token, mask: Mask)
    ensures AllGranted(aces, t, mask) <==>
      forall b :: b in mask ==>
        exists k :: 0 <= k < |aces| && aces[k].kind.Allow? && b in aces[k].mask
          && (t.user == aces[k].target || (t.groups.Some? && Some(aces[k].target) in t.groups.value))
          && forall j :: 0 <= j < k && aces[j].kind.Deny? && b in aces[j].mask ==>
               t.user != aces[j].target && (t.groups.None? || Some(aces[j].target) !in t.groups.value)
  {
    forall s ensures IsMember(t, s) <==> t.user == s || (t.groups.Some? && Some(s) in t.groups.value) { MemberIs(t, s); }
    forall b | b in mask ensures Decision(aces, t, b) == Granted <==>
      exists k :: 0 <= k < |aces| && aces[k].kind.Allow? && b in aces[k].mask
        && (t.user == aces[k].target || (t.groups.Some? && Some(aces[k].target) in t.groups.value))
        && forall j :: 0 <= j < k && aces[j].kind.Deny? && b in aces[j].mask ==>
             t.user != aces[j].target && (t.groups.None? || Some(aces[j].target) !in t.groups.value)
    {
      GrantedIs(aces, t, b);
    }
  }

  lemma {:induction false} DecisionPrefix(aces: seq<Ace>, t: Token, b: Right, n: nat)
    requires n < |aces|
    ensures Decision(aces[..n + 1], t, b) == (if Decision(aces[..n], t, b) != Undecided then Decision(aces[..n], t, b)
                                              else Says(aces[n], t, b))
    ensures Decision(aces[..n], t, b) != Undecided ==> Decision(aces, t, b) == Decision(aces[..n], t, b)
    decreases |aces|
  {
    if n == 0 {
      assert aces[..1] == [aces[0]] && aces[..1][1..] == [];
    } else {
      assert aces[..n + 1][1..] == aces[1..][..n] && aces[..n][1..] == aces[1..][..n - 1];
      DecisionPrefix(aces[1..], t, b, n - 1);
    }
  }

  /** After n entries none has refused a right still wanted; those no longer in `remaining` are granted. */
  ghost predicate Walked(aces: seq<Ace>, t: Token, mask: Mask, n: nat, remaining: Mask, granted: Mask) {
    && n <= |aces| && granted == mask - remaining && remaining <= mask
    && forall b :: b in mask ==> Decision(aces[..n], t, b) == (if b in remaining then Undecided else Granted)
  }

  /** One entry that refuses nothing still wanted: what it allows is no longer wanted. */
  lemma WalkOn(aces: seq<Ace>, t: Token, mask: Mask, n: nat, remaining: Mask, granted: Mask, matched: Mask)
    requires Walked(aces, t, mask, n, remaining, granted) && n < |aces|
    requires matched == if IsMember(t, aces[n].target) && aces[n].kind.Allow? then remaining * aces[n].mask else {}
    requires IsMember(t, aces[n].target) && aces[n].kind.Deny? ==> remaining * aces[n].mask == {}
    ensures Walked(aces, t, mask, n + 1, remaining - matched, granted + matched)
  {
    forall b | b in mask
      ensures Decision(aces[..n + 1], t, b) == (if b in remaining - matched then Undecided else Granted)
    {
      DecisionPrefix(aces, t, b, n);
      assert b in remaining && b in aces[n].mask <==> b in remaining * aces[n].mask;
    }
  }

  lemma WalkDeny(aces: seq<Ace>, t: Token, mask: Mask, n: nat, remaining: Mask, granted: Mask)
    requires Walked(aces, t, mask, n, remaining, granted) && n < |aces|
    requires aces[n].kind.Deny? && IsMember(t, aces[n].target) && remaining * aces[n].mask != {}
    ensures !AllGranted(aces, t, mask)
  {
    var b :| b in remaining * aces[n].mask;
    DecisionPrefix(aces, t, b, n);
    if n + 1 < |aces| { DecisionPrefix(aces, t, b, n + 1); } else { assert aces[..n + 1] == aces; }
  }

  lemma WalkDone(aces: seq<Ace>, t: Token, mask: Mask, n: nat, remaining: Mask, granted: Mask)
    requires Walked(aces, t, mask, n, remaining, granted) && (remaining == {} || n == |aces|)
    ensures AllGranted(aces, t, mask) <==> remaining == {}
    ensures remaining == {} ==> granted == mask
  {
    if remaining == {} {
      forall b | b in mask ensures Decision(aces, t, b) == Granted {
        if n < |aces| { DecisionPrefix(aces, t, b, n); } else { assert aces[..n] == aces; }
      }
    } else {
      var b :| b in remaining;
      assert aces[..n] == aces;
    }
  }

  /** SfAccessCheck: with an access list, access is granted exactly when the first entry naming each requested right
      grants it, and then the granted mask is the request. */
  method Check(acl: Option<seq<Ace>>, token: Option<Token>, desired: Mask, mapping: Option<Mapping>)
    returns (ok: bool, granted: Mask)
    ensures var mask := if mapping.Some? then Mapped(desired, mapping.value) else desired;
      && (ok <==> token.Some? && (mask == {} || acl.None? || AllGranted(acl.value, token.value, mask)))
      && granted == if ok then mask else {}
    // right by right: an entry for the caller allows it, and none in front of that one denies it
    ensures token.Some? && acl.Some? ==>
      var mask, aces, t := if mapping.Some? then Mapped(desired, mapping.value) else desired, acl.value, token.value;
      ok <==> forall b :: b in mask ==>
        exists k :: 0 <= k < |aces| && aces[k].kind.Allow? && b in aces[k].mask
          && (t.user == aces[k].target || (t.groups.Some? && Some(aces[k].target) in t.groups.value))
          && forall j :: 0 <= j < k && aces[j].kind.Deny? && b in aces[j].mask ==>
               t.user != aces[j].target && (t.groups.None? || Some(aces[j].target) !in t.groups.value)
  {
    ok, granted := Walk(acl, token, desired, mapping);
    if token.Some? && acl.Some? {
      AllGrantedIs(acl.value, token.value, if mapping.Some? then Mapped(desired, mapping.value) else desired);
    }
  }

  /** The checks and the loop of SfAccessCheck. */
  method Walk(acl: Option<seq<Ace>>, token: Option<Token>, desired: Mask, mapping: Option<Mapping>)
    returns (ok: bool, granted: Mask)
    ensures var mask := if mapping.Some? then Mapped(desired, mapping.value) else desired;
      && (ok <==> token.Some? && (mask == {} || acl.None? || AllGranted(acl.value, token.value, mask)))
      && granted == if ok then mask else {}
  {
    if token.None? { return false, {}; }
    var mask := MapGenericMask(desired, mapping);
    if mask == {} { return true, {}; }
    if acl.None? { return true, mask; }
    var aces, t := acl.value, token.value;
    var remaining, local, i := mask, {}, 0;
    assert aces[..0] == [];
    if |aces| == 0 {
      WalkDone(aces, t, mask, 0, mask, {});
      return false, {};
    }
    while i < |aces|
      invariant 0 <= i <= |aces| && Walked(aces, t, mask, i, remaining, local)
    {
      var member := MatchSid(t, aces[i].target);
      var matched: Mask := {};
      if member {
        if aces[i].kind.Deny? {
          if remaining * aces[i].mask != {} {
            WalkDeny(aces, t, mask, i, remaining, local);
            return false, {};
          }
        } else if aces[i].kind.Allow? {
          matched := remaining * aces[i].mask;
        }
      }
      WalkOn(aces, t, mask, i, remaining, local, matched);
      local := local + matched;
      remaining := remaining - matched;
      if remaining == {} {
        WalkDone(aces, t, mask, i + 1, remaining, local);
        return true, local;
      }
      i := i + 1;
    }
    WalkDone(aces, t, mask, i, remaining, local);
    if remaining == {} { return true, local; }
    return false, {};
  }
}
