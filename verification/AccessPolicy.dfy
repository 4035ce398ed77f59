/** Path-based grants (`auth/access.py`): the most specific matching pattern wins
    and shadows the rest; grants on that pattern are united. */
module AccessPolicy {
  import opened FiniteSets

  datatype Grant = Grant(path: string, role: string, groups: set<string>, users: set<string>)

  datatype Identity = Identity(sub: string, email: string, groups: set<string>)

  type Roles = map<string, set<string>>

  /** `path.lstrip("/")` */
  function Strip(path: string): string {
    if path != "" && path[0] == '/' then Strip(path[1..]) else path
  }

  /** Exactly the leading slashes go. */
  lemma {:induction false} StripDropsSlashes(path: string)
    ensures Strip(path) == "" || Strip(path)[0] != '/'
    ensures exists k: nat :: k <= |path| && Strip(path) == path[k..] && forall i :: 0 <= i < k ==> path[i] == '/'
  {
    if path != "" && path[0] == '/' {
      StripDropsSlashes(path[1..]);
      var rest := path[1..];
      var k: nat :| k <= |rest| && Strip(rest) == rest[k..] && forall i :: 0 <= i < k ==> rest[i] == '/';
      assert path[1..][k..] == path[k + 1..];
      assert forall i :: 0 < i < k + 1 ==> path[i] == path[1..][i - 1];
    } else {
      assert path[0..] == path;
    }
  }

  predicate IsSubtree(pattern: string) {
    |pattern| >= 2 && pattern[|pattern| - 2..] == "/*"
  }

  /** The pair `_specificity` returns. */
  datatype Spec = Spec(tier: nat, length: nat)

  function Specificity(pattern: string): Spec {
    if pattern == "*" then Spec(0, 0)
    else if IsSubtree(pattern) then Spec(1, |pattern|)
    else Spec(2, |pattern|)
  }

  predicate Above(a: Spec, b: Spec) {
    a.tier > b.tier || (a.tier == b.tier && a.length > b.length)
  }

  predicate Matches(pattern: string, board: string) {
    if pattern == "*" then true
    else if IsSubtree(pattern) then pattern[..|pattern| - 1] <= board
    else board == pattern
  }

  /** A folder pattern covers every board under the folder, at any depth, and neither the
      folder itself nor a sibling whose name it begins. */
  lemma SubtreeCoversFolder(folder: string, board: string)
    ensures Matches(folder + "/*", board) <==> exists rest: string :: board == folder + "/" + rest
  {
    var pattern := folder + "/*";
    assert pattern[|pattern| - 2..] == "/*" && pattern[..|pattern| - 1] == folder + "/";
    if folder + "/" <= board {
      assert board == folder + "/" + board[|folder| + 1..];
    }
  }

  /** What a pattern covers: everything, one board, or the boards below a folder. */
  ghost predicate Covers(pattern: string, board: string) {
    || pattern == "*"
    || pattern == board
    || exists folder: string, rest: string :: pattern == folder + "/*" && board == folder + ("/" + rest)
  }

  lemma MatchesWhatItCovers(pattern: string, board: string)
    ensures Matches(pattern, board) <==> Covers(pattern, board)
  {
    if IsSubtree(pattern) && pattern != "*" {
      var folder := pattern[..|pattern| - 2];
      assert pattern == folder + "/*";
      SubtreeCoversFolder(folder, board);
      if Matches(pattern, board) {
        var rest: string :| board == folder + "/" + rest;
        assert board == folder + ("/" + rest);
      }
    }
    if folder: string, rest: string :| pattern == folder + "/*" && board == folder + ("/" + rest) {
      assert board == folder + "/" + rest;
      SubtreeCoversFolder(folder, board);
    }
  }

  predicate NamesIdentity(grant: Grant, identity: Identity) {
    grant.groups * identity.groups != {} || identity.sub in grant.users || identity.email in grant.users
  }

  function CapsOf(roles: Roles, role: string): set<string> {
    if role in roles then roles[role] else {}
  }

  /** Two patterns that match one board and are equally specific are the same text. */
  lemma EquallySpecificIsSame(p: string, q: string, board: string)
    requires Matches(p, board) && Matches(q, board) && Specificity(p) == Specificity(q)
    ensures p == q
  {
  }

  /** What "more specific" means: of two patterns that match a board, the one with
      the higher specificity is the one that covers strictly fewer boards. */
  lemma SpecificityIsContainment(p: string, q: string, board: string)
    requires Matches(p, board) && Matches(q, board)
    ensures Above(Specificity(p), Specificity(q)) <==> p != q && forall b :: Matches(p, b) ==> Matches(q, b)
  {
    if Above(Specificity(p), Specificity(q)) {
      AboveCoversLess(p, q, board);
    } else if p != q {
      if Specificity(p) == Specificity(q) {
        EquallySpecificIsSame(p, q, board);
      } else {
        CoversMore(p, q, board);
      }
    }
  }

  lemma AboveCoversLess(p: string, q: string, board: string)
    requires Matches(p, board) && Matches(q, board) && Above(Specificity(p), Specificity(q))
    ensures forall b :: Matches(p, b) ==> Matches(q, b)
  {
    forall b | Matches(p, b)
      ensures Matches(q, b)
    {
      if IsSubtree(p) && p != "*" && q != "*" {
        assert q[..|q| - 1] == board[..|q| - 1] == p[..|q| - 1] == b[..|q| - 1];
      }
    }
  }

  /** The less specific pattern covers a board that the other does not. */
  lemma CoversMore(p: string, q: string, board: string)
    requires Matches(p, board) && Matches(q, board) && Above(Specificity(q), Specificity(p))
    ensures exists b :: Matches(p, b) && !Matches(q, b)
  {
    if p == "*" {
      var b := if q == "" then "x" else "";
      assert Matches(p, b) && !Matches(q, b);
    } else {
      var root := p[..|p| - 1];
      var b := if q == root then root + "x" else root;
      assert Matches(p, b) && !Matches(q, b);
    }
  }

  // `sorted(grants, key=..., reverse=True)`.

  predicate Descending<T>(s: seq<T>, key: T -> Spec) {
    forall i, j :: 0 <= i < j < |s| ==> !Above(key(s[j]), key(s[i]))
  }

  function Insert<T>(x: T, s: seq<T>, key: T -> Spec): (r: seq<T>)
    requires Descending(s, key)
    ensures multiset(r) == multiset(s) + multiset{x}
    ensures Descending(r, key)
  {
    if s == [] || !Above(key(s[0]), key(x)) then [x] + s
    else
      assert s == [s[0]] + s[1..];
      var rest := Insert(x, s[1..], key);
      InsertBehind(x, s, rest, key);
      [s[0]] + rest
  }

  lemma InsertBehind<T>(x: T, s: seq<T>, rest: seq<T>, key: T -> Spec)
    requires s != [] && Descending(s, key) && Descending(rest, key) && Above(key(s[0]), key(x))
    requires multiset(rest) == multiset(s[1..]) + multiset{x}
    ensures Descending([s[0]] + rest, key)
  {
    forall j | 0 <= j < |rest|
      ensures !Above(key(rest[j]), key(s[0]))
    {
      assert rest[j] in multiset(rest);
      assert rest[j] in s[1..] || rest[j] == x;
    }
  }

  function Sort<T>(s: seq<T>, key: T -> Spec): (r: seq<T>)
    ensures Descending(r, key) && multiset(r) == multiset(s)
  {
    if s == [] then []
    else
      assert s == [s[0]] + s[1..];
      Insert(s[0], Sort(s[1..], key), key)
  }

  /** A grant applies to the board. */
  predicate Applies(grant: Grant, board: string) {
    Matches(Strip(grant.path), board)
  }

  function Key(grant: Grant): Spec {
    Specificity(Strip(grant.path))
  }

  // The declarative rule, on the configured grants.

  /** The grant applies to the board and no applying grant is more specific. */
  ghost predicate Wins(grants: multiset<Grant>, board: string, grant: Grant) {
    && grant in grants && Applies(grant, board)
    && forall g :: g in grants && Applies(g, board) ==> !Above(Key(g), Key(grant))
  }

  ghost predicate Gives(roles: Roles, grants: multiset<Grant>, identity: Identity, board: string, cap: string) {
    exists g :: Wins(grants, board, g) && NamesIdentity(g, identity) && cap in CapsOf(roles, g.role)
  }

  predicate NoLessSpecific(g: Grant, h: Grant) {
    !Above(Key(h), Key(g))
  }

  /** There is one most specific matching pattern, and the winning grants are
      exactly those that carry it. */
  lemma WinningPattern(grants: multiset<Grant>, board: string, some: Grant) returns (pattern: string)
    requires some in grants && Applies(some, board)
    ensures Matches(pattern, board)
    ensures forall g :: g in grants ==> (Wins(grants, board, g) <==> Strip(g.path) == pattern)
  {
    var applying := set g | g in grants && Applies(g, board);
    assert some in applying;
    FirstExists(applying, NoLessSpecific);
    var best :| First(applying, NoLessSpecific, best);
    pattern := Strip(best.path);
    assert Wins(grants, board, best) by {
      forall g | g in grants && Applies(g, board)
        ensures !Above(Key(g), Key(best))
      {
        assert g in applying && NoLessSpecific(best, g);
      }
    }
    forall g | g in grants
      ensures Wins(grants, board, g) <==> Strip(g.path) == pattern
    {
      if Wins(grants, board, g) {
        EquallySpecificIsSame(Strip(g.path), pattern, board);
      }
    }
  }

  /** The rule of the documentation: the grant's pattern covers the board, and no
      grant's pattern that covers it covers strictly fewer boards. */
  ghost predicate Governs(grants: multiset<Grant>, board: string, g: Grant) {
    && g in grants && Covers(Strip(g.path), board)
    && forall h :: h in grants && Covers(Strip(h.path), board) && Strip(h.path) != Strip(g.path) ==>
         exists b :: Covers(Strip(h.path), b) && !Covers(Strip(g.path), b)
  }

  /** The grant lists the identity by subject or email, or shares a group with it. */
  ghost predicate Lists(g: Grant, identity: Identity) {
    identity.sub in g.users || identity.email in g.users || exists x :: x in g.groups && x in identity.groups
  }

  lemma WinnersGovern(grants: multiset<Grant>, board: string, g: Grant)
    ensures Wins(grants, board, g) <==> Governs(grants, board, g)
  {
    forall h | h in grants
      ensures Applies(h, board) <==> Covers(Strip(h.path), board)
    {
      MatchesWhatItCovers(Strip(h.path), board);
    }
    if g in grants && Applies(g, board) {
      forall h | h in grants && Applies(h, board)
        ensures Above(Key(h), Key(g)) <==>
          Strip(h.path) != Strip(g.path) && forall b :: Covers(Strip(h.path), b) ==> Covers(Strip(g.path), b)
      {
        CoversAsMatches(Strip(h.path), Strip(g.path));
        SpecificityIsContainment(Strip(h.path), Strip(g.path), board);
      }
    }
  }

  lemma CoversAsMatches(p: string, q: string)
    ensures (forall b :: Covers(p, b) ==> Covers(q, b)) <==> (forall b :: Matches(p, b) ==> Matches(q, b))
  {
    forall b
      ensures (Covers(p, b) <==> Matches(p, b)) && (Covers(q, b) <==> Matches(q, b))
    {
      MatchesWhatItCovers(p, b);
      MatchesWhatItCovers(q, b);
    }
  }

  /** Who gets what, from the configuration alone. */
  lemma GivesAsDocumented(roles: Roles, grants: multiset<Grant>, identity: Identity, board: string, cap: string)
    ensures Gives(roles, grants, identity, board, cap) <==>
      exists g :: Governs(grants, board, g) && Lists(g, identity) && g.role in roles && cap in roles[g.role]
  {
    forall g
      ensures NamesIdentity(g, identity) <==> Lists(g, identity)
    {
      if x :| x in g.groups && x in identity.groups { assert x in g.groups * identity.groups; }
    }
    if g :| Wins(grants, board, g) && NamesIdentity(g, identity) && cap in CapsOf(roles, g.role) {
      WinnersGovern(grants, board, g);
    }
    if g :| Governs(grants, board, g) && Lists(g, identity) && g.role in roles && cap in roles[g.role] {
      WinnersGovern(grants, board, g);
    }
  }

  /** Of grants sorted most specific first, the winners are the applying ones with
      the pattern of the first applying one. */
  lemma WinnersShareFirst(grants: seq<Grant>, board: string, first: nat, i: nat)
    requires Descending(grants, Key) && first < |grants| && i < |grants|
    requires Applies(grants[first], board) && forall j :: 0 <= j < first ==> !Applies(grants[j], board)
    requires Applies(grants[i], board)
    ensures Wins(multiset(grants), board, grants[i]) <==> Strip(grants[i].path) == Strip(grants[first].path)
  {
  }

  /** Nothing that follows an applying grant with another pattern can win: the
      early `break` loses nothing. */
  lemma BreakLosesNothing(grants: seq<Grant>, board: string, first: nat, stop: nat, i: nat)
    requires Descending(grants, Key) && first < stop <= i < |grants|
    requires Applies(grants[first], board) && forall j :: 0 <= j < first ==> !Applies(grants[j], board)
    requires Applies(grants[stop], board) && Strip(grants[stop].path) != Strip(grants[first].path)
    ensures !Wins(multiset(grants), board, grants[i])
  {
    if Applies(grants[i], board) {
      WinnersShareFirst(grants, board, first, i);
      if Strip(grants[i].path) == Strip(grants[first].path) {
        assert !Above(Key(grants[stop]), Key(grants[first])) && !Above(Key(grants[i]), Key(grants[stop])) by {
          assert first < stop && (stop == i || stop < i);
        }
        EquallySpecificIsSame(Strip(grants[stop].path), Strip(grants[first].path), board);
      }
    }
  }

  /** What the loop has collected from the first `n` grants. */
  ghost predicate CollectedFrom(roles: Roles, grants: seq<Grant>, n: nat, identity: Identity, board: string,
                                cap: string)
    requires n <= |grants|
  {
    exists i ::
      && 0 <= i < n && Wins(multiset(grants), board, grants[i]) && NamesIdentity(grants[i], identity)
      && cap in CapsOf(roles, grants[i].role)
  }

  lemma CollectedAll(roles: Roles, grants: seq<Grant>, n: nat, identity: Identity, board: string, cap: string)
    requires n <= |grants| && forall i :: n <= i < |grants| ==> !Wins(multiset(grants), board, grants[i])
    ensures CollectedFrom(roles, grants, n, identity, board, cap)
      <==> Gives(roles, multiset(grants), identity, board, cap)
  {
  }

  lemma CollectedAsDocumented(roles: Roles, grants: seq<Grant>, n: nat, identity: Identity, board: string,
                              caps: set<string>)
    requires n <= |grants| && forall i :: n <= i < |grants| ==> !Wins(multiset(grants), board, grants[i])
    requires forall cap :: cap in caps <==> CollectedFrom(roles, grants, n, identity, board, cap)
    ensures forall cap :: cap in caps <==>
      exists g ::
        && Governs(multiset(grants), board, g)
        && (identity.sub in g.users || identity.email in g.users || exists x :: x in g.groups && x in identity.groups)
        && g.role in roles && cap in roles[g.role]
  {
    forall cap
      ensures cap in caps <==>
        exists g :: Governs(multiset(grants), board, g) && Lists(g, identity) && g.role in roles && cap in roles[g.role]
    {
      CollectedAll(roles, grants, n, identity, board, cap);
      GivesAsDocumented(roles, multiset(grants), identity, board, cap);
    }
  }

  /** One more grant. */
  lemma CollectNext(roles: Roles, grants: seq<Grant>, n: nat, identity: Identity, board: string, cap: string)
    requires n < |grants|
    ensures CollectedFrom(roles, grants, n + 1, identity, board, cap) <==>
      || CollectedFrom(roles, grants, n, identity, board, cap)
      || (Wins(multiset(grants), board, grants[n]) && NamesIdentity(grants[n], identity)
          && cap in CapsOf(roles, grants[n].role))
  {
  }

  class AccessPolicy {
    const roles: Roles
    const grants: seq<Grant>

    constructor (roles: Roles, grants: seq<Grant>)
      ensures this.roles == roles && Descending(this.grants, Key) && multiset(this.grants) == multiset(grants)
    {
      this.roles := roles;
      this.grants := Sort(grants, Key);
    }

    /** Exactly the capabilities of the governing grants that list the identity,
        whatever the configuration order. */
    method Capabilities(identity: Identity, board: string) returns (caps: set<string>)
      requires Descending(grants, Key)
      ensures forall cap :: cap in caps <==>
        exists g ::
          && Governs(multiset(grants), board, g)
          && (identity.sub in g.users || identity.email in g.users || exists x :: x in g.groups && x in identity.groups)
          && g.role in roles && cap in roles[g.role]
    {
      var bestPattern, found := "", false;
      caps := {};
      ghost var first := 0;
      var i := 0;
      while i < |grants|
        invariant 0 <= i <= |grants|
        invariant !found ==> forall j :: 0 <= j < i ==> !Applies(grants[j], board)
        invariant found ==> first < i && Applies(grants[first], board) && bestPattern == Strip(grants[first].path)
        invariant found ==> forall j :: 0 <= j < first ==> !Applies(grants[j], board)
        invariant forall cap :: cap in caps <==> CollectedFrom(roles, grants, i, identity, board, cap)
      {
        var grant := grants[i];
        var path := Strip(grant.path);
        if Matches(path, board) {
          if !found {
            first := i;
            found, bestPattern := true, path;
          } else if path != bestPattern {
            forall j | i <= j < |grants|
              ensures !Wins(multiset(grants), board, grants[j])
            {
              BreakLosesNothing(grants, board, first, i, j);
            }
            break;
          }
          WinnersShareFirst(grants, board, first, i);
          if NamesIdentity(grant, identity) {
            caps := caps + CapsOf(roles, grant.role);
          }
        }
        forall cap { CollectNext(roles, grants, i, identity, board, cap); }
        i := i + 1;
      }
      CollectedAsDocumented(roles, grants, i, identity, board, caps);
    }
  }

  /** Two configurations that list the same grants in another order give every
      identity the same capabilities on every board. */
  method SameInAnyOrder(a: AccessPolicy, b: AccessPolicy, identity: Identity, board: string)
    returns (capsA: set<string>, capsB: set<string>)
    requires Descending(a.grants, Key) && Descending(b.grants, Key)
    requires a.roles == b.roles && multiset(a.grants) == multiset(b.grants)
    ensures capsA == capsB
  {
    capsA := a.Capabilities(identity, board);
    capsB := b.Capabilities(identity, board);
  }
}
