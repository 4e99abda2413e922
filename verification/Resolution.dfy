/** Which rule of an HTTPRoute serves a request, by the precedence the Gateway API v1 specification gives for the
    `matches` field of HTTPRouteRule, and where its traffic goes. */
module Resolution {
  import opened Names
  import opened Kube
  import opened Dedup

  /** Header names are case-insensitive; a request carries them in lower case, one value each. */
  datatype Request = Request(path: string, headers: map<string, string>)

  /** PathPrefix compares element by element, ignoring one trailing slash of the prefix. */
  function PrefixBody(p: string): string {
    if p != "" && p[|p| - 1] == '/' then p[..|p| - 1] else p
  }

  predicate PathMatches(m: PathMatch, path: string) {
    match m.typ
    case Exact => path == m.value
    case PathPrefix => path == PrefixBody(m.value) || PrefixBody(m.value) + "/" <= path
  }

  predicate HeaderMatches(h: HeaderMatch, req: Request) {
    ToLower(h.name) in req.headers && req.headers[ToLower(h.name)] == h.value
  }

  predicate Matches(m: RouteMatch, req: Request) {
    PathMatches(m.path, req.path) && forall i | 0 <= i < |m.headers| :: HeaderMatches(m.headers[i], req)
  }

  predicate PathOutranks(a: PathMatch, b: PathMatch) {
    (a.typ == Exact && b.typ == PathPrefix) || (a.typ == b.typ && |a.value| > |b.value|)
  }

  predicate PathTies(a: PathMatch, b: PathMatch) { a.typ == b.typ && |a.value| == |b.value| }

  /** Exact before prefix, then the longest path, then the most header matches. */
  predicate Outranks(a: RouteMatch, b: RouteMatch) {
    PathOutranks(a.path, b.path) || (PathTies(a.path, b.path) && |a.headers| > |b.headers|)
  }

  /** Rule `i` serves the request: it matches, no match of any rule outranks it, and among equals it comes first. */
  ghost predicate IsWinner(rules: seq<RouteRule>, req: Request, i: nat) {
    && i < |rules|
    && exists m :: m in rules[i].matches && Matches(m, req) && IsBest(rules, req, i, m)
  }

  ghost predicate IsBest(rules: seq<RouteRule>, req: Request, i: nat, m: RouteMatch) {
    forall j, n | 0 <= j < |rules| && n in rules[j].matches && Matches(n, req) ::
      !Outranks(n, m) && (!Outranks(m, n) ==> i <= j)
  }

  /** Two different path matches that both accept a path never tie. */
  lemma {:induction false} PathsNeverTie(a: PathMatch, b: PathMatch, path: string)
    requires PathMatches(a, path) && PathMatches(b, path) && PathTies(a, b)
    ensures a == b
  {
    if a.typ == PathPrefix {
      PrefixesNeverTie(a.value, b.value, path);
    }
  }

  lemma {:induction false} PrefixesNeverTie(p: string, q: string, path: string)
    requires PathMatches(PathMatch(PathPrefix, p), path) && PathMatches(PathMatch(PathPrefix, q), path)
    requires |p| == |q|
    ensures p == q
  {
    var pb, qb := PrefixBody(p), PrefixBody(q);
    assert pb <= path && qb <= path;
    assert p == pb || (p == pb + "/" && (|path| > |pb| ==> path[|pb|] == '/'));
    assert q == qb || (q == qb + "/" && (|path| > |qb| ==> path[|qb|] == '/'));
    assert |pb| == |qb| ==> pb == qb;
  }

  /** Every rule has exactly one match, as the conversion builds them. */
  ghost predicate SingleMatches(rules: seq<RouteRule>) {
    forall i | 0 <= i < |rules| :: |rules[i].matches| == 1
  }

  lemma {:induction false} OutranksIsTransitive(a: RouteMatch, b: RouteMatch, c: RouteMatch)
    requires !Outranks(b, a) && !Outranks(c, b)
    ensures !Outranks(c, a)
    ensures Outranks(a, b) || Outranks(b, c) ==> Outranks(a, c)
  {
  }

  lemma {:induction false} BestIfNotOutranked(rules: seq<RouteRule>, req: Request, w: nat, m: RouteMatch)
    requires SingleMatches(rules) && rules != [] && w < |rules| - 1
    requires IsBest(rules[..|rules| - 1], req, w, m)
    requires Matches(rules[|rules| - 1].matches[0], req) ==> !Outranks(rules[|rules| - 1].matches[0], m)
    ensures IsBest(rules, req, w, m)
  {
    forall j, o | 0 <= j < |rules| && o in rules[j].matches && Matches(o, req)
      ensures !Outranks(o, m) && (!Outranks(m, o) ==> w <= j)
    {
      if j < |rules| - 1 {
        assert o in rules[..|rules| - 1][j].matches;
      }
    }
  }

  lemma {:induction false} BestIfOutranks(rules: seq<RouteRule>, req: Request, w: nat, m: RouteMatch)
    requires SingleMatches(rules) && rules != []
    requires IsBest(rules[..|rules| - 1], req, w, m)
    requires Outranks(rules[|rules| - 1].matches[0], m)
    ensures IsBest(rules, req, |rules| - 1, rules[|rules| - 1].matches[0])
  {
    var n := |rules| - 1;
    var last := rules[n].matches[0];
    forall j, o | 0 <= j < |rules| && o in rules[j].matches && Matches(o, req)
      ensures !Outranks(o, last) && (!Outranks(last, o) ==> n <= j)
    {
      if j < n {
        assert o in rules[..n][j].matches;
        OutranksIsTransitive(last, m, o);
      }
    }
  }

  lemma {:induction false} BestIfAlone(rules: seq<RouteRule>, req: Request)
    requires SingleMatches(rules) && rules != []
    requires forall j | 0 <= j < |rules| - 1 :: !Matches(rules[j].matches[0], req)
    ensures IsBest(rules, req, |rules| - 1, rules[|rules| - 1].matches[0])
  {
  }

  ghost predicate SomeMatch(rules: seq<RouteRule>, req: Request)
    requires SingleMatches(rules)
  {
    exists i | 0 <= i < |rules| :: Matches(rules[i].matches[0], req)
  }

  lemma {:induction false} BestExists(rules: seq<RouteRule>, req: Request) returns (w: nat)
    requires SingleMatches(rules) && SomeMatch(rules, req)
    ensures w < |rules| && Matches(rules[w].matches[0], req) && IsBest(rules, req, w, rules[w].matches[0])
  {
    var n := |rules| - 1;
    var t := rules[..n];
    if SomeMatch(t, req) {
      w := BestExists(t, req);
      if Matches(rules[n].matches[0], req) && Outranks(rules[n].matches[0], t[w].matches[0]) {
        BestIfOutranks(rules, req, w, t[w].matches[0]);
        w := n;
      } else {
        BestIfNotOutranked(rules, req, w, t[w].matches[0]);
      }
    } else {
      forall j | 0 <= j < n ensures !Matches(rules[j].matches[0], req) {
        assert t[j] == rules[j];
      }
      BestIfAlone(rules, req);
      w := n;
    }
  }

  /** Some rule serves the request iff some rule matches it. */
  lemma {:induction false} WinnerExists(rules: seq<RouteRule>, req: Request)
    requires SingleMatches(rules)
    ensures SomeMatch(rules, req) <==> exists w: nat :: IsWinner(rules, req, w)
  {
    if SomeMatch(rules, req) {
      var w := BestExists(rules, req);
      assert rules[w].matches[0] in rules[w].matches;
      assert IsWinner(rules, req, w);
    }
    if w: nat :| IsWinner(rules, req, w) {
      assert Matches(rules[w].matches[0], req);
    }
  }

  // ---- where the traffic goes ----

  /** The fraction of a rule's requests that reaches the backend with key `k`. */
  ghost function Share(refs: seq<BackendRef>, k: RefKey): real
    requires TotalWeight(refs) != 0
  {
    KeyWeight(refs, k) as real / TotalWeight(refs) as real
  }
}
