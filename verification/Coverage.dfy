/** Which rules of a host get requests at all: two paths can translate to matches of which one takes everything. */
module Coverage {
  import opened Text
  import opened Names
  import opened Kube
  import opened Collect
  import opened Grouping
  import opened Paths
  import opened Sorting
  import opened Dedup
  import opened Canary
  import opened Emission
  import opened Resolution
  import opened CanaryRouting
  import opened EndToEnd

  /** One of the two takes every request that the other accepts: they are equal, or prefixes up to one trailing
      slash. */
  predicate Overlap(a: PathMatch, b: PathMatch) {
    a == b || (a.typ == PathPrefix && b.typ == PathPrefix && PrefixBody(a.value) == PrefixBody(b.value))
  }

  ghost predicate NoOverlap(rules: seq<RouteRule>)
    requires SingleMatches(rules)
  {
    forall i, j | 0 <= i < j < |rules| :: !Overlap(rules[i].matches[0].path, rules[j].matches[0].path)
  }

  /** Some request is served by an emitted rule with the name and match of `r`. */
  ghost predicate Reached(out: seq<RouteRule>, r: RouteRule) {
    exists req, w: nat :: IsWinner(out, req, w) && out[w].name == r.name && out[w].matches == r.matches
  }

  // ---- a request that asks for one match ----

  function Filler(n: nat): string { seq(n, _ => 'a') }

  /** A path that a match accepts and that is too long for other prefixes to reach into. */
  function Probe(m: PathMatch, n: nat): string {
    if m.typ == Exact then m.value else PrefixBody(m.value) + "/" + Filler(n)
  }

  function ProbeRequest(m: RouteMatch, n: nat): Request {
    Request(Probe(m.path, n), if m.headers == [] then map[] else map[ToLower(m.headers[0].name) := m.headers[0].value])
  }

  lemma {:induction false} ProbeMatches(m: RouteMatch, n: nat)
    requires |m.headers| <= 1
    ensures Matches(m, ProbeRequest(m, n))
  {
    assert m.path.typ == PathPrefix ==> PrefixBody(m.path.value) + "/" <= Probe(m.path, n);
  }

  /** What else accepts the probe loses to the match, or overlaps it. */
  lemma {:induction false} ProbeBeats(m: PathMatch, o: PathMatch, n: nat)
    requires PathMatches(o, Probe(m, n)) && |o.value| < n
    ensures PathOutranks(m, o) || Overlap(m, o)
  {
    if m.typ == PathPrefix && o.typ == PathPrefix {
      BodyInProbe(PrefixBody(m.value), PrefixBody(o.value), n);
      if PathTies(m, o) {
        ProbeMatches(RouteMatch(m, []), n);
        PathsNeverTie(m, o, Probe(m, n));
      }
    }
  }

  lemma {:induction false} BodyInProbe(body: string, other: string, n: nat)
    requires other + "/" <= body + "/" + Filler(n)
    ensures other == body || |other| < |body|
  {
    var path := body + "/" + Filler(n);
    forall k | |body| < k < |path| ensures path[k] == 'a' {
      assert path[k] == Filler(n)[k - |body| - 1];
    }
    assert path[|other|] == (other + "/")[|other|] == '/';
    assert other == path[..|other|] && body == path[..|body|];
  }

  lemma {:induction false} LongerThanAll(rules: seq<RouteRule>) returns (n: nat)
    requires SingleMatches(rules)
    ensures forall j | 0 <= j < |rules| :: |rules[j].matches[0].path.value| < n
  {
    n := 1;
    for i := 0 to |rules|
      invariant forall j | 0 <= j < i :: |rules[j].matches[0].path.value| < n
    {
      n := n + |rules[i].matches[0].path.value| + 1;
    }
  }

  // ---- every rule is reached iff no two overlap ----

  lemma {:induction false} EmittedSingle(rules: seq<RouteRule>, sources: seq<seq<BackendSource>>, out: seq<RouteRule>)
    requires BaseRules(rules, sources) && Indexable(rules, sources) && AllFit(sources, |sources|)
    requires Emits(rules, sources, out)
    ensures SingleMatches(rules) && SingleMatches(out)
  {
    forall i | 0 <= i < |rules| ensures |rules[i].matches| == 1 {
      assert BaseRule(rules[i], sources[i], i);
    }
    forall w | 0 <= w < |out| ensures |out[w].matches| == 1 {
      var i, r := EmittedOrigin(rules, sources, out, w);
      FromBaseShape(rules, sources, i, r, Request("", map[]));
    }
  }

  lemma {:induction false} ReachedIfApart(rules: seq<RouteRule>, sources: seq<seq<BackendSource>>, out: seq<RouteRule>,
          i: nat, r: RouteRule)
    requires BaseRules(rules, sources) && Indexable(rules, sources) && AllFit(sources, |sources|)
    requires Emits(rules, sources, out) && SingleMatches(rules) && SingleMatches(out) && NoOverlap(rules)
    requires FromBase(rules, sources, i, r)
    ensures Reached(out, r)
  {
    FromBaseShape(rules, sources, i, r, Request("", map[]));
    var n := LongerThanAll(out);
    var m := r.matches[0];
    var req := ProbeRequest(m, n);
    ProbeMatches(m, n);
    var v := EmittedKeeps(rules, sources, out, i, r);
    assert Matches(out[v].matches[0], req);
    WinnerExists(out, req);
    var w: nat :| IsWinner(out, req, w);
    WinnerFacts(out, req, w);
    var k, s := EmittedOrigin(rules, sources, out, w);
    assert m in out[v].matches && !Outranks(m, s.matches[0]);
    SameOrigin(rules, sources, i, r, k, s, n);
  }

  /** Of the rules a probe meets, none but the one it was made for can serve it. */
  lemma {:induction false} SameOrigin(rules: seq<RouteRule>, sources: seq<seq<BackendSource>>, i: nat, r: RouteRule,
          k: nat, s: RouteRule, n: nat)
    requires BaseRules(rules, sources) && SingleMatches(rules) && NoOverlap(rules)
    requires FromBase(rules, sources, i, r) && FromBase(rules, sources, k, s) && |r.matches| == 1 && |s.matches| == 1
    requires var req := ProbeRequest(r.matches[0], n); Matches(r.matches[0], req) && Matches(s.matches[0], req)
    requires |s.matches[0].path.value| < n && !Outranks(r.matches[0], s.matches[0])
    ensures r == s
  {
    var req := ProbeRequest(r.matches[0], n);
    FromBaseShape(rules, sources, i, r, req);
    FromBaseShape(rules, sources, k, s, req);
    ProbeBeats(r.matches[0].path, s.matches[0].path, n);
    assert i == k;
    ApartIsBase(rules, sources);
    assert s.matches[0].headers == [] || HeaderMatches(s.matches[0].headers[0], req);
    if r != s {
      NoTies(rules, sources, req, i, r, k, s);
    }
  }

  lemma {:induction false} ApartIsBase(rules: seq<RouteRule>, sources: seq<seq<BackendSource>>)
    requires BaseRules(rules, sources) && SingleMatches(rules) && NoOverlap(rules)
    ensures BaseRoute(rules, sources)
  {
  }

  lemma {:induction false} AllReachedIfApart(rules: seq<RouteRule>, sources: seq<seq<BackendSource>>,
          out: seq<RouteRule>)
    requires BaseRules(rules, sources) && Indexable(rules, sources) && AllFit(sources, |sources|)
    requires Emits(rules, sources, out) && SingleMatches(rules) && SingleMatches(out) && NoOverlap(rules)
    ensures forall r | r in Final(rules, sources) :: Reached(out, r)
  {
    forall r | r in Final(rules, sources) ensures Reached(out, r) {
      var q :| 0 <= q < |Final(rules, sources)| && Final(rules, sources)[q] == r;
      var i := FinalFromBase(rules, sources, q);
      ReachedIfApart(rules, sources, out, i, r);
    }
  }

  /** Of two overlapping rules one serves nothing. */
  lemma {:induction false} OverlapHidesOne(out: seq<RouteRule>, a: RouteRule, b: RouteRule)
    requires Reached(out, a) && Reached(out, b) && a.name != b.name
    requires |a.matches| == 1 && |b.matches| == 1 && a.matches[0].headers == [] && b.matches[0].headers == []
    ensures !Overlap(a.matches[0].path, b.matches[0].path)
  {
    var req, v: nat :| IsWinner(out, req, v) && out[v].name == a.name && out[v].matches == a.matches;
    var rev, w: nat :| IsWinner(out, rev, w) && out[w].name == b.name && out[w].matches == b.matches;
    if Overlap(a.matches[0].path, b.matches[0].path) {
      NotAfter(out, req, v, w);
      NotAfter(out, rev, w, v);
    }
  }

  /** A rule that serves a request is not outranked by an overlapping one and stands before it if they tie. */
  lemma {:induction false} NotAfter(out: seq<RouteRule>, req: Request, v: nat, w: nat)
    requires IsWinner(out, req, v) && w < |out| && |out[v].matches| == 1 && |out[w].matches| == 1
    requires out[v].matches[0].headers == [] && out[w].matches[0].headers == []
    requires Overlap(out[v].matches[0].path, out[w].matches[0].path)
    ensures !Outranks(out[w].matches[0], out[v].matches[0])
    ensures !Outranks(out[v].matches[0], out[w].matches[0]) ==> v <= w
  {
    var n := out[w].matches[0];
    assert n in out[w].matches;
    OverlapAccepts(out[v].matches[0], n, req);
  }

  lemma {:induction false} OverlapAccepts(m: RouteMatch, n: RouteMatch, req: Request)
    requires Overlap(m.path, n.path) && n.headers == [] && Matches(m, req)
    ensures Matches(n, req)
  {
  }

  lemma {:induction false} ApartIfReached(rules: seq<RouteRule>, sources: seq<seq<BackendSource>>, out: seq<RouteRule>)
    requires BaseRules(rules, sources) && Indexable(rules, sources) && AllFit(sources, |sources|)
    requires SingleMatches(rules)
    requires forall r | r in Final(rules, sources) :: Reached(out, r)
    ensures NoOverlap(rules)
  {
    forall i, j | 0 <= i < j < |rules| ensures !Overlap(rules[i].matches[0].path, rules[j].matches[0].path) {
      UpdatedInFinal(rules, sources, i);
      UpdatedInFinal(rules, sources, j);
      if rules[i].name == rules[j].name {
        NumberIsUnique(rules[i].name.value, i, j);
      }
      OverlapHidesOne(out, Updated(rules[i], PlanOf(sources[i])), Updated(rules[j], PlanOf(sources[j])));
    }
  }

  lemma {:induction false} UpdatedInFinal(rules: seq<RouteRule>, sources: seq<seq<BackendSource>>, i: nat)
    requires BaseRules(rules, sources) && Indexable(rules, sources) && AllFit(sources, |sources|) && i < |rules|
    ensures BaseRule(rules[i], sources[i], i)
    ensures var plan := PlanOf(sources[i]);
            && (plan.WithCanary? ==> plan.canary < |sources[i]| && plan.stable < |sources[i]|)
            && Updated(rules[i], plan) in Final(rules, sources)
            && Updated(rules[i], plan).name == rules[i].name && Updated(rules[i], plan).matches == rules[i].matches
  {
    UpdatedFromBase(rules, sources, i);
    BaseInFinal(rules, sources, i, Updated(rules[i], PlanOf(sources[i])));
  }

  /** Every rule of the expanded route, header copies included, serves some request iff no two paths overlap. */
  lemma {:induction false} EveryRuleReachedIff(rules: seq<RouteRule>, sources: seq<seq<BackendSource>>,
          out: seq<RouteRule>)
    requires BaseRules(rules, sources) && Indexable(rules, sources) && AllFit(sources, |sources|)
    requires Emits(rules, sources, out)
    ensures SingleMatches(rules)
    ensures (forall r | r in Final(rules, sources) :: Reached(out, r)) <==> NoOverlap(rules)
  {
    EmittedSingle(rules, sources, out);
    if NoOverlap(rules) {
      AllReachedIfApart(rules, sources, out);
    }
    if forall r | r in Final(rules, sources) :: Reached(out, r) {
      ApartIfReached(rules, sources, out);
    }
  }

  /** Of two emitted rules with the same match the one that sorts first takes every request, whatever the paths ask
      for. */
  lemma {:induction false} FirstNameTakesAll(mid: seq<RouteRule>, order: seq<RouteRule>, out: seq<RouteRule>,
          req: Request, a: nat, b: nat)
    requires SortedRoute(mid, order, out) && a < |out| && b < |out|
    requires out[a].matches == out[b].matches && RuleBefore(out[a], out[b])
    ensures !IsWinner(out, req, b)
  {
    assert RuleBefore(order[a], order[b]);
    RuleBeforeIsStrictWeak();
    assert a < b;
  }

  // ---- on the paths of a host ----

  ghost predicate PathsApart(paths: seq<SourcedPath>, env: Env) {
    forall p, q | p in paths && q in paths && PathsOverlap(p, q, env) :: PathMatchKey(p) == PathMatchKey(q)
  }

  ghost predicate PathsOverlap(p: SourcedPath, q: SourcedPath, env: Env) {
    var a, b := ToRouteMatch(p.path, env), ToRouteMatch(q.path, env);
    a.Ok? && b.Ok? && Overlap(a.value, b.value)
  }

  lemma {:induction false} PathsApartIff(rg: RuleGroup, env: Env, rules: seq<RouteRule>,
          sources: seq<seq<BackendSource>>)
    requires Made(rg, env, rules, sources) && SingleMatches(rules)
    ensures NoOverlap(rules) <==> PathsApart(PathsOf(rg.rules), env)
  {
    var paths := PathsOf(rg.rules);
    if PathsApart(paths, env) {
      forall i, j | 0 <= i < j < |rules| ensures !Overlap(rules[i].matches[0].path, rules[j].matches[0].path) {
        PathOfRule(rg, env, rules, sources, i);
        PathOfRule(rg, env, rules, sources, j);
        GroupsDiffer(rg.rules, i, j);
        assert !PathsOverlap(MatchGroupsOf(rg.rules)[i][0], MatchGroupsOf(rg.rules)[j][0], env);
      }
    }
    if NoOverlap(rules) {
      forall p, q | p in paths && q in paths && PathsOverlap(p, q, env) ensures PathMatchKey(p) == PathMatchKey(q) {
        OverlapInOneRule(rg, env, rules, sources, p, q);
      }
    }
  }

  lemma {:induction false} OverlapInOneRule(rg: RuleGroup, env: Env, rules: seq<RouteRule>,
          sources: seq<seq<BackendSource>>, p: SourcedPath, q: SourcedPath)
    requires Made(rg, env, rules, sources) && SingleMatches(rules) && NoOverlap(rules)
    requires p in PathsOf(rg.rules) && q in PathsOf(rg.rules) && PathsOverlap(p, q, env)
    ensures PathMatchKey(p) == PathMatchKey(q)
  {
    var i := RuleAt(rg, env, rules, sources, p);
    var j := RuleAt(rg, env, rules, sources, q);
    assert Overlap(rules[i].matches[0].path, rules[j].matches[0].path);
    assert i == j;
    AlikeKey(PathsOf(rg.rules), p, q);
  }

  lemma {:induction false} RuleAt(rg: RuleGroup, env: Env, rules: seq<RouteRule>, sources: seq<seq<BackendSource>>,
          p: SourcedPath)
    returns (i: nat)
    requires Made(rg, env, rules, sources) && p in PathsOf(rg.rules)
    ensures i < |rules| && ToRouteMatch(p.path, env).Ok?
    ensures rules[i].matches == [RouteMatch(ToRouteMatch(p.path, env).value, [])]
    ensures i < |MatchGroupsOf(rg.rules)| && MatchGroupsOf(rg.rules)[i] == Alike(PathsOf(rg.rules), p)
  {
    i := GroupIndex(rg.rules, p);
    AlikeMatches(PathsOf(rg.rules), p, env);
    assert MadeOf(rg.namespace, rules[i], sources[i], MatchGroupsOf(rg.rules)[i], env);
  }

  lemma {:induction false} AlikeKey(paths: seq<SourcedPath>, p: SourcedPath, q: SourcedPath)
    requires p in paths && q in paths && Alike(paths, p) == Alike(paths, q)
    ensures PathMatchKey(p) == PathMatchKey(q)
  {
    SelectMembers(paths, PathMatchKey, PathMatchKey(p));
    SelectMembers(paths, PathMatchKey, PathMatchKey(q));
    assert p in Alike(paths, p);
  }

  /** Paths that translate to one match are of one type and path: no Prefix beside an equal ImplementationSpecific. */
  ghost predicate MatchesTellApart(paths: seq<SourcedPath>, env: Env) {
    forall p, q | p in paths && q in paths && ToRouteMatch(p.path, env) == ToRouteMatch(q.path, env) ::
      PathMatchKey(p) == PathMatchKey(q)
  }

  /** Then the paths of highest precedence for a request are all of one type and path, so it is clear whose annotations
      decide. */
  lemma {:induction false} BestPathsAgree(paths: seq<SourcedPath>, env: Env, req: Request, p: SourcedPath,
          q: SourcedPath)
    requires MatchesTellApart(paths, env) && BestPath(paths, p, env, req) && BestPath(paths, q, env, req)
    ensures PathMatchKey(p) == PathMatchKey(q)
  {
    RouteMatchMeans(p.path, q.path, env, req.path);
    RouteMatchMeans(q.path, p.path, env, req.path);
    PathsNeverTie(ToRouteMatch(p.path, env).value, ToRouteMatch(q.path, env).value, req.path);
  }

  lemma {:induction false} ApartTellsApart(rg: RuleGroup, env: Env, rules: seq<RouteRule>,
          sources: seq<seq<BackendSource>>)
    requires Made(rg, env, rules, sources)
    ensures PathsApart(PathsOf(rg.rules), env) ==> MatchesTellApart(PathsOf(rg.rules), env)
  {
    var paths := PathsOf(rg.rules);
    if PathsApart(paths, env) {
      forall p, q | p in paths && q in paths && ToRouteMatch(p.path, env) == ToRouteMatch(q.path, env)
        ensures PathMatchKey(p) == PathMatchKey(q)
      {
        var i := RuleOfPath(rg, env, rules, sources, p);
        assert PathsOverlap(p, q, env);
      }
    }
  }

  /** On the paths of a converted host: every emitted rule serves some request iff no two paths of different type or
      path overlap. A Prefix path beside an ImplementationSpecific one of the same value does, and so does `/foo` beside
      `/foo/`. */
  lemma {:induction false} EveryPathServedIff(rg: RuleGroup, env: Env, out: seq<RouteRule>)
    requires BuiltOf(rg, env).errors == [] && AllPathsFit(PathsOf(rg.rules))
    requires var ctx := RouteOf(rg, env);
             Indexable(ctx.route.rules, ctx.sources) && Emits(ctx.route.rules, ctx.sources, out)
    ensures var ctx := RouteOf(rg, env);
            (forall r | r in Final(ctx.route.rules, ctx.sources) :: Reached(out, r)) <==>
            PathsApart(PathsOf(rg.rules), env)
    ensures PathsApart(PathsOf(rg.rules), env) ==> MatchesTellApart(PathsOf(rg.rules), env)
  {
    var rules, sources := RouteOf(rg, env).route.rules, RouteOf(rg, env).sources;
    BuiltFrom(rg.namespace, MatchGroupsOf(rg.rules), env);
    assert Made(rg, env, rules, sources);
    ConvertedRouteQualifies(rg, env);
    AllFitIff(rg, env, rules, sources);
    EveryRuleReachedIff(rules, sources, out);
    PathsApartIff(rg, env, rules, sources);
    ApartTellsApart(rg, env, rules, sources);
  }
}
