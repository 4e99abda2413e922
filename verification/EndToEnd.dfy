/** From Ingresses to traffic: conversion, canary expansion, de-duplication and sorting, read against the
    annotations. */
module EndToEnd {
  import opened Text
  import opened Names
  import opened Kube
  import opened Collect
  import opened Grouping
  import opened Paths
  import opened Converter
  import opened Sorting
  import opened Correctness
  import opened Determinism
  import opened Pipeline
  import opened Dedup
  import opened IngressSpec
  import opened Canary
  import opened Resolution
  import opened CanaryRouting
  import opened CanaryRuns

  // ---- what the Ingresses ask for ----

  predicate IsCanaryPath(p: SourcedPath) { Annotation(p.ingress, CanaryKey) == "true" }

  ghost predicate Resolves(namespace: string, g: seq<SourcedPath>, env: Env) {
    forall j | 0 <= j < |g| :: Resolvable(namespace, g[j].path.backend, env.servicePorts)
  }

  function BackendOf(namespace: string, p: SourcedPath, env: Env): RefKey
    requires Resolvable(namespace, p.path.backend, env.servicePorts)
  {
    BackendAsked(namespace, p.path.backend, env.servicePorts)
  }

  /** The Ingress paths of one type and path: one ordinary path, or an ordinary and a canary one with sane
      annotations. */
  ghost predicate PathsFit(g: seq<SourcedPath>) {
    || (|g| == 1 && !IsCanaryPath(g[0]))
    || (|g| == 2 && IsCanaryPath(g[0]) != IsCanaryPath(g[1]) && SaneWeights(g[CanaryIndex(g)].ingress))
  }

  function CanaryIndex(g: seq<SourcedPath>): nat
    requires |g| == 2
  {
    if IsCanaryPath(g[0]) then 0 else 1
  }

  /** The part of a request's traffic that the annotations send to the backend `key`: a name, port, group and kind. */
  ghost function Asked(namespace: string, g: seq<SourcedPath>, env: Env, req: Request, key: RefKey): real
    requires PathsFit(g) && Resolves(namespace, g, env)
  {
    if |g| == 1 then if BackendOf(namespace, g[0], env) == key then 1.0 else 0.0
    else
      var c := CanaryIndex(g);
      PartFor(CanaryPart(g[c].ingress, req),
              BackendOf(namespace, g[c], env) == key, BackendOf(namespace, g[1 - c], env) == key)
  }

  /** The header decides, a weight is annotated, or both backends are one. */
  ghost predicate Decided(namespace: string, g: seq<SourcedPath>, env: Env, req: Request)
    requires PathsFit(g) && Resolves(namespace, g, env)
  {
    |g| == 2 ==>
      AnnotationsDecide(g[CanaryIndex(g)].ingress, req)
      || BackendOf(namespace, g[0], env) == BackendOf(namespace, g[1], env)
  }

  ghost predicate Accepts(p: SourcedPath, env: Env, req: Request) { AcceptsPath(p.path, env.implSpecific, req.path) }

  /** `p` accepts the request and no path of the group that does takes precedence. */
  ghost predicate BestPath(paths: seq<SourcedPath>, p: SourcedPath, env: Env, req: Request) {
    && p in paths && Accepts(p, env, req)
    && forall q | q in paths && Accepts(q, env, req) :: !Precedes(q.path, p.path, env.implSpecific)
  }

  /** All paths of the group with the type and path of `p`, in order. */
  function Alike(paths: seq<SourcedPath>, p: SourcedPath): seq<SourcedPath> { Select(paths, PathMatchKey,
        PathMatchKey(p)) }

  ghost predicate AllPathsFit(paths: seq<SourcedPath>) { forall p | p in paths :: PathsFit(Alike(paths, p)) }

  // ---- a rule and the paths it was made of ----

  lemma {:induction false} RefsAt(namespace: string, g: seq<SourcedPath>, env: Env)
    requires RefErrors(namespace, g, env) == []
    ensures Resolves(namespace, g, env) && |RefsOf(namespace, g, env)| == |g| == |SourcesOf(namespace, g, env)|
    ensures forall j | 0 <= j < |g| ::
              && Ok(RefsOf(namespace, g, env)[j]) == ToBackendRef(namespace, g[j].path.backend, env.servicePorts)
              && SourcesOf(namespace, g, env)[j] == SourceOf(g[j])
  {
    if g != [] {
      var n := |g| - 1;
      RefsAt(namespace, g[..n], env);
      BackendRefMeans(namespace, g[n].path.backend, env.servicePorts, RefKey("", 0, "", ""));
      ResolvesLast(namespace, g, env);
    }
  }

  lemma {:induction false} ResolvesLast(namespace: string, g: seq<SourcedPath>, env: Env)
    requires g != [] && Resolves(namespace, g[..|g| - 1], env)
    requires Resolvable(namespace, g[|g| - 1].path.backend, env.servicePorts)
    ensures Resolves(namespace, g, env)
  {
    forall j | 0 <= j < |g| ensures Resolvable(namespace, g[j].path.backend, env.servicePorts) {
      assert j < |g| - 1 ==> g[..|g| - 1][j] == g[j];
    }
  }

  /** `rule` and `sources` are what the conversion makes of the paths `g`. */
  ghost predicate MadeOf(namespace: string, rule: RouteRule, sources: seq<BackendSource>, g: seq<SourcedPath>, env: Env)
  {
    && g != [] && ToRouteMatch(g[0].path, env).Ok?
    && rule.matches == [RouteMatch(ToRouteMatch(g[0].path, env).value, [])]
    && |rule.backendRefs| == |g| == |sources|
    && Resolves(namespace, g, env)
    && forall j | 0 <= j < |g| ::
         && Ok(rule.backendRefs[j]) == ToBackendRef(namespace, g[j].path.backend, env.servicePorts)
         && sources[j] == SourceOf(g[j])
  }

  ghost predicate AllMade(namespace: string, rules: seq<RouteRule>, sources: seq<seq<BackendSource>>,
          groups: seq<seq<SourcedPath>>, env: Env)
  {
    && |rules| == |groups| == |sources|
    && forall i | 0 <= i < |groups| :: MadeOf(namespace, rules[i], sources[i], groups[i], env)
  }

  lemma {:induction false} AllMadeSnoc(namespace: string, b: Built, t: Built, groups: seq<seq<SourcedPath>>, env: Env,
          rule: RouteRule, s: seq<BackendSource>)
    requires groups != [] && AllMade(namespace, t.rules, t.sources, groups[..|groups| - 1], env)
    requires MadeOf(namespace, rule, s, groups[|groups| - 1], env)
    requires b.rules == t.rules + [rule] && b.sources == t.sources + [s]
    ensures AllMade(namespace, b.rules, b.sources, groups, env)
  {
  }

  lemma {:induction false} BuiltStep(namespace: string, groups: seq<seq<SourcedPath>>, env: Env)
    returns (rule: RouteRule, s: seq<BackendSource>)
    requires NonEmptyGroups(groups) && groups != [] && BuildRules(namespace, groups, env).errors == []
    ensures var b, t := BuildRules(namespace, groups, env), BuildRules(namespace, groups[..|groups| - 1], env);
            && t.errors == [] && b.rules == t.rules + [rule] && b.sources == t.sources + [s]
            && MadeOf(namespace, rule, s, groups[|groups| - 1], env)
  {
    var n := |groups| - 1;
    var g := groups[n];
    RefsAt(namespace, g, env);
    rule, s := RuleOf(namespace, g, n, ToRouteMatch(g[0].path, env).value, env), SourcesOf(namespace, g, env);
  }

  lemma {:induction false} BuiltFrom(namespace: string, groups: seq<seq<SourcedPath>>, env: Env)
    requires NonEmptyGroups(groups) && BuildRules(namespace, groups, env).errors == []
    ensures var b := BuildRules(namespace, groups, env); AllMade(namespace, b.rules, b.sources, groups, env)
  {
    if groups != [] {
      var t := groups[..|groups| - 1];
      var rule, s := BuiltStep(namespace, groups, env);
      BuiltFrom(namespace, t, env);
      AllMadeSnoc(namespace, BuildRules(namespace, groups, env), BuildRules(namespace, t, env), groups, env, rule, s);
    }
  }

  /** The rules of a converted route are named after the type and path of their paths, and numbered in order. */
  lemma {:induction false} RulesNamed(namespace: string, groups: seq<seq<SourcedPath>>, env: Env)
    requires NonEmptyGroups(groups) && BuildRules(namespace, groups, env).errors == []
    ensures NamedInOrder(BuildRules(namespace, groups, env).rules, groups)
  {
    if groups != [] {
      LastNamed(namespace, groups, env);
      RulesNamed(namespace, groups[..|groups| - 1], env);
      NamedLast(BuildRules(namespace, groups, env).rules, groups);
    }
  }

  ghost predicate NamedInOrder(rules: seq<RouteRule>, groups: seq<seq<SourcedPath>>) {
    |rules| == |groups| && forall i | 0 <= i < |groups| :: NamedAfter(rules[i], groups[i], i)
  }

  ghost predicate NamedAfter(rule: RouteRule, g: seq<SourcedPath>, i: nat) {
    g != [] && g[0].path.pathType.Some? && rule.name == Some(RuleName(g[0].path.pathType.value, g[0].path.path, i))
  }

  lemma {:induction false} NamedLast(rules: seq<RouteRule>, groups: seq<seq<SourcedPath>>)
    requires groups != [] && |rules| == |groups| && NamedInOrder(rules[..|rules| - 1], groups[..|groups| - 1])
    requires NamedAfter(rules[|rules| - 1], groups[|groups| - 1], |groups| - 1)
    ensures NamedInOrder(rules, groups)
  {
    forall i | 0 <= i < |groups| ensures NamedAfter(rules[i], groups[i], i) {
      assert i < |groups| - 1 ==> NamedAfter(rules[..|rules| - 1][i], groups[..|groups| - 1][i], i);
    }
  }

  lemma {:induction false} LastNamed(namespace: string, groups: seq<seq<SourcedPath>>, env: Env)
    requires NonEmptyGroups(groups) && groups != [] && BuildRules(namespace, groups, env).errors == []
    ensures var n := |groups| - 1;
            var b, t := BuildRules(namespace, groups, env), BuildRules(namespace, groups[..n], env);
            && t.errors == [] && |b.rules| == |t.rules| + 1 && b.rules[..|t.rules|] == t.rules
            && NamedAfter(b.rules[|t.rules|], groups[n], n)
  {
  }

  lemma {:induction false} FitsIff(g: seq<SourcedPath>, sources: seq<BackendSource>)
    requires g != [] && |sources| == |g| && forall j | 0 <= j < |g| :: sources[j] == SourceOf(g[j])
    ensures CanaryFits(sources) <==> PathsFit(g)
  {
    forall j | 0 <= j < |g| ensures SourceReads(sources[j], g[j]) {
      ValidIff(g[j].ingress);
    }
    if CanaryFits(sources) {
      PlanFound(sources, 0);
      FitsMeansPaths(g, sources);
    }
    if PathsFit(g) {
      PathsMeanFit(g, sources);
    }
  }

  ghost predicate SourceReads(s: BackendSource, p: SourcedPath) {
    && s.ingress == Some(p.ingress) && (IsCanary(s) <==> IsCanaryPath(p)) && (IsStable(s) <==> !IsCanaryPath(p))
    && (ValidCanary(p.ingress) <==> SaneWeights(p.ingress))
  }

  lemma {:induction false} FitsMeansPaths(g: seq<SourcedPath>, sources: seq<BackendSource>)
    requires 1 <= |sources| == |g| <= 2 && forall j | 0 <= j < |g| :: SourceReads(sources[j], g[j])
    requires CanaryFits(sources)
    ensures PathsFit(g)
  {
    if |g| == 2 {
      assert !(IsCanary(sources[0]) && IsCanary(sources[1])) && !(IsStable(sources[0]) && IsStable(sources[1]));
    }
  }

  lemma {:induction false} PathsMeanFit(g: seq<SourcedPath>, sources: seq<BackendSource>)
    requires |sources| == |g| && forall j | 0 <= j < |g| :: SourceReads(sources[j], g[j])
    requires PathsFit(g)
    ensures CanaryFits(sources)
  {
    assert SourceReads(sources[0], g[0]);
    if |g| == 1 {
      OneFits(sources);
    } else {
      assert SourceReads(sources[1], g[1]);
      PairFits(sources, CanaryIndex(g));
    }
  }

  lemma {:induction false} OneFits(sources: seq<BackendSource>)
    requires |sources| == 1 && IsStable(sources[0]) && !IsCanary(sources[0])
    ensures CanaryFits(sources)
  {
  }

  lemma {:induction false} PairFits(sources: seq<BackendSource>, c: nat)
    requires |sources| == 2 && c <= 1 && IsCanary(sources[c]) && !IsStable(sources[c])
    requires IsStable(sources[1 - c]) && !IsCanary(sources[1 - c]) && ValidCanary(sources[c].ingress.value)
    ensures CanaryFits(sources)
  {
  }

  /** The traffic expected of a rule is the traffic its paths ask for. */
  lemma {:induction false} AnnotatedIsAsked(namespace: string, rule: RouteRule, sources: seq<BackendSource>,
          g: seq<SourcedPath>, env: Env, req: Request, key: RefKey)
    requires MadeOf(namespace, rule, sources, g, env) && PathsFit(g)
    ensures OneOrCanaryPair(rule, sources)
    ensures AnnotatedShare(rule, sources, req, key) == Asked(namespace, g, env, req, key)
    ensures Settled(rule, sources, req) <==> Decided(namespace, g, env, req)
  {
    KeysOfPaths(namespace, rule, sources, g, env);
    KeyMeans(rule.backendRefs[0], rule.backendRefs[|g| - 1], key);
    KeyMeans(rule.backendRefs[|g| - 1], rule.backendRefs[0], key);
    forall j | 0 <= j < |g| ensures ReadsPath(sources[j], g[j]) {}
    if |g| == 2 {
      PairIsAsked(namespace, rule, sources, g, env, req, key);
    }
  }

  ghost predicate ReadsPath(s: BackendSource, p: SourcedPath) {
    s.ingress == Some(p.ingress) && (MarkedCanary(s) <==> IsCanaryPath(p))
  }

  lemma {:induction false} PairIsAsked(namespace: string, rule: RouteRule, sources: seq<BackendSource>,
          g: seq<SourcedPath>, env: Env, req: Request, key: RefKey)
    requires |g| == |sources| == |rule.backendRefs| == 2 && PathsFit(g) && Resolves(namespace, g, env)
    requires forall j | 0 <= j < 2 :: ReadsPath(sources[j], g[j])
    requires forall j | 0 <= j < 2 :: RefersTo(rule.backendRefs[j], key) <==> BackendOf(namespace, g[j], env) == key
    requires SameBackend(rule.backendRefs[0], rule.backendRefs[1]) <==>
             BackendOf(namespace, g[0], env) == BackendOf(namespace, g[1], env)
    ensures OneOrCanaryPair(rule, sources)
    ensures AnnotatedShare(rule, sources, req, key) == Asked(namespace, g, env, req, key)
    ensures Settled(rule, sources, req) <==> Decided(namespace, g, env, req)
  {
    assert ReadsPath(sources[0], g[0]) && ReadsPath(sources[1], g[1]);
    assert CanaryAt(sources) == CanaryIndex(g);
  }

  lemma {:induction false} KeysOfPaths(namespace: string, rule: RouteRule, sources: seq<BackendSource>,
          g: seq<SourcedPath>, env: Env)
    requires MadeOf(namespace, rule, sources, g, env)
    ensures forall j | 0 <= j < |g| :: KeyOf(rule.backendRefs[j]) == BackendOf(namespace, g[j], env)
  {
    forall j | 0 <= j < |g| ensures KeyOf(rule.backendRefs[j]) == BackendOf(namespace, g[j], env) {
      var key := BackendOf(namespace, g[j], env);
      BackendRefMeans(namespace, g[j].path.backend, env.servicePorts, key);
      KeyMeans(rule.backendRefs[j], rule.backendRefs[j], key);
    }
  }

  // ---- the route of a group in the result ----

  lemma {:induction false} LastOfName(routes: seq<RouteContext>, i: nat)
    requires i < |routes| && forall j | i < j < |routes| :: routes[j].route.nn != routes[i].route.nn
    ensures routes[i].route.nn in RouteMap(routes) && RouteMap(routes)[routes[i].route.nn] == routes[i]
  {
    if i < |routes| - 1 {
      LastOfName(routes[..|routes| - 1], i);
    }
  }

  lemma {:induction false} RouteIsKept(ings: seq<Ingress>, env: Env, ir: ProviderIR, k: string)
    requires SlashFree(ings) && ClassesSlashFree(ings) && Converts(Groups(AllRules(ings)), AllDefaults(ings), env)
    requires IsConversion(Groups(AllRules(ings)), AllDefaults(ings), env, ir)
    requires NamesApart(InOrder(Groups(AllRules(ings))), AllDefaults(ings))
    requires k in Groups(AllRules(ings)) && PathsOf(Groups(AllRules(ings))[k].rules) != []
    ensures var rg := Groups(AllRules(ings))[k];
            && GroupRouteName(rg) in ir.routes && ir.routes[GroupRouteName(rg)] == RouteOf(rg, env)
            && BuiltOf(rg, env).errors == []
  {
    var groups, dbs := Groups(AllRules(ings)), AllDefaults(ings);
    var order, routes := InOrder(groups), RoutesOf(groups, dbs, env);
    var i := PositionOf(groups, k);
    RoutesOfFit(ings, env);
    GroupErrorsAt(order, i, env);
    NoLaterRoute(order, dbs, routes, i);
    LastOfName(routes, i);
    assert routes[i] == GroupRoutes(order, env)[i];
  }

  lemma {:induction false} NoLaterRoute(order: seq<RuleGroup>, dbs: seq<DefaultBackend>, routes: seq<RouteContext>,
          i: nat)
    requires RoutesFit(order, dbs, routes) && NamesApart(order, dbs) && i < |order| && PathsOf(order[i].rules) != []
    ensures forall j | i < j < |routes| :: routes[j].route.nn != routes[i].route.nn
  {
    forall j | i < j < |routes| ensures routes[j].route.nn != routes[i].route.nn {
      if j >= |order| {
        assert routes[|order| + (j - |order|)].route.nn == DefaultRouteName(dbs[j - |order|]);
      }
    }
  }

  // ---- the paths of a group and its rules ----

  /** A converted route, rule by rule and path by path. */
  ghost predicate Made(rg: RuleGroup, env: Env, rules: seq<RouteRule>, sources: seq<seq<BackendSource>>) {
    AllMade(rg.namespace, rules, sources, MatchGroupsOf(rg.rules), env)
  }

  lemma {:induction false} GroupIndex(rules: seq<SourcedRule>, p: SourcedPath) returns (i: nat)
    requires p in PathsOf(rules)
    ensures i < |MatchGroupsOf(rules)| && MatchGroupsOf(rules)[i] == Alike(PathsOf(rules), p)
  {
    var paths := PathsOf(rules);
    var keys := Firsts(paths, PathMatchKey);
    FirstsFacts(paths, PathMatchKey);
    var j :| 0 <= j < |paths| && paths[j] == p;
    assert PathMatchKey(paths[j]) in keys;
    i :| 0 <= i < |keys| && keys[i] == PathMatchKey(p);
  }

  lemma {:induction false} GroupMembers(rules: seq<SourcedRule>, i: nat)
    requires i < |MatchGroupsOf(rules)|
    ensures var g := MatchGroupsOf(rules)[i]; g != [] && g[0] in PathsOf(rules) && g == Alike(PathsOf(rules), g[0])
  {
    var paths := PathsOf(rules);
    var keys := Firsts(paths, PathMatchKey);
    var g := MatchGroupsOf(rules)[i];
    SelectMembers(paths, PathMatchKey, keys[i]);
    assert g[0] in g;
  }

  lemma {:induction false} AlikeMatches(paths: seq<SourcedPath>, p: SourcedPath, env: Env)
    requires p in paths
    ensures var g := Alike(paths, p); g != [] && ToRouteMatch(g[0].path, env) == ToRouteMatch(p.path, env)
  {
    SelectMembers(paths, PathMatchKey, PathMatchKey(p));
    var g := Alike(paths, p);
    assert p in g && g[0] in g;
    PathMatchKeyIsExact(g[0], p);
  }

  lemma {:induction false} GroupsDiffer(rules: seq<SourcedRule>, i: nat, j: nat)
    requires i < |MatchGroupsOf(rules)| && j < |MatchGroupsOf(rules)| && i != j
    ensures var groups: seq<seq<SourcedPath>> := MatchGroupsOf(rules);
            && groups[i] != [] && groups[j] != [] && groups[i][0] in PathsOf(rules) && groups[j][0] in PathsOf(rules)
            && PathMatchKey(groups[i][0]) != PathMatchKey(groups[j][0])
  {
    var groups: seq<seq<SourcedPath>> := MatchGroupsOf(rules);
    var keys := Firsts(PathsOf(rules), PathMatchKey);
    FirstsFacts(PathsOf(rules), PathMatchKey);
    SelectMembers(PathsOf(rules), PathMatchKey, keys[i]);
    SelectMembers(PathsOf(rules), PathMatchKey, keys[j]);
    assert groups[i][0] in groups[i] && groups[j][0] in groups[j];
    assert keys[i] != keys[j];
  }

  lemma {:induction false} AllFitIff(rg: RuleGroup, env: Env, rules: seq<RouteRule>, sources: seq<seq<BackendSource>>)
    requires Made(rg, env, rules, sources)
    ensures AllFit(sources, |sources|) <==> AllPathsFit(PathsOf(rg.rules))
  {
    var groups: seq<seq<SourcedPath>> := MatchGroupsOf(rg.rules);
    forall i | 0 <= i < |sources| ensures CanaryFits(sources[i]) <==> PathsFit(groups[i]) {
      FitsIff(groups[i], sources[i]);
    }
    if AllFit(sources, |sources|) {
      forall p | p in PathsOf(rg.rules) ensures PathsFit(Alike(PathsOf(rg.rules), p)) {
        var i := GroupIndex(rg.rules, p);
      }
    }
    if AllPathsFit(PathsOf(rg.rules)) {
      forall i | 0 <= i < |sources| ensures CanaryFits(sources[i]) {
        GroupMembers(rg.rules, i);
      }
    }
  }

  /** The rule of a path, and its match. */
  lemma {:induction false} RuleOfPath(rg: RuleGroup, env: Env, rules: seq<RouteRule>, sources: seq<seq<BackendSource>>,
          q: SourcedPath)
    returns (j: nat)
    requires Made(rg, env, rules, sources) && q in PathsOf(rg.rules)
    ensures j < |rules| && ToRouteMatch(q.path, env).Ok?
    ensures rules[j].matches == [RouteMatch(ToRouteMatch(q.path, env).value, [])]
  {
    j := GroupIndex(rg.rules, q);
    AlikeMatches(PathsOf(rg.rules), q, env);
    assert MadeOf(rg.namespace, rules[j], sources[j], MatchGroupsOf(rg.rules)[j], env);
  }

  /** And the path of a rule. */
  lemma {:induction false} PathOfRule(rg: RuleGroup, env: Env, rules: seq<RouteRule>, sources: seq<seq<BackendSource>>,
          i: nat)
    requires Made(rg, env, rules, sources) && i < |rules|
    ensures i < |MatchGroupsOf(rg.rules)|
    ensures var g := MatchGroupsOf(rg.rules)[i];
            && g != [] && g[0] in PathsOf(rg.rules) && ToRouteMatch(g[0].path, env).Ok?
            && rules[i].matches == [RouteMatch(ToRouteMatch(g[0].path, env).value, [])]
  {
    GroupMembers(rg.rules, i);
    assert MadeOf(rg.namespace, rules[i], sources[i], MatchGroupsOf(rg.rules)[i], env);
  }

  lemma {:induction false} BestIsTop(rg: RuleGroup, env: Env, rules: seq<RouteRule>, sources: seq<seq<BackendSource>>,
          req: Request, i: nat)
    requires Made(rg, env, rules, sources) && IsTop(rules, req, i)
    ensures i < |MatchGroupsOf(rg.rules)|
    ensures var g := MatchGroupsOf(rg.rules)[i]; g != [] && BestPath(PathsOf(rg.rules), g[0], env, req)
  {
    PathOfRule(rg, env, rules, sources, i);
    var p := MatchGroupsOf(rg.rules)[i][0];
    RouteMatchMeans(p.path, p.path, env, req.path);
    forall q | q in PathsOf(rg.rules) && Accepts(q, env, req)
      ensures !Precedes(q.path, p.path, env.implSpecific)
    {
      var j := RuleOfPath(rg, env, rules, sources, q);
      RouteMatchMeans(q.path, q.path, env, req.path);
      RouteMatchMeans(p.path, q.path, env, req.path);
      assert Matches(rules[j].matches[0], req);
    }
  }

  lemma {:induction false} MatchedIffAccepted(rg: RuleGroup, env: Env, rules: seq<RouteRule>,
          sources: seq<seq<BackendSource>>, req: Request)
    requires Made(rg, env, rules, sources)
    ensures SingleMatches(rules)
    ensures SomeMatch(rules, req) <==> exists p | p in PathsOf(rg.rules) :: Accepts(p, env, req)
  {
    forall i | 0 <= i < |rules| ensures |rules[i].matches| == 1 {
      PathOfRule(rg, env, rules, sources, i);
    }
    if i :| 0 <= i < |rules| && Matches(rules[i].matches[0], req) {
      PathOfRule(rg, env, rules, sources, i);
      var p := MatchGroupsOf(rg.rules)[i][0];
      RouteMatchMeans(p.path, p.path, env, req.path);
      assert Accepts(p, env, req);
    }
    if p :| p in PathsOf(rg.rules) && Accepts(p, env, req) {
      RouteMatchMeans(p.path, p.path, env, req.path);
      var j := RuleOfPath(rg, env, rules, sources, p);
      assert Matches(rules[j].matches[0], req);
    }
  }

  // ---- the theorem ----

  /** What the emitted rules of a group do with a request: they serve it iff a path of the group accepts it; then the
      serving rule belongs to a path of highest precedence, and splits the traffic as the annotations of the Ingresses
      with that path say, iff header, weight or the backends themselves decide it. */
  ghost predicate ServesAsAsked(namespace: string, paths: seq<SourcedPath>, env: Env, req: Request, out: seq<RouteRule>)
  {
    && ((exists w: nat :: IsWinner(out, req, w)) <==> exists p | p in paths :: Accepts(p, env, req))
    && forall w: nat | IsWinner(out, req, w) :: TotalWeight(out[w].backendRefs) != 0 &&
         exists p ::
           BestPath(paths, p, env, req) && SplitsAsAsked(namespace, Alike(paths, p), env, req, out[w].backendRefs)
  }

  ghost predicate SplitsAsAsked(namespace: string, g: seq<SourcedPath>, env: Env, req: Request, refs: seq<BackendRef>)
    requires TotalWeight(refs) != 0
  {
    && PathsFit(g) && Resolves(namespace, g, env)
    && ((forall key :: Share(refs, key) == Asked(namespace, g, env, req, key)) <==> Decided(namespace, g, env, req))
  }

  lemma {:induction false} MadeServes(rg: RuleGroup, env: Env, rules: seq<RouteRule>, sources: seq<seq<BackendSource>>,
          out: seq<RouteRule>, req: Request)
    requires Made(rg, env, rules, sources) && BaseRules(rules, sources) && Indexable(rules, sources)
    requires AllPathsFit(PathsOf(rg.rules)) && Emits(rules, sources, out)
    ensures ServesAsAsked(rg.namespace, PathsOf(rg.rules), env, req, out)
  {
    AllFitIff(rg, env, rules, sources);
    ExpandErrorFree(rules, sources, |sources|);
    assert ErrorFree(rules, sources, |sources|);
    CanaryRoutingTotal(rules, sources, out, req);
    MatchedIffAccepted(rg, env, rules, sources, req);
    WinnerExists(rules, req);
    forall w: nat | IsWinner(out, req, w)
      ensures TotalWeight(out[w].backendRefs) != 0
      ensures exists p :: BestPath(PathsOf(rg.rules), p, env, req)
                          && SplitsAsAsked(rg.namespace, Alike(PathsOf(rg.rules), p), env, req, out[w].backendRefs)
    {
      var i := SharedMatchRouting(rules, sources, out, req, w);
      BestIsTop(rg, env, rules, sources, req, i);
      GroupMembers(rg.rules, i);
      RuleServes(rg, env, rules, sources, req, i, out[w].backendRefs);
    }
  }

  lemma {:induction false} RuleServes(rg: RuleGroup, env: Env, rules: seq<RouteRule>, sources: seq<seq<BackendSource>>,
          req: Request, i: nat, refs: seq<BackendRef>)
    requires Made(rg, env, rules, sources) && i < |rules|
    requires AllPathsFit(PathsOf(rg.rules)) && AsAnnotated(rules[i], sources[i], req, refs)
    ensures SplitsAsAsked(rg.namespace, MatchGroupsOf(rg.rules)[i], env, req, refs)
  {
    var g := MatchGroupsOf(rg.rules)[i];
    GroupMembers(rg.rules, i);
    assert MadeOf(rg.namespace, rules[i], sources[i], g, env);
    forall k ensures AnnotatedShare(rules[i], sources[i], req, k) == Asked(rg.namespace, g, env, req, k) {
      AnnotatedIsAsked(rg.namespace, rules[i], sources[i], g, env, req, k);
    }
    AnnotatedIsAsked(rg.namespace, rules[i], sources[i], g, env, req, RefKey("", 0, "", ""));
  }

  /** `n` runs of canaryFeature on a route stay in range iff there is one or no source is a header canary, and the rules
      emitted from what they leave serve the request as asked. */
  ghost predicate ServedAfterRuns(rg: RuleGroup, env: Env, ctx: RouteContext, n: nat, out: seq<RouteRule>, req: Request)
  {
    var rules, sources := ctx.route.rules, ctx.sources;
    && BaseRules(rules, sources)
    && (Runnable(rules, sources, n) <==> n <= 1 || !HasHeaderCanary(sources, |sources|))
    && (Runnable(rules, sources, n) && EmitsRules(AfterRuns(rules, sources, n), out) ==>
          ServesAsAsked(rg.namespace, PathsOf(rg.rules), env, req, out))
  }

  lemma {:induction false} GroupServes(rg: RuleGroup, env: Env, n: nat, out: seq<RouteRule>, req: Request)
    requires n >= 1 && BuiltOf(rg, env).errors == []
    requires AllPathsFit(PathsOf(rg.rules))
    ensures ServedAfterRuns(rg, env, RouteOf(rg, env), n, out, req)
  {
    var ctx := RouteOf(rg, env);
    var rules, sources := ctx.route.rules, ctx.sources;
    BuiltFrom(rg.namespace, MatchGroupsOf(rg.rules), env);
    assert Made(rg, env, rules, sources);
    ConvertedRouteQualifies(rg, env);
    BaseIsIndexable(rules, sources);
    AllFitIff(rg, env, rules, sources);
    RunsIff(rules, sources, n);
    if Runnable(rules, sources, n) && EmitsRules(AfterRuns(rules, sources, n), out) {
      assert Emits(rules, sources, out);
      MadeServes(rg, env, rules, sources, out, req);
    }
  }

  /** The group's route is in the result under its own name, fits its Gateway, and serves the request after as many runs
      of canaryFeature as groups bear that name. */
  ghost predicate HostServed(groups: map<string, RuleGroup>, env: Env, ir: ProviderIR, k: string, out: seq<RouteRule>,
          req: Request)
    requires k in groups
  {
    var rg := groups[k];
    var n := Namesakes(groups, groups.Keys, GroupRouteName(rg));
    && GroupRouteName(rg) in ir.routes && NN(rg.namespace, rg.ingressClass) in ir.gateways
    && FitsGroup(rg, ir.routes[GroupRouteName(rg)].route, ir.gateways[NN(rg.namespace, rg.ingressClass)])
    && n >= 1 && ServedAfterRuns(rg, env, ir.routes[GroupRouteName(rg)], n, out, req)
  }

  lemma {:induction false} GroupIsServed(groups: map<string, RuleGroup>, env: Env, ir: ProviderIR, k: string,
          out: seq<RouteRule>, req: Request)
    requires k in groups && GroupRouteName(groups[k]) in ir.routes
    requires NN(groups[k].namespace, groups[k].ingressClass) in ir.gateways
    requires ir.routes[GroupRouteName(groups[k])] == RouteOf(groups[k], env)
    requires var rg := groups[k];
             FitsGroup(rg, RouteOf(rg, env).route, ir.gateways[NN(rg.namespace, rg.ingressClass)])
    requires BuiltOf(groups[k], env).errors == []
    requires AllPathsFit(PathsOf(groups[k].rules))
    ensures HostServed(groups, env, ir, k, out, req)
  {
    var nn := GroupRouteName(groups[k]);
    assert Namesakes(groups, groups.Keys, nn) >= 1 by {
      Smaller({k}, WithName(groups, groups.Keys, nn));
    }
    GroupServes(groups[k], env, Namesakes(groups, groups.Keys, nn), out, req);
  }

  /** From the Ingresses to the served request. Take any successful conversion whose route names do not collide, and a
      host whose paths fit the canary rules. Its route is in the result, under its Gateway.
      canaryFeature expands it once for each group that bears its name, which indexes out of range iff there are several
      and the host has a header canary; and whatever rules the emission passes make of what it leaves serve every
      request as the Ingresses ask. */
  lemma {:induction false} RequestsServedAsAsked(ings: seq<Ingress>, env: Env, ir: ProviderIR, k: string,
          out: seq<RouteRule>, req: Request)
    requires SlashFree(ings) && ClassesSlashFree(ings) && Converts(Groups(AllRules(ings)), AllDefaults(ings), env)
    requires IsConversion(Groups(AllRules(ings)), AllDefaults(ings), env, ir)
    requires NamesApart(InOrder(Groups(AllRules(ings))), AllDefaults(ings))
    requires k in Groups(AllRules(ings)) && PathsOf(Groups(AllRules(ings))[k].rules) != []
    requires AllPathsFit(PathsOf(Groups(AllRules(ings))[k].rules))
    ensures HostServed(Groups(AllRules(ings)), env, ir, k, out, req)
  {
    RouteIsKept(ings, env, ir, k);
    GatewayFitsGroup(ings, env, ir, k);
    GroupIsServed(Groups(AllRules(ings)), env, ir, k, out, req);
  }
}
