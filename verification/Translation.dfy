/** What a conversion means: every Ingress path is one backendRef, under the translated match, in a route of its
    namespace, class and host, next to its own source. */
module Translation {
  import opened Text
  import opened Kube
  import opened Collect
  import opened Grouping
  import opened Paths
  import opened Converter
  import opened Sorting
  import opened Tally
  import opened Dedup
  import opened IngressSpec

  datatype Target = Target(
    namespace: string,
    ingressClass: string,
    host: string,
    match_: Option<PathMatch>,  // none for a default backend
    backend: BackendRef,
    source: BackendSource)

  // ---- what the Ingresses ask for ----

  predicate Translatable(p: SourcedPath, env: Env) {
    Understood(p.path, env.implSpecific) && Resolvable(p.ingress.namespace, p.path.backend, env.servicePorts)
  }

  ghost predicate AllTranslatable(paths: seq<SourcedPath>, env: Env) {
    forall i | 0 <= i < |paths| :: Translatable(paths[i], env)
  }

  function PathTarget(p: SourcedPath, env: Env): Target
    requires Translatable(p, env)
  {
    Target(p.ingress.namespace, IngressClass(p.ingress), p.host,
           Some(MatchAsked(p.path, env.implSpecific)),
           RefAsked(p.ingress.namespace, p.path.backend, env.servicePorts),
           BackendSource(Some(p.ingress), Some(p.path), None))
  }

  ghost function TargetsOf(paths: seq<SourcedPath>, env: Env): multiset<Target>
    requires AllTranslatable(paths, env)
  {
    if paths == [] then multiset{}
    else TargetsOf(paths[..|paths| - 1], env) + multiset{PathTarget(paths[|paths| - 1], env)}
  }

  function DefaultTarget(db: DefaultBackend, env: Env): Target
    requires DefaultErrors(db, env) == []
  {
    Target(db.namespace, db.ingressClass, "", None,
           RefAsked(db.namespace, db.backend, env.servicePorts),
           BackendSource(Some(db.source), None, Some(db.backend)))
  }

  ghost function DefaultTargets(dbs: seq<DefaultBackend>, env: Env): multiset<Target>
    requires AllDefaultErrors(dbs, env) == []
  {
    if dbs == [] then multiset{}
    else DefaultTargets(dbs[..|dbs| - 1], env) + multiset{DefaultTarget(dbs[|dbs| - 1], env)}
  }

  // ---- what the routes say ----

  predicate Paired(rules: seq<RouteRule>, sources: seq<seq<BackendSource>>) {
    |rules| == |sources| && forall i | 0 <= i < |rules| :: |rules[i].backendRefs| == |sources[i]|
  }

  ghost function ReadRefs(t: Target, refs: seq<BackendRef>, sources: seq<BackendSource>): multiset<Target>
    requires |refs| == |sources|
  {
    if refs == [] then multiset{}
    else
      var n := |refs| - 1;
      ReadRefs(t, refs[..n], sources[..n]) + multiset{t.(backend := refs[n], source := sources[n])}
  }

  ghost function ReadRules(t: Target, rules: seq<RouteRule>, sources: seq<seq<BackendSource>>): multiset<Target>
    requires Paired(rules, sources)
  {
    if rules == [] then multiset{}
    else
      var n := |rules| - 1;
      var m := if rules[n].matches == [] then None else Some(rules[n].matches[0].path);
      ReadRules(t, rules[..n], sources[..n]) + ReadRefs(t.(match_ := m), rules[n].backendRefs, sources[n])
  }

  /** The frame of a route: its namespace, parent Gateway and hostname. */
  ghost function Frame(route: HTTPRoute): Target {
    Target(route.nn.namespace,
           if route.parents == [] then "" else route.parents[0],
           if route.hostnames == [] then "" else route.hostnames[0],
           None, BackendRef(None, None, "", None, None, None), BackendSource(None, None, None))
  }

  ghost function ReadRoute(ctx: RouteContext): multiset<Target>
    requires Paired(ctx.route.rules, ctx.sources)
  {
    ReadRules(Frame(ctx.route), ctx.route.rules, ctx.sources)
  }

  ghost predicate AllPaired(routes: seq<RouteContext>) {
    forall i | 0 <= i < |routes| :: Paired(routes[i].route.rules, routes[i].sources)
  }

  ghost predicate MapPaired(m: map<NamespacedName, RouteContext>) {
    forall nn | nn in m :: Paired(m[nn].route.rules, m[nn].sources)
  }

  /** Everything the emitted map of routes says. */
  ghost function ReadMap(m: map<NamespacedName, RouteContext>): multiset<Target>
    requires MapPaired(m)
  {
    MapSum(map nn | nn in m :: ReadRoute(m[nn]))
  }

  ghost function Entries(routes: seq<RouteContext>): (es: seq<Entry<NamespacedName, Target>>)
    requires AllPaired(routes)
    ensures |es| == |routes|
    ensures forall i | 0 <= i < |es| :: es[i] == Entry(routes[i].route.nn, ReadRoute(routes[i]))
  {
    seq(|routes|, i requires 0 <= i < |routes| => Entry(routes[i].route.nn, ReadRoute(routes[i])))
  }

  /** What each route of the map says. */
  ghost function ReadEach(m: map<NamespacedName, RouteContext>): map<NamespacedName, multiset<Target>>
    requires MapPaired(m)
  {
    map nn | nn in m :: ReadRoute(m[nn])
  }

  lemma {:induction false} ReadEachUpdate(m: map<NamespacedName, RouteContext>, nn: NamespacedName, c: RouteContext)
    requires MapPaired(m) && Paired(c.route.rules, c.sources)
    ensures MapPaired(m[nn := c]) && ReadEach(m[nn := c]) == ReadEach(m)[nn := ReadRoute(c)]
  {
  }

  lemma {:induction false} EntriesInit(routes: seq<RouteContext>)
    requires AllPaired(routes) && routes != []
    ensures var n := |routes| - 1;
            && AllPaired(routes[..n]) && Entries(routes)[..n] == Entries(routes[..n])
            && Entries(routes)[n] == Entry(routes[n].route.nn, ReadRoute(routes[n]))
  {
  }

  lemma {:induction false} MapOfEntries(routes: seq<RouteContext>)
    requires AllPaired(routes)
    ensures MapPaired(RouteMap(routes))
    ensures (map nn | nn in RouteMap(routes) :: ReadRoute(RouteMap(routes)[nn])) == LastWins(Entries(routes))
  {
    EachOfEntries(routes);
  }

  lemma {:induction false} EachOfEntries(routes: seq<RouteContext>)
    requires AllPaired(routes)
    ensures MapPaired(RouteMap(routes)) && ReadEach(RouteMap(routes)) == LastWins(Entries(routes))
  {
    if routes == [] {
      assert Entries(routes) == [];
    } else {
      var n := |routes| - 1;
      EntriesInit(routes);
      EachOfEntries(routes[..n]);
      ReadEachUpdate(RouteMap(routes[..n]), routes[n].route.nn, routes[n]);
    }
  }

  // ---- name collisions ----

  predicate NoBackends(rules: seq<RouteRule>) { forall i | 0 <= i < |rules| :: rules[i].backendRefs == [] }

  /** Whenever two routes get the same namespace and name, the earlier one has no backends to lose. */
  ghost predicate NothingHidden(routes: seq<RouteContext>) {
    forall i, j | 0 <= i < j < |routes| && routes[i].route.nn == routes[j].route.nn :: NoBackends(routes[i].route.rules)
  }

  lemma {:induction false} ReadRefsEmpty(t: Target, refs: seq<BackendRef>, sources: seq<BackendSource>)
    requires |refs| == |sources|
    ensures ReadRefs(t, refs, sources) == multiset{} <==> refs == []
  {
  }

  lemma {:induction false} ReadRulesEmpty(t: Target, rules: seq<RouteRule>, sources: seq<seq<BackendSource>>)
    requires Paired(rules, sources)
    ensures ReadRules(t, rules, sources) == multiset{} <==> NoBackends(rules)
  {
    if rules != [] {
      var n := |rules| - 1;
      ReadRulesEmpty(t, rules[..n], sources[..n]);
      var m := if rules[n].matches == [] then None else Some(rules[n].matches[0].path);
      ReadRefsEmpty(t.(match_ := m), rules[n].backendRefs, sources[n]);
      EmptySum(ReadRules(t, rules[..n], sources[..n]), ReadRefs(t.(match_ := m), rules[n].backendRefs, sources[n]));
      NoBackendsLast(rules);
    }
  }

  lemma {:induction false} NoBackendsLast(rules: seq<RouteRule>)
    requires rules != []
    ensures var n := |rules| - 1; NoBackends(rules) <==> NoBackends(rules[..n]) && rules[n].backendRefs == []
  {
    var t := rules[..|rules| - 1];
    assert forall i | 0 <= i < |t| :: t[i] == rules[i];
  }

  lemma {:induction false} EmptySum(a: multiset<Target>, b: multiset<Target>)
    ensures a + b == multiset{} <==> a == multiset{} && b == multiset{}
  {
    assert |a + b| == |a| + |b|;
  }

  /** The emitted map says no more than the list of built routes, and says exactly as much iff nothing is hidden. */
  lemma {:induction false} MapAgainstList(routes: seq<RouteContext>)
    requires AllPaired(routes)
    ensures MapPaired(RouteMap(routes))
    ensures ReadMap(RouteMap(routes)) <= Total(Entries(routes))
    ensures ReadMap(RouteMap(routes)) == Total(Entries(routes)) <==> NothingHidden(routes)
  {
    MapOfEntries(routes);
    var es := Entries(routes);
    TableAgainstEntries(es);
    forall i | 0 <= i < |routes| ensures es[i].content == multiset{} <==> NoBackends(routes[i].route.rules) {
      ReadRulesEmpty(Frame(routes[i].route), routes[i].route.rules, routes[i].sources);
    }
    if NothingHidden(routes) {
      forall i: nat | Overwritten(es, i) ensures es[i].content == multiset{} {
        var j :| i < j < |es| && es[j].key == es[i].key;
        assert routes[i].route.nn == routes[j].route.nn;
      }
    }
    if NothingLost(es) {
      forall i, j | 0 <= i < j < |routes| && routes[i].route.nn == routes[j].route.nn
        ensures NoBackends(routes[i].route.rules)
      {
        assert es[j].key == es[i].key && Overwritten(es, i);
      }
    }
  }

  // ---- one group ----

  /** All rules of a group share its namespace, class and host. */
  ghost predicate Homogeneous(rg: RuleGroup) {
    forall i | 0 <= i < |rg.rules| ::
      rg.rules[i].ingress.namespace == rg.namespace && IngressClass(rg.rules[i].ingress) == rg.ingressClass
      && rg.rules[i].rule.host == rg.host
  }

  ghost predicate InFrame(paths: seq<SourcedPath>, namespace: string, ingressClass: string, host: string) {
    forall i | 0 <= i < |paths| ::
      paths[i].ingress.namespace == namespace && IngressClass(paths[i].ingress) == ingressClass && paths[i].host == host
  }

  lemma {:induction false} PathsInFrame(rules: seq<SourcedRule>, namespace: string, ingressClass: string, host: string)
    requires forall i | 0 <= i < |rules| ::
               rules[i].ingress.namespace == namespace && IngressClass(rules[i].ingress) == ingressClass
               && rules[i].rule.host == host
    ensures InFrame(PathsOf(rules), namespace, ingressClass, host)
  {
    if rules != [] {
      PathsInFrame(rules[..|rules| - 1], namespace, ingressClass, host);
    }
  }

  lemma {:induction false} TargetsConcat(a: seq<SourcedPath>, b: seq<SourcedPath>, env: Env)
    requires AllTranslatable(a, env) && AllTranslatable(b, env)
    ensures AllTranslatable(a + b, env)
    ensures TargetsOf(a + b, env) == TargetsOf(a, env) + TargetsOf(b, env)
  {
    if b == [] {
      assert a + b == a;
    } else {
      var t, x := b[..|b| - 1], b[|b| - 1];
      TargetsConcat(a, t, env);
      TargetsSnoc(a + t, x, env);
      ConcatSnoc(a, b);
    }
  }

  lemma {:induction false} TargetsSnoc(s: seq<SourcedPath>, x: SourcedPath, env: Env)
    requires AllTranslatable(s, env) && Translatable(x, env)
    ensures AllTranslatable(s + [x], env)
    ensures TargetsOf(s + [x], env) == TargetsOf(s, env) + multiset{PathTarget(x, env)}
  {
    assert (s + [x])[..|s|] == s;
  }

  /** Targets count multiplicities only. */
  lemma {:induction false} TargetsOfPermutation(a: seq<SourcedPath>, b: seq<SourcedPath>, env: Env)
    requires multiset(a) == multiset(b) && AllTranslatable(a, env) && AllTranslatable(b, env)
    ensures TargetsOf(a, env) == TargetsOf(b, env)
  {
    var fa := seq(|a|, i requires 0 <= i < |a| => PathTarget(a[i], env));
    var fb := seq(|b|, i requires 0 <= i < |b| => PathTarget(b[i], env));
    TargetsAreImages(a, fa, env);
    TargetsAreImages(b, fb, env);
    ImagesPermute(a, fa, b, fb);
  }

  lemma {:induction false} TargetsAreImages(paths: seq<SourcedPath>, images: seq<Target>, env: Env)
    requires AllTranslatable(paths, env) && |images| == |paths|
    requires forall i | 0 <= i < |paths| :: images[i] == PathTarget(paths[i], env)
    ensures TargetsOf(paths, env) == multiset(images)
  {
    if paths != [] {
      var n := |paths| - 1;
      TargetsAreImages(paths[..n], images[..n], env);
      LastOfMultiset(images);
    }
  }

  lemma {:induction false} NoRefErrors(namespace: string, g: seq<SourcedPath>, env: Env)
    ensures RefErrors(namespace, g, env) == [] <==>
            forall i | 0 <= i < |g| :: ToBackendRef(namespace, g[i].path.backend, env.servicePorts).Ok?
  {
    if g != [] {
      NoRefErrors(namespace, g[..|g| - 1], env);
      assert g == g[..|g| - 1] + [g[|g| - 1]];
    }
  }

  lemma {:induction false} ReadRefsOfGroup(t: Target, g: seq<SourcedPath>, m: PathMatch, env: Env)
    requires InFrame(g, t.namespace, t.ingressClass, t.host) && AllTranslatable(g, env)
    requires t.match_ == Some(m) && forall i | 0 <= i < |g| :: ToRouteMatch(g[i].path, env) == Ok(m)
    ensures |RefsOf(t.namespace, g, env)| == |SourcesOf(t.namespace, g, env)|
    ensures ReadRefs(t, RefsOf(t.namespace, g, env), SourcesOf(t.namespace, g, env)) == TargetsOf(g, env)
  {
    if g != [] {
      var n := |g| - 1;
      ReadRefsOfGroup(t, g[..n], m, env);
      var refs, sources := RefsOf(t.namespace, g[..n], env), SourcesOf(t.namespace, g[..n], env);
      var ref := ToBackendRef(t.namespace, g[n].path.backend, env.servicePorts);
      TargetOfPath(t, g[n], m, env);
      ReadRefsSnoc(t, refs, sources, ref.value, SourceOf(g[n]));
    }
  }

  lemma {:induction false} TargetOfPath(t: Target, p: SourcedPath, m: PathMatch, env: Env)
    requires InFrame([p], t.namespace, t.ingressClass, t.host) && Translatable(p, env)
    requires t.match_ == Some(m) && ToRouteMatch(p.path, env) == Ok(m)
    ensures var ref := ToBackendRef(t.namespace, p.path.backend, env.servicePorts);
            ref.Ok? && t.(backend := ref.value, source := SourceOf(p)) == PathTarget(p, env)
  {
    assert [p][0] == p;
    BackendRefMeans(t.namespace, p.path.backend, env.servicePorts, RefKey("", 0, "", ""));
  }

  lemma {:induction false} ReadRefsSnoc(t: Target, refs: seq<BackendRef>, sources: seq<BackendSource>, ref: BackendRef,
          source: BackendSource)
    requires |refs| == |sources|
    ensures ReadRefs(t, refs + [ref], sources + [source]) ==
            ReadRefs(t, refs, sources) + multiset{t.(backend := ref, source := source)}
  {
    assert (refs + [ref])[..|refs|] == refs && (sources + [source])[..|refs|] == sources;
  }

  ghost function Flatten(groups: seq<seq<SourcedPath>>): seq<SourcedPath> {
    if groups == [] then [] else Flatten(groups[..|groups| - 1]) + groups[|groups| - 1]
  }

  lemma {:induction false} BuildErrors(namespace: string, groups: seq<seq<SourcedPath>>, env: Env)
    requires NonEmptyGroups(groups) && (forall i | 0 <= i < |groups| :: Uniform(groups[i]))
    requires forall i, j | 0 <= i < |groups| && 0 <= j < |groups[i]| :: groups[i][j].ingress.namespace == namespace
    ensures BuildRules(namespace, groups, env).errors == [] <==> AllTranslatable(Flatten(groups), env)
  {
    if groups != [] {
      var n := |groups| - 1;
      BuildErrors(namespace, groups[..n], env);
      assert Uniform(groups[n]);
      forall j | 0 <= j < |groups[n]| ensures groups[n][j].ingress.namespace == namespace {}
      GroupBuildErrors(namespace, groups[n], env);
      AllTranslatableConcat(Flatten(groups[..n]), groups[n], env);
    }
  }

  lemma {:induction false} GroupBuildErrors(namespace: string, g: seq<SourcedPath>, env: Env)
    requires g != [] && Uniform(g) && forall j | 0 <= j < |g| :: g[j].ingress.namespace == namespace
    ensures AllTranslatable(g, env) <==> ToRouteMatch(g[0].path, env).Ok? && RefErrors(namespace, g, env) == []
  {
    NoRefErrors(namespace, g, env);
    forall i | 0 <= i < |g| ensures ToRouteMatch(g[i].path, env) == ToRouteMatch(g[0].path, env) {}
    assert AllTranslatable(g, env) ==> Translatable(g[0], env);
  }

  lemma {:induction false} AllTranslatableConcat(a: seq<SourcedPath>, b: seq<SourcedPath>, env: Env)
    ensures AllTranslatable(a + b, env) <==> AllTranslatable(a, env) && AllTranslatable(b, env)
  {
    if AllTranslatable(a + b, env) {
      forall i | 0 <= i < |a| ensures Translatable(a[i], env) { assert (a + b)[i] == a[i]; }
      forall i | 0 <= i < |b| ensures Translatable(b[i], env) { assert (a + b)[|a| + i] == b[i]; }
    }
  }

  lemma {:induction false} ReadRulesSnoc(t: Target, rules: seq<RouteRule>, sources: seq<seq<BackendSource>>,
          rule: RouteRule, src: seq<BackendSource>)
    requires Paired(rules, sources) && |rule.backendRefs| == |src| && rule.matches != []
    ensures Paired(rules + [rule], sources + [src])
    ensures ReadRules(t, rules + [rule], sources + [src])
            == ReadRules(t, rules, sources) + ReadRefs(t.(match_ := Some(rule.matches[0].path)), rule.backendRefs, src)
  {
    assert (rules + [rule])[..|rules|] == rules && (sources + [src])[..|rules|] == sources;
  }

  lemma {:induction false} UniformMatch(g: seq<SourcedPath>, env: Env)
    requires g != [] && Uniform(g) && AllTranslatable(g, env)
    ensures ToRouteMatch(g[0].path, env).Ok?
    ensures forall i | 0 <= i < |g| :: ToRouteMatch(g[i].path, env) == ToRouteMatch(g[0].path, env)
  {
    assert Translatable(g[0], env);
  }

  lemma {:induction false} ReadStep(t: Target, b: Built, before: Built, rule: RouteRule, s: seq<BackendSource>,
          flat: seq<SourcedPath>, start: seq<SourcedPath>, g: seq<SourcedPath>, env: Env)
    requires Paired(before.rules, before.sources) && |rule.backendRefs| == |s| && rule.matches != []
    requires b.rules == before.rules + [rule] && b.sources == before.sources + [s] && flat == start + g
    requires AllTranslatable(start, env) && AllTranslatable(g, env)
    requires ReadRules(t, before.rules, before.sources) == TargetsOf(start, env)
    requires ReadRefs(t.(match_ := Some(rule.matches[0].path)), rule.backendRefs, s) == TargetsOf(g, env)
    ensures Paired(b.rules, b.sources) && AllTranslatable(flat, env)
    ensures ReadRules(t, b.rules, b.sources) == TargetsOf(flat, env)
  {
    TargetsConcat(start, g, env);
    ReadRulesSnoc(t, before.rules, before.sources, rule, s);
  }

  lemma {:induction false} BuildStep(namespace: string, groups: seq<seq<SourcedPath>>, env: Env)
    requires NonEmptyGroups(groups) && groups != [] && ToRouteMatch(groups[|groups| - 1][0].path, env).Ok?
    ensures var n := |groups| - 1;
            var m := ToRouteMatch(groups[n][0].path, env).value;
            var b, before := BuildRules(namespace, groups, env), BuildRules(namespace, groups[..n], env);
            && b.rules == before.rules + [RuleOf(namespace, groups[n], n, m, env)]
            && b.sources == before.sources + [SourcesOf(namespace, groups[n], env)]
  {
  }

  lemma {:induction false} ReadBuilt(t: Target, groups: seq<seq<SourcedPath>>, env: Env)
    requires NonEmptyGroups(groups) && (forall i | 0 <= i < |groups| :: Uniform(groups[i]))
    requires forall i | 0 <= i < |groups| :: InFrame(groups[i], t.namespace, t.ingressClass, t.host)
    requires AllTranslatable(Flatten(groups), env)
    ensures var b := BuildRules(t.namespace, groups, env);
            Paired(b.rules, b.sources) && ReadRules(t, b.rules, b.sources) == TargetsOf(Flatten(groups), env)
  {
    if groups != [] {
      var n := |groups| - 1;
      var g := groups[n];
      AllTranslatableConcat(Flatten(groups[..n]), g, env);
      ReadBuilt(t, groups[..n], env);
      UniformMatch(g, env);
      var m := ToRouteMatch(g[0].path, env).value;
      ReadRefsOfGroup(t.(match_ := Some(m)), g, m, env);
      BuildStep(t.namespace, groups, env);
      ReadStep(t, BuildRules(t.namespace, groups, env), BuildRules(t.namespace, groups[..n], env),
               RuleOf(t.namespace, g, n, m, env), SourcesOf(t.namespace, g, env),
               Flatten(groups), Flatten(groups[..n]), g, env);
    }
  }

  lemma {:induction false} FlattenIsGather(paths: seq<SourcedPath>, keys: seq<string>, groups: seq<seq<SourcedPath>>)
    requires |groups| == |keys|
    requires forall i | 0 <= i < |keys| :: groups[i] == Select(paths, PathMatchKey, keys[i])
    ensures Flatten(groups) == Gather(paths, PathMatchKey, keys)
  {
    if keys != [] {
      FlattenIsGather(paths, keys[..|keys| - 1], groups[..|keys| - 1]);
    }
  }

  lemma {:induction false} FlattenedGroups(rules: seq<SourcedRule>)
    ensures multiset(Flatten(MatchGroupsOf(rules))) == multiset(PathsOf(rules))
  {
    var paths := PathsOf(rules);
    var keys := Firsts(paths, PathMatchKey);
    FlattenIsGather(paths, keys, MatchGroupsOf(rules));
    FirstsFacts(paths, PathMatchKey);
    GroupsPartition(paths, PathMatchKey, keys);
  }

  lemma {:induction false} GroupsInFrame(rg: RuleGroup)
    requires Homogeneous(rg)
    ensures forall i | 0 <= i < |MatchGroupsOf(rg.rules)| ::
              InFrame(MatchGroupsOf(rg.rules)[i], rg.namespace, rg.ingressClass, rg.host)
  {
    var paths := PathsOf(rg.rules);
    PathsInFrame(rg.rules, rg.namespace, rg.ingressClass, rg.host);
    var gs: seq<seq<SourcedPath>> := MatchGroupsOf(rg.rules);
    forall i | 0 <= i < |gs| ensures InFrame(gs[i], rg.namespace, rg.ingressClass, rg.host) {
      SelectMembers(paths, PathMatchKey, Firsts(paths, PathMatchKey)[i]);
      forall j | 0 <= j < |gs[i]|
        ensures gs[i][j].ingress.namespace == rg.namespace && IngressClass(gs[i][j].ingress) == rg.ingressClass
                && gs[i][j].host == rg.host
      {
        assert gs[i][j] in paths;
      }
    }
  }

  lemma {:induction false} AllTranslatableOfPermutation(a: seq<SourcedPath>, b: seq<SourcedPath>, env: Env)
    requires multiset(a) == multiset(b)
    ensures AllTranslatable(a, env) <==> AllTranslatable(b, env)
  {
    MultisetFacts(a, b);
    forall i | 0 <= i < |b| ensures b[i] in a {}
    forall i | 0 <= i < |a| ensures a[i] in b {}
  }

  /** A group converts iff each of its paths does, and its route then says exactly what the paths ask for. */
  lemma {:induction false} GroupTranslation(rg: RuleGroup, env: Env)
    requires Homogeneous(rg)
    ensures BuiltOf(rg, env).errors == [] <==> AllTranslatable(PathsOf(rg.rules), env)
    ensures Paired(RouteOf(rg, env).route.rules, RouteOf(rg, env).sources)
    ensures AllTranslatable(PathsOf(rg.rules), env) ==> ReadRoute(RouteOf(rg, env)) == TargetsOf(PathsOf(rg.rules), env)
  {
    var groups: seq<seq<SourcedPath>> := MatchGroupsOf(rg.rules);
    GroupsAreUniform(rg.rules);
    GroupsInFrame(rg);
    forall i, j | 0 <= i < |groups| && 0 <= j < |groups[i]| ensures groups[i][j].ingress.namespace == rg.namespace {
      assert InFrame(groups[i], rg.namespace, rg.ingressClass, rg.host);
    }
    BuildErrors(rg.namespace, groups, env);
    FlattenedGroups(rg.rules);
    AllTranslatableOfPermutation(Flatten(groups), PathsOf(rg.rules), env);
    RouteIsAligned(rg, env);
    if AllTranslatable(PathsOf(rg.rules), env) {
      ReadBuilt(Frame(RouteOf(rg, env).route), groups, env);
      TargetsOfPermutation(Flatten(groups), PathsOf(rg.rules), env);
    }
  }
}
