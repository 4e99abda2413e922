/** What the stages mean for each other: which Ingress lists the conversion translates in full, and what state it leaves
    to the TLS passthrough. */
module Pipeline {
  import opened Text
  import opened Names
  import opened Kube
  import opened Collect
  import opened Grouping
  import opened Paths
  import opened Converter
  import opened Translation
  import opened Sorting
  import opened Correctness
  import Determinism
  import Pass = Passthrough

  // ---- route names, on the inputs ----

  function GroupRouteName(rg: RuleGroup): NamespacedName { NN(rg.namespace, RouteName(rg.name, rg.host)) }
  function DefaultRouteName(db: DefaultBackend): NamespacedName { NN(db.namespace, db.name + "-default-backend") }

  /** No rule group with a path, and no default backend, shares its route name with a later group or default backend. */
  ghost predicate NamesApart(order: seq<RuleGroup>, dbs: seq<DefaultBackend>) {
    && (forall i, j | 0 <= i < j < |order| && GroupRouteName(order[i]) == GroupRouteName(order[j]) ::
          PathsOf(order[i].rules) == [])
    && (forall i, d | 0 <= i < |order| && 0 <= d < |dbs| && GroupRouteName(order[i]) == DefaultRouteName(dbs[d]) ::
          PathsOf(order[i].rules) == [])
    && (forall d, e | 0 <= d < e < |dbs| :: DefaultRouteName(dbs[d]) != DefaultRouteName(dbs[e]))
  }

  /** No two groups share a route name. */
  ghost predicate RouteNamesDistinct(groups: map<string, RuleGroup>) {
    forall j, k | j in groups && k in groups && GroupRouteName(groups[j]) == GroupRouteName(groups[k]) :: j == k
  }

  lemma {:induction false} TargetsEmpty(paths: seq<SourcedPath>, env: Env)
    requires AllTranslatable(paths, env)
    ensures TargetsOf(paths, env) == multiset{} <==> paths == []
  {
    if paths != [] {
      assert PathTarget(paths[|paths| - 1], env) in TargetsOf(paths, env);
    }
  }

  lemma {:induction false} GroupErrorsAt(order: seq<RuleGroup>, i: nat, env: Env)
    requires GroupErrors(order, env) == [] && i < |order|
    ensures BuiltOf(order[i], env).errors == []
  {
    if i < |order| - 1 {
      GroupErrorsAt(order[..|order| - 1], i, env);
    }
  }

  /** The routes of a successful conversion have backends exactly where their groups have paths. */
  lemma {:induction false} BackendsFromPaths(ings: seq<Ingress>, env: Env, i: nat)
    requires SlashFree(ings) && ClassesSlashFree(ings)
    requires Converts(Groups(AllRules(ings)), AllDefaults(ings), env)
    requires i < |InOrder(Groups(AllRules(ings)))|
    ensures var rg := InOrder(Groups(AllRules(ings)))[i];
            NoBackends(RouteOf(rg, env).route.rules) <==> PathsOf(rg.rules) == []
  {
    var rules := AllRules(ings);
    var rg := InOrder(Groups(rules))[i];
    AllRulesPlain(ings);
    GroupIsHomogeneous(rules, SortedStrings(Groups(rules).Keys)[i]);
    GroupErrorsAt(InOrder(Groups(rules)), i, env);
    GroupTranslation(rg, env);
    TargetsEmpty(PathsOf(rg.rules), env);
    ReadRulesEmpty(Frame(RouteOf(rg, env).route), RouteOf(rg, env).route.rules, RouteOf(rg, env).sources);
  }

  lemma {:induction false} DefaultErrorsAt(dbs: seq<DefaultBackend>, d: nat, env: Env)
    requires AllDefaultErrors(dbs, env) == [] && d < |dbs|
    ensures DefaultErrors(dbs[d], env) == []
  {
    if d < |dbs| - 1 {
      DefaultErrorsAt(dbs[..|dbs| - 1], d, env);
    }
  }

  lemma {:induction false} DefaultRouteAt(dbs: seq<DefaultBackend>, d: nat, env: Env)
    requires d < |dbs|
    ensures |DefaultRoutes(dbs, env)| == |dbs| && DefaultRoutes(dbs, env)[d] == DefaultRoute(dbs[d], env)
  {
    if d < |dbs| - 1 {
      DefaultRouteAt(dbs[..|dbs| - 1], d, env);
    } else if d > 0 {
      DefaultRouteAt(dbs[..|dbs| - 1], d - 1, env);
    }
  }

  /** `routes` are the routes of `order` followed by those of `dbs`, as far as names and emptiness go. */
  ghost predicate RoutesFit(order: seq<RuleGroup>, dbs: seq<DefaultBackend>, routes: seq<RouteContext>) {
    && |routes| == |order| + |dbs|
    && (forall i | 0 <= i < |order| ::
          routes[i].route.nn == GroupRouteName(order[i])
          && (NoBackends(routes[i].route.rules) <==> PathsOf(order[i].rules) == []))
    && (forall d | 0 <= d < |dbs| ::
          routes[|order| + d].route.nn == DefaultRouteName(dbs[d]) && !NoBackends(routes[|order| + d].route.rules))
  }

  lemma {:induction false} RoutesOfFit(ings: seq<Ingress>, env: Env)
    requires SlashFree(ings) && ClassesSlashFree(ings)
    requires Converts(Groups(AllRules(ings)), AllDefaults(ings), env)
    ensures RoutesFit(InOrder(Groups(AllRules(ings))), AllDefaults(ings),
                      RoutesOf(Groups(AllRules(ings)), AllDefaults(ings), env))
  {
    var order, dbs := InOrder(Groups(AllRules(ings))), AllDefaults(ings);
    forall i | 0 <= i < |order|
      ensures NoBackends(RouteOf(order[i], env).route.rules) <==> PathsOf(order[i].rules) == []
    {
      BackendsFromPaths(ings, env, i);
    }
    DefaultsFit(order, dbs, env);
  }

  ghost predicate GroupFits(rg: RuleGroup, c: RouteContext) {
    c.route.nn == GroupRouteName(rg) && (NoBackends(c.route.rules) <==> PathsOf(rg.rules) == [])
  }

  ghost predicate DefaultFits(db: DefaultBackend, c: RouteContext) {
    c.route.nn == DefaultRouteName(db) && !NoBackends(c.route.rules)
  }

  lemma {:induction false} RoutesFitConcat(order: seq<RuleGroup>, dbs: seq<DefaultBackend>, groups: seq<RouteContext>,
          defaults: seq<RouteContext>)
    requires |groups| == |order| && |defaults| == |dbs|
    requires forall i | 0 <= i < |order| :: GroupFits(order[i], groups[i])
    requires forall d | 0 <= d < |dbs| :: DefaultFits(dbs[d], defaults[d])
    ensures RoutesFit(order, dbs, groups + defaults)
  {
    var routes := groups + defaults;
    forall i | 0 <= i < |order| ensures GroupFits(order[i], routes[i]) {
      assert routes[i] == groups[i];
    }
    forall d | 0 <= d < |dbs| ensures DefaultFits(dbs[d], routes[|order| + d]) {
      assert routes[|order| + d] == defaults[d];
    }
  }

  lemma {:induction false} DefaultsFit(order: seq<RuleGroup>, dbs: seq<DefaultBackend>, env: Env)
    requires AllDefaultErrors(dbs, env) == []
    requires forall i | 0 <= i < |order| ::
               NoBackends(RouteOf(order[i], env).route.rules) <==> PathsOf(order[i].rules) == []
    ensures RoutesFit(order, dbs, GroupRoutes(order, env) + DefaultRoutes(dbs, env))
  {
    var groups, defaults := GroupRoutes(order, env), DefaultRoutes(dbs, env);
    DefaultCount(dbs, env);
    forall i | 0 <= i < |order| ensures GroupFits(order[i], groups[i]) {
      assert groups[i] == RouteOf(order[i], env);
      Determinism.RouteFrame(order[i], env);
    }
    forall d | 0 <= d < |dbs| ensures DefaultFits(dbs[d], defaults[d]) {
      DefaultRouteAt(dbs, d, env);
      DefaultErrorsAt(dbs, d, env);
      DefaultHasBackend(dbs[d], env);
    }
    RoutesFitConcat(order, dbs, groups, defaults);
  }

  lemma {:induction false} DefaultCount(dbs: seq<DefaultBackend>, env: Env)
    ensures |DefaultRoutes(dbs, env)| == |dbs|
  {
    if dbs != [] {
      DefaultCount(dbs[..|dbs| - 1], env);
    }
  }

  lemma {:induction false} DefaultHasBackend(db: DefaultBackend, env: Env)
    requires DefaultErrors(db, env) == []
    ensures DefaultRoute(db, env).route.nn == DefaultRouteName(db) && !NoBackends(DefaultRoute(db, env).route.rules)
  {
    assert DefaultRoute(db, env).route.rules[0].backendRefs != [];
  }

  lemma {:induction false} HiddenByName(order: seq<RuleGroup>, dbs: seq<DefaultBackend>, routes: seq<RouteContext>)
    requires RoutesFit(order, dbs, routes) && NothingHidden(routes)
    ensures NamesApart(order, dbs)
  {
    forall d, e | 0 <= d < e < |dbs| ensures DefaultRouteName(dbs[d]) != DefaultRouteName(dbs[e]) {
      assert routes[|order| + d].route.nn == DefaultRouteName(dbs[d]);
      assert routes[|order| + e].route.nn == DefaultRouteName(dbs[e]);
    }
    forall i, d | 0 <= i < |order| && 0 <= d < |dbs| && GroupRouteName(order[i]) == DefaultRouteName(dbs[d])
      ensures PathsOf(order[i].rules) == []
    {
      assert routes[|order| + d].route.nn == DefaultRouteName(dbs[d]);
    }
    forall i, j | 0 <= i < j < |order| && GroupRouteName(order[i]) == GroupRouteName(order[j])
      ensures PathsOf(order[i].rules) == []
    {
      assert routes[i].route.nn == routes[j].route.nn;
    }
  }

  lemma {:induction false} NotHiddenByName(order: seq<RuleGroup>, dbs: seq<DefaultBackend>, routes: seq<RouteContext>)
    requires RoutesFit(order, dbs, routes) && NamesApart(order, dbs)
    ensures NothingHidden(routes)
  {
    var n := |order|;
    forall i, j | n <= i < j < |routes| ensures routes[i].route.nn != routes[j].route.nn {
      assert routes[n + (i - n)].route.nn == DefaultRouteName(dbs[i - n]);
      assert routes[n + (j - n)].route.nn == DefaultRouteName(dbs[j - n]);
    }
    forall i, j | 0 <= i < n <= j < |routes| && routes[i].route.nn == routes[j].route.nn
      ensures NoBackends(routes[i].route.rules)
    {
      assert routes[n + (j - n)].route.nn == DefaultRouteName(dbs[j - n]);
    }
  }

  /** What a conversion hides can be seen on its input: the route names that coincide. */
  lemma {:induction false} NothingHiddenIff(ings: seq<Ingress>, env: Env)
    requires SlashFree(ings) && ClassesSlashFree(ings)
    requires Converts(Groups(AllRules(ings)), AllDefaults(ings), env)
    ensures NothingHidden(RoutesOf(Groups(AllRules(ings)), AllDefaults(ings), env)) <==>
            NamesApart(InOrder(Groups(AllRules(ings))), AllDefaults(ings))
  {
    var order, dbs := InOrder(Groups(AllRules(ings))), AllDefaults(ings);
    var routes := RoutesOf(Groups(AllRules(ings)), dbs, env);
    RoutesOfFit(ings, env);
    if NothingHidden(routes) {
      HiddenByName(order, dbs, routes);
    }
    if NamesApart(order, dbs) {
      NotHiddenByName(order, dbs, routes);
    }
  }

  /** Translation correctness, with its condition on the input: the emitted routes say exactly what the Ingresses ask
      for iff no group with a path and no default backend shares its route name with a later one. */
  lemma {:induction false} TranslationCompleteIff(ings: seq<Ingress>, env: Env, ir: ProviderIR)
    requires SlashFree(ings) && ClassesSlashFree(ings)
    requires Converts(Groups(AllRules(ings)), AllDefaults(ings), env)
    requires IsConversion(Groups(AllRules(ings)), AllDefaults(ings), env, ir)
    ensures MapPaired(ir.routes) && AllTranslatable(PathsOf(AllRules(ings)), env)
    ensures ReadMap(ir.routes) == TargetsOf(PathsOf(AllRules(ings)), env) + DefaultTargets(AllDefaults(ings), env)
            <==> NamesApart(InOrder(Groups(AllRules(ings))), AllDefaults(ings))
  {
    TranslationCorrect(ings, env, ir);
    NothingHiddenIff(ings, env);
  }

  /** Two hosts of one Ingress that differ in a dot and a dash. */
  function Colliding(path: IngressPath): Ingress {
    Ingress("shop", "web", map[], Some("nginx"), [],
            [IngressRule("a.b", [path]), IngressRule("a-b", [path])], None)
  }

  lemma {:induction false} GroupOfRule(ings: seq<Ingress>, r: SourcedRule) returns (i: nat)
    requires SlashFree(ings) && ClassesSlashFree(ings) && r in AllRules(ings)
    ensures i < |InOrder(Groups(AllRules(ings)))|
    ensures var rg := InOrder(Groups(AllRules(ings)))[i];
            rg.namespace == r.ingress.namespace && rg.host == r.rule.host && r in rg.rules
            && exists s | s in AllRules(ings) :: rg.name == s.ingress.name
  {
    AllRulesPlain(ings);
    GroupWithRule(AllRules(ings), r);
    i := Determinism.PositionOf(Groups(AllRules(ings)), RuleGroupKey(r));
  }

  lemma {:induction false} GroupWithRule(rules: seq<SourcedRule>, r: SourcedRule)
    requires PlainKeys(rules) && r in rules
    ensures RuleGroupKey(r) in Groups(rules)
    ensures var rg := Groups(rules)[RuleGroupKey(r)];
            rg.namespace == r.ingress.namespace && rg.host == r.rule.host && r in rg.rules
            && exists s | s in rules :: rg.name == s.ingress.name
  {
    var k := RuleGroupKey(r);
    FirstsFacts(rules, RuleGroupKey);
    SelectMembers(rules, RuleGroupKey, k);
    GroupIsHomogeneous(rules, k);
    var first := Select(rules, RuleGroupKey, k)[0];
    assert first in Select(rules, RuleGroupKey, k);
  }

  lemma {:induction false} PathsOfMember(rules: seq<SourcedRule>, r: SourcedRule)
    requires r in rules && r.rule.paths != []
    ensures PathsOf(rules) != []
  {
    if r != rules[|rules| - 1] {
      PathsOfMember(rules[..|rules| - 1], r);
    }
  }

  lemma {:induction false} CollidingRules(path: IngressPath)
    ensures var ings := [Colliding(path)];
            && SlashFree(ings) && ClassesSlashFree(ings)
            && AllRules(ings) == RulesOf(Colliding(path)) && |AllRules(ings)| == 2
  {
    var ings := [Colliding(path)];
    assert ings[..|ings| - 1] == [];
    assert AllRules([]) + RulesOf(ings[0]) == RulesOf(ings[0]);
  }

  /** So a route is lost when one Ingress serves `a.b` and `a-b`. */
  lemma {:induction false} CollisionLosesRoute(path: IngressPath, env: Env, ir: ProviderIR)
    requires var ings := [Colliding(path)];
             Converts(Groups(AllRules(ings)), AllDefaults(ings), env)
             && IsConversion(Groups(AllRules(ings)), AllDefaults(ings), env, ir)
    ensures var ings := [Colliding(path)];
            MapPaired(ir.routes) && AllTranslatable(PathsOf(AllRules(ings)), env)
            && ReadMap(ir.routes) != TargetsOf(PathsOf(AllRules(ings)), env) + DefaultTargets(AllDefaults(ings), env)
  {
    var ings := [Colliding(path)];
    CollidingRules(path);
    TranslationCompleteIff(ings, env, ir);
    CollidingNames(path);
  }

  lemma {:induction false} CollidingNames(path: IngressPath)
    ensures var ings := [Colliding(path)]; !NamesApart(InOrder(Groups(AllRules(ings))), AllDefaults(ings))
  {
    var ing := Colliding(path);
    var ings := [ing];
    var rules := AllRules(ings);
    CollidingRules(path);
    assert rules[0] == SourcedRule(ing, ing.rules[0]) && rules[1] == SourcedRule(ing, ing.rules[1]);
    assert forall s | s in rules :: s.ingress == ing;
    var i := GroupOfRule(ings, rules[0]);
    var j := GroupOfRule(ings, rules[1]);
    var order := InOrder(Groups(rules));
    PathsOfMember(order[i].rules, rules[0]);
    PathsOfMember(order[j].rules, rules[1]);
    SameRouteName(order, AllDefaults(ings), i, j);
  }

  lemma {:induction false} SameRouteName(order: seq<RuleGroup>, dbs: seq<DefaultBackend>, i: nat, j: nat)
    requires i < |order| && j < |order| && order[i].host == "a.b" && order[j].host == "a-b"
    requires order[i].namespace == order[j].namespace && order[i].name == order[j].name
    requires PathsOf(order[i].rules) != [] && PathsOf(order[j].rules) != []
    ensures !NamesApart(order, dbs)
  {
    HostNamesCollide();
    assert "a.b"[1] == '.' && "a-b"[1] == '-';
    assert GroupRouteName(order[i]) == GroupRouteName(order[j]);
  }

  // ---- from the conversion to the passthrough ----

  lemma {:induction false} ListenersHaveNoTls(ws: seq<Wanted>)
    ensures Pass.NoTlsYet(ListenersOf(ws))
  {
    if ws != [] {
      ListenersHaveNoTls(ws[..|ws| - 1]);
    }
  }

  lemma {:induction false} ConvertedGatewaysHaveNoTls(order: seq<RuleGroup>, ir: ProviderIR, nn: NamespacedName)
    requires ByName(GatewaysByKey(order, GatewayKeys(order)), ir.gateways) && nn in ir.gateways
    ensures Pass.NoTlsYet(ir.gateways[nn].listeners)
  {
    Determinism.GatewayListenersAre(order, ir, nn);
    ListenersHaveNoTls(WantedIn(order, nn.namespace + "/" + nn.name));
  }

  /** The Gateways of a conversion have no TLS listener yet, so the passthrough starts from the state its invariant
      needs: over any run of passthrough routes on a converted Gateway, no hostname has both HTTPS and TLS listeners,
      those passed have exactly one TLS listener, and the HTTPS listeners of the others stay. */
  lemma {:induction false} PassthroughAfterConversion(order: seq<RuleGroup>, ir: ProviderIR, nn: NamespacedName,
          hostnames: seq<Option<string>>, h: Option<string>)
    requires ByName(GatewaysByKey(order, GatewayKeys(order)), ir.gateways) && nn in ir.gateways
    ensures var before := ir.gateways[nn].listeners;
            var after := Pass.Run(before, hostnames);
            && !(Pass.HasHttps(after, h) && Pass.HasTls(after, h))
            && Pass.TlsCount(after, h) == (if h in hostnames then 1 else 0)
            && (Pass.HasHttps(after, h) <==> Pass.HasHttps(before, h) && h !in hostnames)
            && Pass.Others(after, hostnames) == Pass.Others(before, hostnames)
            && forall l | l in after && l.protocol == TLS :: Pass.HandsThrough(l) && l.hostname in hostnames
  {
    var before := ir.gateways[nn].listeners;
    forall l | l in Pass.Run(before, hostnames) && l.protocol == TLS
      ensures Pass.HandsThrough(l) && l.hostname in hostnames
    {
      ConvertedGatewaysHaveNoTls(order, ir, nn);
      Pass.TlsListenersHandThrough(before, hostnames, l);
    }
    ConvertedGatewaysHaveNoTls(order, ir, nn);
    Pass.RunInvariant(before, hostnames, h);
    Pass.RunOrder(before, hostnames);
  }
}
