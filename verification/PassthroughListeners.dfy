/** What the passthrough does to the listeners that the rule groups asked for. */
module PassthroughListeners {
  import opened Text
  import opened Names
  import opened Kube
  import opened Collect
  import opened Grouping
  import opened Paths
  import opened Converter
  import opened Correctness
  import opened Determinism
  import opened Pipeline
  import opened EndToEnd
  import opened Listeners
  import opened Sorting
  import opened Passthrough
  import opened PassthroughFeature

  /** Some path of the group comes from an Ingress with the annotation. */
  ghost predicate GroupPasses(rg: RuleGroup) {
    exists p | p in PathsOf(rg.rules) :: Annotation(p.ingress, SslPassthroughKey) == "true"
  }

  function GroupHost(rg: RuleGroup): Option<string> { if rg.host != "" then Some(rg.host) else None }

  /** No default backend's route is named like a group's. */
  ghost predicate DefaultsApart(groups: map<string, RuleGroup>, dbs: seq<DefaultBackend>) {
    forall k, d | k in groups && 0 <= d < |dbs| :: GroupRouteName(groups[k]) != DefaultRouteName(dbs[d])
  }

  /** The routes as earlier features leave them: named, attached and with the hosts of the conversion, no rule
      missing. */
  ghost predicate Framed(provided: PassthroughFeature.Provided, http: HttpRoutes) {
    && http.Keys == provided.Keys
    && forall nn | nn in http ::
         && http[nn].nn == provided[nn].route.nn && http[nn].parents == provided[nn].route.parents
         && http[nn].hostnames == provided[nn].route.hostnames && |provided[nn].sources| <= |http[nn].rules|
  }

  // ---- a group's route ----

  lemma {:induction false} RouteOfGroup(ings: seq<Ingress>, env: Env, ir: ProviderIR, k: string)
    requires SlashFree(ings) && ClassesSlashFree(ings) && Converts(Groups(AllRules(ings)), AllDefaults(ings), env)
    requires IsConversion(Groups(AllRules(ings)), AllDefaults(ings), env, ir)
    requires RouteNamesDistinct(Groups(AllRules(ings))) && DefaultsApart(Groups(AllRules(ings)), AllDefaults(ings))
    requires k in Groups(AllRules(ings))
    ensures var rg := Groups(AllRules(ings))[k];
            && GroupRouteName(rg) in ir.routes && ir.routes[GroupRouteName(rg)] == RouteOf(rg, env)
            && BuiltOf(rg, env).errors == []
  {
    var groups, dbs := Groups(AllRules(ings)), AllDefaults(ings);
    var order, routes := InOrder(groups), RoutesOf(groups, dbs, env);
    var i := PositionOf(groups, k);
    RoutesOfFit(ings, env);
    GroupErrorsAt(order, i, env);
    OnlyRouteOfName(groups, dbs, routes, i);
    LastOfName(routes, i);
    assert routes[i] == GroupRoutes(order, env)[i];
  }

  lemma {:induction false} OrderNamesDiffer(groups: map<string, RuleGroup>, i: nat, j: nat)
    requires RouteNamesDistinct(groups) && i < j < |InOrder(groups)|
    ensures GroupRouteName(InOrder(groups)[i]) != GroupRouteName(InOrder(groups)[j])
  {
    var keys := SortedStrings(groups.Keys);
    SortedStringsDistinct(groups.Keys);
    assert keys[i] in groups && keys[j] in groups && keys[i] != keys[j];
  }

  lemma {:induction false} OnlyRouteOfName(groups: map<string, RuleGroup>, dbs: seq<DefaultBackend>,
          routes: seq<RouteContext>, i: nat)
    requires RouteNamesDistinct(groups) && DefaultsApart(groups, dbs) && RoutesFit(InOrder(groups), dbs, routes)
    requires i < |InOrder(groups)|
    ensures forall j | i < j < |routes| :: routes[j].route.nn != routes[i].route.nn
  {
    var n := |InOrder(groups)|;
    forall j | i < j < |routes| ensures routes[j].route.nn != routes[i].route.nn {
      if j < n {
        OrderNamesDiffer(groups, i, j);
      } else {
        DefaultNameDiffers(groups, dbs, routes, i, j - n);
      }
    }
  }

  lemma {:induction false} DefaultNameDiffers(groups: map<string, RuleGroup>, dbs: seq<DefaultBackend>,
          routes: seq<RouteContext>, i: nat, d: nat)
    requires DefaultsApart(groups, dbs) && RoutesFit(InOrder(groups), dbs, routes)
    requires i < |InOrder(groups)| && d < |dbs|
    ensures routes[|InOrder(groups)| + d].route.nn != routes[i].route.nn
  {
    assert SortedStrings(groups.Keys)[i] in groups;
    assert routes[|InOrder(groups)| + d].route.nn == DefaultRouteName(dbs[d]);
  }

  /** The sources of a group's route are its paths, so its route moves iff one of them has the annotation. */
  lemma {:induction false} GroupSources(rg: RuleGroup, env: Env)
    requires BuiltOf(rg, env).errors == []
    ensures GroupPasses(rg) <==> Passes(RouteOf(rg, env).sources, |RouteOf(rg, env).sources|)
  {
    var rules, sources := RouteOf(rg, env).route.rules, RouteOf(rg, env).sources;
    BuiltFrom(rg.namespace, MatchGroupsOf(rg.rules), env);
    assert Made(rg, env, rules, sources);
    if GroupPasses(rg) {
      var p :| p in PathsOf(rg.rules) && Annotation(p.ingress, SslPassthroughKey) == "true";
      PathAsks(rg, env, rules, sources, p);
    }
    if r :| 0 <= r < |sources| && AsksPassthrough(sources[r]) {
      AskedByPath(rg, env, rules, sources, r);
    }
  }

  lemma {:induction false} PathAsks(rg: RuleGroup, env: Env, rules: seq<RouteRule>, sources: seq<seq<BackendSource>>,
          p: SourcedPath)
    requires Made(rg, env, rules, sources) && p in PathsOf(rg.rules)
    requires Annotation(p.ingress, SslPassthroughKey) == "true"
    ensures Passes(sources, |sources|)
  {
    var i := GroupIndex(rg.rules, p);
    var g := MatchGroupsOf(rg.rules)[i];
    SelectMembers(PathsOf(rg.rules), PathMatchKey, PathMatchKey(p));
    assert MadeOf(rg.namespace, rules[i], sources[i], g, env);
    var j :| 0 <= j < |g| && g[j] == p;
    assert IsPassthrough(sources[i][j]);
    assert AsksPassthrough(sources[i]);
  }

  lemma {:induction false} AskedByPath(rg: RuleGroup, env: Env, rules: seq<RouteRule>, sources: seq<seq<BackendSource>>,
          i: nat)
    requires Made(rg, env, rules, sources) && i < |sources| && AsksPassthrough(sources[i])
    ensures GroupPasses(rg)
  {
    var g := MatchGroupsOf(rg.rules)[i];
    assert MadeOf(rg.namespace, rules[i], sources[i], g, env);
    var j :| 0 <= j < |sources[i]| && IsPassthrough(sources[i][j]);
    GroupMembers(rg.rules, i);
    SelectMembers(PathsOf(rg.rules), PathMatchKey, PathMatchKey(g[0]));
    assert g[j] in g;
  }

  lemma {:induction false} PassesWithMore(sources: seq<seq<BackendSource>>, rules: nat)
    requires |sources| <= rules
    ensures Passes(sources, rules) <==> Passes(sources, |sources|)
  {
    if r :| 0 <= r < |sources| && r < rules && AsksPassthrough(sources[r]) {
      assert r < |sources|;
    }
    if r :| 0 <= r < |sources| && AsksPassthrough(sources[r]) {
      assert r < rules;
    }
  }

  /** The route of a group moves iff the group passes, with a call for its own Gateway and host. */
  lemma {:induction false} GroupMoves(ings: seq<Ingress>, env: Env, ir: ProviderIR, http: HttpRoutes, k: string)
    requires Plain(ings, env, ir, http) && k in Groups(AllRules(ings))
    ensures var rg := Groups(AllRules(ings))[k];
            && GroupRouteName(rg) in http
            && (Moves(ir.routes, http, GroupRouteName(rg)) <==> GroupPasses(rg))
            && (http[GroupRouteName(rg)].parents != [] <==> rg.ingressClass != "")
            && (rg.ingressClass != "" ==>
                  CallOf(http[GroupRouteName(rg)]) == Call(NN(rg.namespace, rg.ingressClass), GroupHost(rg)))
  {
    var rg := Groups(AllRules(ings))[k];
    RouteOfGroup(ings, env, ir, k);
    RouteFrame(rg, env);
    GroupSources(rg, env);
    PassesWithMore(RouteOf(rg, env).sources, |http[GroupRouteName(rg)].rules|);
  }

  /** A successful conversion whose groups and default backends all have routes of their own, and the routes that
      earlier features made of it. */
  ghost predicate Plain(ings: seq<Ingress>, env: Env, ir: ProviderIR, http: HttpRoutes) {
    var groups, dbs := Groups(AllRules(ings)), AllDefaults(ings);
    && SlashFree(ings) && ClassesSlashFree(ings) && Converts(groups, dbs, env) && IsConversion(groups, dbs, env, ir)
    && RouteNamesDistinct(groups) && DefaultsApart(groups, dbs) && Framed(ir.routes, http)
  }

  /** And the state in which sslPassthroughFeature leaves them. */
  ghost predicate Finished(ings: seq<Ingress>, env: Env, ir: ProviderIR, http: HttpRoutes, now: State) {
    var groups := Groups(AllRules(ings));
    Plain(ings, env, ir, http) && SoFar(groups, groups.Keys, ir.routes, http, ir.gateways, now)
  }

  /** The feature does not panic on a route without a parent iff every passthrough group has a class. */
  lemma {:induction false} ParentsGivenIff(ings: seq<Ingress>, env: Env, ir: ProviderIR, http: HttpRoutes)
    requires Plain(ings, env, ir, http)
    ensures var groups := Groups(AllRules(ings));
            ParentsGiven(groups, ir.routes, http) <==>
            forall k | k in groups && GroupPasses(groups[k]) :: groups[k].ingressClass != ""
  {
    forall k | k in Groups(AllRules(ings))
      ensures var rg := Groups(AllRules(ings))[k];
              GroupRouteName(rg) in http
              && (Moves(ir.routes, http, GroupRouteName(rg)) <==> GroupPasses(rg))
              && (http[GroupRouteName(rg)].parents != [] <==> rg.ingressClass != "")
    {
      GroupMoves(ings, env, ir, http, k);
    }
  }

  // ---- the calls, on the groups ----

  /** Some passthrough group of the Gateway has the hostname as its host. */
  ghost predicate PassesFor(groups: map<string, RuleGroup>, rg: RuleGroup, h: Option<string>) {
    exists j | j in groups :: SameGateway(groups[j], rg) && GroupPasses(groups[j]) && GroupHost(groups[j]) == h
  }

  lemma {:induction false} CallMeansGroup(ings: seq<Ingress>, env: Env, ir: ProviderIR, http: HttpRoutes, now: State,
          rg: RuleGroup, h: Option<string>)
    requires Finished(ings, env, ir, http, now)
    requires Call(NN(rg.namespace, rg.ingressClass), h) in now.calls
    ensures PassesFor(Groups(AllRules(ings)), rg, h)
  {
    var groups := Groups(AllRules(ings));
    var nn :| nn in now.moved && CallOf(http[nn]) == Call(NN(rg.namespace, rg.ingressClass), h);
    var j :| j in groups.Keys && j in groups && GroupRouteName(groups[j]) == nn;
    GroupMoves(ings, env, ir, http, j);
    assert SameGateway(groups[j], rg);
  }

  lemma {:induction false} GroupMeansCall(ings: seq<Ingress>, env: Env, ir: ProviderIR, http: HttpRoutes, now: State,
          j: string)
    requires Finished(ings, env, ir, http, now) && j in Groups(AllRules(ings)) && GroupPasses(Groups(AllRules(ings))[j])
    ensures var rg := Groups(AllRules(ings))[j];
            Call(NN(rg.namespace, rg.ingressClass), GroupHost(rg)) in now.calls && GroupRouteName(rg) in now.moved
  {
    var groups := Groups(AllRules(ings));
    var nn := GroupRouteName(groups[j]);
    GroupMoves(ings, env, ir, http, j);
    assert Named(groups, groups.Keys, nn);
    assert nn in now.moved;
    assert CallOf(http[nn]) in now.calls;
  }

  lemma {:induction false} CallsAreGroups(ings: seq<Ingress>, env: Env, ir: ProviderIR, http: HttpRoutes, now: State,
          rg: RuleGroup, h: Option<string>)
    requires Finished(ings, env, ir, http, now)
    ensures Call(NN(rg.namespace, rg.ingressClass), h) in now.calls <==> PassesFor(Groups(AllRules(ings)), rg, h)
  {
    var groups := Groups(AllRules(ings));
    if Call(NN(rg.namespace, rg.ingressClass), h) in now.calls {
      CallMeansGroup(ings, env, ir, http, now, rg, h);
    }
    if j :| j in groups && SameGateway(groups[j], rg) && GroupPasses(groups[j]) && GroupHost(groups[j]) == h {
      GroupMeansCall(ings, env, ir, http, now, j);
    }
  }

  // ---- the listeners afterwards ----

  lemma {:induction false} AfterCalls(before: Gateways, calls: seq<Call>, after: Gateways, gw: NamespacedName,
          h: Option<string>)
    requires CallsMade(before, calls, after) && gw in before && NoTlsYet(before[gw].listeners)
    ensures HasHttps(after[gw].listeners, h) <==> HasHttps(before[gw].listeners, h) && Call(gw, h) !in calls
    ensures HasTls(after[gw].listeners, h) <==> Call(gw, h) in calls
    ensures forall l | l in after[gw].listeners && l.protocol == TLS :: HandsThrough(l)
  {
    forall l | l in Run(before[gw].listeners, CallsOn(calls, gw)) && l.protocol == TLS ensures HandsThrough(l) {
      TlsListenersHandThrough(before[gw].listeners, CallsOn(calls, gw), l);
    }
    assert after[gw] == Called(before[gw], CallsOn(calls, gw));
    RunInvariant(before[gw].listeners, CallsOn(calls, gw), h);
    CallsOnMembers(calls, gw, h);
  }

  /** The HTTPS listener a TLS group wanted is still there after the passthrough iff no passthrough group of its Gateway
      has the wanted hostname as its host; and a hostname has a TLS listener iff some passthrough group has it as its
      host. */
  lemma {:induction false} HttpsStaysIff(ings: seq<Ingress>, env: Env, ir: ProviderIR, http: HttpRoutes, now: State,
          k: string)
    requires Finished(ings, env, ir, http, now) && k in Groups(AllRules(ings)) && Groups(AllRules(ings))[k].tls != []
    ensures var groups, rg := Groups(AllRules(ings)), Groups(AllRules(ings))[k];
            var nn, h := NN(rg.namespace, rg.ingressClass), WantedBy(rg).hostname;
            && nn in ir.gateways && nn in now.gateways && HasHttps(ir.gateways[nn].listeners, h)
            && (HasHttps(now.gateways[nn].listeners, h) <==> !PassesFor(groups, rg, h))
            && (HasTls(now.gateways[nn].listeners, h) <==> PassesFor(groups, rg, h))
            && forall l | l in now.gateways[nn].listeners && l.protocol == TLS :: HandsThrough(l)
  {
    var groups := Groups(AllRules(ings));
    var rg := groups[k];
    var nn, h := NN(rg.namespace, rg.ingressClass), WantedBy(rg).hostname;
    HttpsListenerIff(ings, env, ir, k);
    assert SameGateway(groups[k], rg) && WantsTls(groups[k], h);
    ConvertedGatewaysHaveNoTls(InOrder(groups), ir, nn);
    AfterCalls(ir.gateways, now.calls, now.gateways, nn, h);
    CallsAreGroups(ings, env, ir, http, now, rg, h);
  }

  /** A group for all hosts that takes its listener's hostname from its one TLS entry. */
  predicate HostFromTls(rg: RuleGroup) { rg.host == "" && |rg.tls| == 1 && |rg.tls[0].hosts| == 1 }

  /** A passthrough group with TLS loses its own HTTPS listener, unless it is for all hosts and its listener is for its
      one TLS host: then the listener stays iff no passthrough group of the Gateway has that host. */
  lemma {:induction false} OwnListenerIff(ings: seq<Ingress>, env: Env, ir: ProviderIR, http: HttpRoutes, now: State,
          k: string)
    requires Finished(ings, env, ir, http, now) && k in Groups(AllRules(ings)) && Groups(AllRules(ings))[k].tls != []
    requires GroupPasses(Groups(AllRules(ings))[k])
    ensures var groups, rg := Groups(AllRules(ings)), Groups(AllRules(ings))[k];
            var nn := NN(rg.namespace, rg.ingressClass);
            && GroupRouteName(rg) !in now.http && GroupRouteName(rg) in now.tls && nn in now.gateways
            && (HasHttps(now.gateways[nn].listeners, WantedBy(rg).hostname) <==>
                HostFromTls(rg) && !PassesFor(groups, rg, Some(rg.tls[0].hosts[0])))
  {
    var groups := Groups(AllRules(ings));
    var rg := groups[k];
    HttpsStaysIff(ings, env, ir, http, now, k);
    GroupMeansCall(ings, env, ir, http, now, k);
    if !HostFromTls(rg) {
      assert SameGateway(rg, rg) && GroupHost(rg) == WantedBy(rg).hostname;
    }
  }

  /** Another group's passthrough also takes the listener of a group that keeps its HTTPRoute. */
  lemma {:induction false} PassthroughTakesListener(ings: seq<Ingress>, env: Env, ir: ProviderIR, http: HttpRoutes,
          now: State, a: string, b: string)
    requires Finished(ings, env, ir, http, now) && a in Groups(AllRules(ings)) && b in Groups(AllRules(ings))
    requires var groups := Groups(AllRules(ings));
             && groups[a].tls != [] && !GroupPasses(groups[a])
             && GroupPasses(groups[b]) && SameGateway(groups[b], groups[a])
             && GroupHost(groups[b]) == WantedBy(groups[a]).hostname
    ensures var rg := Groups(AllRules(ings))[a];
            var nn := NN(rg.namespace, rg.ingressClass);
            && GroupRouteName(rg) in now.http && nn in ir.gateways && nn in now.gateways
            && HasHttps(ir.gateways[nn].listeners, WantedBy(rg).hostname)
            && !HasHttps(now.gateways[nn].listeners, WantedBy(rg).hostname)
  {
    var groups := Groups(AllRules(ings));
    HttpsStaysIff(ings, env, ir, http, now, a);
    GroupMoves(ings, env, ir, http, a);
    StillThere(http, now.moved, now.http, GroupRouteName(groups[a]));
  }
}
