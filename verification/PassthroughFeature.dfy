/** sslPassthroughFeature over all rule groups: routes with the annotation become TLSRoutes, and their hostnames' HTTPS
    listeners give way. */
module PassthroughFeature {
  import opened Text
  import opened Kube
  import opened Features
  import opened Grouping
  import opened Paths
  import opened Pipeline
  import opened Passthrough

  type Provided = map<NamespacedName, RouteContext>
  type HttpRoutes = map<NamespacedName, HTTPRoute>
  type Gateways = map<NamespacedName, Gateway>

  datatype TLSRoute = TLSRoute(
    nn: NamespacedName,
    parents: seq<string>,
    hostnames: seq<string>,
    sectionName: Option<string>,
    rules: seq<TLSRule>)

  /** A source list longer than its route's rules. */
  datatype RuleError = RuleError(nn: NamespacedName, ruleIdx: int)

  // ---- which routes move ----

  predicate IsPassthrough(source: BackendSource) {
    source.ingress.Some? && Annotation(source.ingress.value, SslPassthroughKey) == "true"
  }

  ghost predicate AsksPassthrough(sources: seq<BackendSource>) {
    exists j | 0 <= j < |sources| :: IsPassthrough(sources[j])
  }

  /** A rule in range has a passthrough source. */
  ghost predicate Passes(sources: seq<seq<BackendSource>>, rules: nat) {
    exists r | 0 <= r < |sources| :: r < rules && AsksPassthrough(sources[r])
  }

  ghost predicate Moves(provided: Provided, http: HttpRoutes, nn: NamespacedName) {
    nn in provided && nn in http && Passes(provided[nn].sources, |http[nn].rules|)
  }

  ghost predicate OutOfRange(provided: Provided, http: HttpRoutes, e: RuleError) {
    e.nn in provided && e.nn in http && |http[e.nn].rules| <= e.ruleIdx < |provided[e.nn].sources|
  }

  /** The inner loop over the sources of one rule. */
  method AnyPassthrough(sources: seq<BackendSource>) returns (found: bool)
    ensures found <==> AsksPassthrough(sources)
  {
    for j := 0 to |sources|
      invariant forall i | 0 <= i < j :: !IsPassthrough(sources[i])
    {
      if sources[j].ingress.None? {
        continue;
      }
      if Annotation(sources[j].ingress.value, SslPassthroughKey) == "true" {
        assert IsPassthrough(sources[j]);
        return true;
      }
    }
    return false;
  }

  /** The loop over the source lists of a route with `rules` rules. */
  method HasPassthrough(nn: NamespacedName, sources: seq<seq<BackendSource>>, rules: nat)
    returns (found: bool, errors: seq<RuleError>)
    ensures found <==> Passes(sources, rules)
    ensures forall e :: e in errors <==> e.nn == nn && rules <= e.ruleIdx < |sources|
  {
    found, errors := false, [];
    for r := 0 to |sources|
      invariant found <==> exists q | 0 <= q < r :: q < rules && AsksPassthrough(sources[q])
      invariant forall e :: e in errors <==> e.nn == nn && rules <= e.ruleIdx < r
    {
      if r >= rules {
        errors := errors + [RuleError(nn, r)];
        continue;
      }
      var any := AnyPassthrough(sources[r]);
      found := found || any;
    }
  }

  // ---- calls ----

  /** A call of ensureTLSListenerForPassthrough. */
  datatype Call = Call(gw: NamespacedName, hostname: Option<string>)

  /** The call for a route. A route without a parent makes the program index out of range. */
  function CallOf(route: HTTPRoute): Call
    requires route.parents != []
  {
    Call(NN(route.nn.namespace, route.parents[0]), if route.hostnames != [] then Some(route.hostnames[0]) else None)
  }

  ghost function CallsOn(calls: seq<Call>, gw: NamespacedName): seq<Option<string>> {
    if calls == [] then []
    else
      var c := calls[|calls| - 1];
      CallsOn(calls[..|calls| - 1], gw) + (if c.gw == gw then [c.hostname] else [])
  }

  lemma {:induction false} CallsOnMembers(calls: seq<Call>, gw: NamespacedName, h: Option<string>)
    ensures h in CallsOn(calls, gw) <==> Call(gw, h) in calls
  {
    if calls != [] {
      CallsOnMembers(calls[..|calls| - 1], gw, h);
    }
  }

  lemma {:induction false} CallsOnSnoc(calls: seq<Call>, c: Call, gw: NamespacedName)
    ensures CallsOn(calls + [c], gw) == if c.gw == gw then CallsOn(calls, gw) + [c.hostname] else CallsOn(calls, gw)
  {
    assert (calls + [c])[..|calls|] == calls;
    assert CallsOn(calls, gw) + [] == CallsOn(calls, gw);
  }

  /** Every Gateway after the calls, from what it was before the first. */
  ghost predicate CallsMade(before: Gateways, calls: seq<Call>, after: Gateways) {
    && after.Keys == before.Keys
    && forall g | g in before :: after[g] == Called(before[g], CallsOn(calls, g))
  }

  ghost function Called(gw: Gateway, hostnames: seq<Option<string>>): Gateway {
    gw.(listeners := Run(gw.listeners, hostnames))
  }

  lemma {:induction false} NoCalls(before: Gateways)
    ensures CallsMade(before, [], before)
  {
  }

  /** One call: the Gateway it names, if there is one, has the hostname's TLS listener. */
  ghost predicate OneCall(now: Gateways, c: Call, after: Gateways) {
    if c.gw !in now then after == now
    else after == now[c.gw := now[c.gw].(listeners := Ensured(now[c.gw].listeners, c.hostname))]
  }

  lemma {:induction false} OneMoreCall(before: Gateways, calls: seq<Call>, now: Gateways, c: Call, after: Gateways)
    requires CallsMade(before, calls, now)
    requires OneCall(now, c, after)
    ensures CallsMade(before, calls + [c], after)
  {
    forall g | g in before ensures after[g] == Called(before[g], CallsOn(calls + [c], g)) {
      CallsOnSnoc(calls, c, g);
      RunSnoc(before[g].listeners, CallsOn(calls, g), c.hostname);
      assert now[g] == Called(before[g], CallsOn(calls, g));
    }
  }

  // ---- the loop over groups ----

  ghost predicate Named(groups: map<string, RuleGroup>, done: set<string>, nn: NamespacedName) {
    exists k | k in done && k in groups :: GroupRouteName(groups[k]) == nn
  }

  lemma {:induction false} OneMoreNamed(groups: map<string, RuleGroup>, done: set<string>, k: string,
          nn: NamespacedName)
    requires k in groups
    ensures Named(groups, done + {k}, nn) <==> Named(groups, done, nn) || nn == GroupRouteName(groups[k])
  {
    if j :| j in done && j in groups && GroupRouteName(groups[j]) == nn {
      assert j in done + {k};
    }
    assert k in done + {k};
  }

  ghost predicate MovedAre(groups: map<string, RuleGroup>, done: set<string>, provided: Provided, first: HttpRoutes,
          moved: set<NamespacedName>)
  {
    forall nn :: nn in moved <==> Named(groups, done, nn) && Moves(provided, first, nn)
  }

  ghost predicate HttpLeft(first: HttpRoutes, moved: set<NamespacedName>, http: HttpRoutes) {
    http.Keys == first.Keys - moved && forall nn | nn in http :: http[nn] == first[nn]
  }

  ghost predicate CallsAre(first: HttpRoutes, moved: set<NamespacedName>, calls: seq<Call>) {
    && (forall nn | nn in moved :: nn in first && first[nn].parents != [])
    && (forall c :: c in calls <==> exists nn | nn in moved :: CallOf(first[nn]) == c)
  }

  ghost predicate ErrorsAre(groups: map<string, RuleGroup>, done: set<string>, provided: Provided, first: HttpRoutes,
          errors: seq<RuleError>)
  {
    forall e :: e in errors <==> Named(groups, done, e.nn) && OutOfRange(provided, first, e)
  }

  /** The TLSRoute of a route: all but the weights, attached to a TLS listener for its hostname if the Gateway
      exists. */
  ghost predicate TlsRouteOf(route: HTTPRoute, gateways: Gateways, tls: TLSRoute) {
    && tls.nn == route.nn && tls.parents == route.parents && tls.hostnames == route.hostnames
    && WithoutWeights(route.rules, tls.rules) && route.parents != []
    && Attached(gateways, CallOf(route), tls.sectionName)
  }

  ghost predicate Attached(gateways: Gateways, c: Call, sectionName: Option<string>) {
    if c.gw in gateways then
      exists l | l in gateways[c.gw].listeners :: IsTlsFor(l, c.hostname) && SectionOf(l.name) == sectionName
    else sectionName == None
  }

  function SectionOf(name: string): Option<string> { if name != "" then Some(name) else None }

  ghost predicate TlsAre(first: HttpRoutes, moved: set<NamespacedName>, gateways: Gateways,
          tls: map<NamespacedName, TLSRoute>)
  {
    tls.Keys == moved && forall nn | nn in moved :: nn in first && TlsRouteOf(first[nn], gateways, tls[nn])
  }

  /** Later calls leave TLS listeners where they are. */
  lemma {:induction false} StaysAttached(now: Gateways, c: Call, after: Gateways, d: Call, sectionName: Option<string>)
    requires OneCall(now, c, after)
    requires Attached(now, d, sectionName)
    ensures Attached(after, d, sectionName)
  {
    if d.gw in now {
      var l :| l in now[d.gw].listeners && IsTlsFor(l, d.hostname) && SectionOf(l.name) == sectionName;
      if d.gw == c.gw {
        TlsListenersStay(now[c.gw].listeners, c.hostname, l);
      }
      assert l in after[d.gw].listeners;
    }
  }

  /** How far the loop over groups has come: the groups in `done` were met, the routes in `moved` are TLSRoutes now. */
  ghost predicate SoFar(groups: map<string, RuleGroup>, done: set<string>, provided: Provided, first: HttpRoutes,
          before: Gateways, now: State)
  {
    && MovedAre(groups, done, provided, first, now.moved) && ErrorsAre(groups, done, provided, first, now.errors)
    && Reshaped(first, before, now)
  }

  ghost predicate Reshaped(first: HttpRoutes, before: Gateways, now: State) {
    && HttpLeft(first, now.moved, now.http) && TlsAre(first, now.moved, now.gateways, now.tls)
    && CallsAre(first, now.moved, now.calls) && CallsMade(before, now.calls, now.gateways)
  }

  /** The emitter's maps, the errors so far, the routes moved and the calls made for them. */
  datatype State = State(
    http: HttpRoutes,
    tls: map<NamespacedName, TLSRoute>,
    gateways: Gateways,
    errors: seq<RuleError>,
    moved: set<NamespacedName>,
    calls: seq<Call>)

  lemma {:induction false} NothingMoved(groups: map<string, RuleGroup>, provided: Provided, first: HttpRoutes,
          before: Gateways)
    ensures SoFar(groups, {}, provided, first, before, State(first, map[], before, [], {}, []))
  {
    NoCalls(before);
  }

  lemma {:induction false} MetGroup(groups: map<string, RuleGroup>, done: set<string>, provided: Provided,
          first: HttpRoutes, moved: set<NamespacedName>, errors: seq<RuleError>, k: string, errs: seq<RuleError>)
    requires MovedAre(groups, done, provided, first, moved) && ErrorsAre(groups, done, provided, first, errors)
    requires k in groups
    requires forall e :: e in errors + errs <==>
               e in errors || (e.nn == GroupRouteName(groups[k]) && OutOfRange(provided, first, e))
    ensures ErrorsAre(groups, done + {k}, provided, first, errors + errs)
    ensures var nn := GroupRouteName(groups[k]);
            MovedAre(groups, done + {k}, provided, first, if Moves(provided, first, nn) then moved + {nn} else moved)
  {
    forall nn ensures Named(groups, done + {k}, nn) <==> Named(groups, done, nn) || nn == GroupRouteName(groups[k]) {
      OneMoreNamed(groups, done, k, nn);
    }
  }

  /** A route that is still there has not moved; one that has left did. */
  lemma {:induction false} StillThere(first: HttpRoutes, moved: set<NamespacedName>, http: HttpRoutes,
          nn: NamespacedName)
    requires HttpLeft(first, moved, http)
    ensures nn in http <==> nn in first && nn !in moved
    ensures nn in http ==> http[nn] == first[nn]
  {
  }

  lemma {:induction false} OneMoreMoved(first: HttpRoutes, before: Gateways, now: State, nn: NamespacedName,
          tls: TLSRoute, gateways: Gateways)
    requires Reshaped(first, before, now) && nn in now.http && nn in first && first[nn].parents != []
    requires OneCall(now.gateways, CallOf(first[nn]), gateways)
    requires TlsRouteOf(first[nn], gateways, tls)
    ensures var c := CallOf(first[nn]);
            Reshaped(first, before, now.(http := now.http - {nn}, tls := now.tls[nn := tls], gateways := gateways,
                                         moved := now.moved + {nn}, calls := now.calls + [c]))
  {
    var c := CallOf(first[nn]);
    OneMoreCall(before, now.calls, now.gateways, c, gateways);
    OneMoreCallIs(first, now.moved, now.calls, nn);
    OneMoreTls(first, now.moved, now.gateways, now.tls, nn, tls, gateways);
  }

  lemma {:induction false} OneMoreCallIs(first: HttpRoutes, moved: set<NamespacedName>, calls: seq<Call>,
          nn: NamespacedName)
    requires CallsAre(first, moved, calls) && nn in first && first[nn].parents != []
    ensures CallsAre(first, moved + {nn}, calls + [CallOf(first[nn])])
  {
    forall c ensures c in calls + [CallOf(first[nn])] <==> exists mm | mm in moved + {nn} :: CallOf(first[mm]) == c {
      if mm :| mm in moved && CallOf(first[mm]) == c {
        assert mm in moved + {nn};
      }
      assert nn in moved + {nn};
    }
  }

  lemma {:induction false} OneMoreTls(first: HttpRoutes, moved: set<NamespacedName>, now: Gateways,
          made: map<NamespacedName, TLSRoute>, nn: NamespacedName, tls: TLSRoute, after: Gateways)
    requires TlsAre(first, moved, now, made) && nn in first && first[nn].parents != []
    requires OneCall(now, CallOf(first[nn]), after)
    requires TlsRouteOf(first[nn], after, tls)
    ensures TlsAre(first, moved + {nn}, after, made[nn := tls])
  {
    forall mm | mm in moved + {nn} ensures mm in first && TlsRouteOf(first[mm], after, made[nn := tls][mm]) {
      if mm != nn {
        StaysAttached(now, CallOf(first[nn]), after, CallOf(first[mm]), made[mm].sectionName);
      }
    }
  }

  /** The emitter's representation, as far as the feature changes it. */
  class EmitterIR {
    const table: GatewayTable
    var httpRoutes: HttpRoutes
    var tlsRoutes: map<NamespacedName, TLSRoute>

    constructor (httpRoutes: HttpRoutes, table: GatewayTable)
      ensures this.httpRoutes == httpRoutes && this.table == table && tlsRoutes == map[]
    {
      this.httpRoutes, this.table, tlsRoutes := httpRoutes, table, map[];
    }

    /** The present state, with the ghost record of what led to it. */
    ghost function Now(errors: seq<RuleError>, moved: set<NamespacedName>, calls: seq<Call>): State
      reads this, table
    {
      State(httpRoutes, tlsRoutes, table.gateways, errors, moved, calls)
    }

    /** What happens to a route with the annotation. */
    method MoveRoute(nn: NamespacedName)
      requires nn in httpRoutes && httpRoutes[nn].parents != []
      modifies this, table
      ensures OneCall(old(table.gateways), CallOf(old(httpRoutes[nn])), table.gateways)
      ensures httpRoutes == old(httpRoutes) - {nn} && nn in tlsRoutes
      ensures tlsRoutes == old(tlsRoutes)[nn := tlsRoutes[nn]]
      ensures TlsRouteOf(old(httpRoutes[nn]), table.gateways, tlsRoutes[nn])
    {
      var route := httpRoutes[nn];
      var c := CallOf(route);
      var name := table.EnsureTLSListener(c.gw, c.hostname);
      var rules := ToTlsRules(route.rules);
      assert Attached(table.gateways, c, SectionOf(name));
      tlsRoutes := tlsRoutes[nn := TLSRoute(route.nn, route.parents, route.hostnames, SectionOf(name), rules)];
      httpRoutes := httpRoutes - {nn};
    }

    /** The body of the loop over groups. */
    method PassGroup(groups: map<string, RuleGroup>, ghost done: set<string>, provided: Provided,
            ghost first: HttpRoutes, ghost before: Gateways, errors: seq<RuleError>, ghost moved: set<NamespacedName>,
            ghost calls: seq<Call>, k: string)
      returns (errors': seq<RuleError>, ghost moved': set<NamespacedName>, ghost calls': seq<Call>)
      requires SoFar(groups, done, provided, first, before, Now(errors, moved, calls)) && k in groups
      requires Moves(provided, first, GroupRouteName(groups[k])) ==> first[GroupRouteName(groups[k])].parents != []
      modifies this, table
      ensures SoFar(groups, done + {k}, provided, first, before, Now(errors', moved', calls'))
    {
      errors', moved', calls' := errors, moved, calls;
      var nn := GroupRouteName(groups[k]);
      StillThere(first, moved, httpRoutes, nn);
      if nn !in provided || nn !in httpRoutes {
        SkippedGroup(groups, done, provided, first, before, Now(errors, moved, calls), k);
        return;
      }
      var found, errs := HasPassthrough(nn, provided[nn].sources, |httpRoutes[nn].rules|);
      errors' := errors + errs;
      MetGroup(groups, done, provided, first, moved, errors, k, errs);
      if found {
        ghost var now := Now(errors, moved, calls);
        MoveRoute(nn);
        OneMoreMoved(first, before, now, nn, tlsRoutes[nn], table.gateways);
        moved', calls' := moved + {nn}, calls + [CallOf(first[nn])];
      }
    }

    /** sslPassthroughFeature: the rule groups in any order; a group whose route is missing on either side is
        skipped. */
    method SslPassthrough(groups: map<string, RuleGroup>, provided: Provided)
      returns (errors: seq<RuleError>, ghost moved: set<NamespacedName>, ghost calls: seq<Call>)
      requires tlsRoutes == map[] && ParentsGiven(groups, provided, httpRoutes)
      modifies this, table
      ensures SoFar(groups, groups.Keys, provided, old(httpRoutes), old(table.gateways), Now(errors, moved, calls))
    {
      errors, moved, calls := [], {}, [];
      var todo := groups.Keys;
      ghost var done: set<string> := {};
      ghost var first, before := httpRoutes, table.gateways;
      NothingMoved(groups, provided, first, before);
      while todo != {}
        invariant todo <= groups.Keys && done == groups.Keys - todo
        invariant SoFar(groups, done, provided, first, before, Now(errors, moved, calls))
        decreases |todo|
      {
        var k := Any(todo);
        errors, moved, calls := PassGroup(groups, done, provided, first, before, errors, moved, calls, k);
        todo, done := todo - {k}, done + {k};
      }
      assert done == groups.Keys;
    }
  }

  /** Every route that moves names a parent; otherwise the program panics. */
  ghost predicate ParentsGiven(groups: map<string, RuleGroup>, provided: Provided, http: HttpRoutes) {
    forall k | k in groups && Moves(provided, http, GroupRouteName(groups[k])) ::
      http[GroupRouteName(groups[k])].parents != []
  }

  lemma {:induction false} SkippedGroup(groups: map<string, RuleGroup>, done: set<string>, provided: Provided,
          first: HttpRoutes, before: Gateways, now: State, k: string)
    requires SoFar(groups, done, provided, first, before, now) && k in groups
    requires GroupRouteName(groups[k]) !in provided || GroupRouteName(groups[k]) !in now.http
    ensures SoFar(groups, done + {k}, provided, first, before, now)
  {
    var nn := GroupRouteName(groups[k]);
    StillThere(first, now.moved, now.http, nn);
    forall mm ensures Named(groups, done + {k}, mm) <==> Named(groups, done, mm) || mm == nn {
      OneMoreNamed(groups, done, k, mm);
    }
  }
}
