/** ToIR: rule groups in key order and default backends become HTTPRoutes, and one Gateway per namespace and class. */
module Converter {
  import opened Text
  import opened Names
  import opened Kube
  import opened Collect
  import opened Grouping
  import opened Paths
  import opened Sorting

  datatype ProviderIR = ProviderIR(gateways: map<NamespacedName, Gateway>, routes: map<NamespacedName, RouteContext>)

  // ---- default backends ----

  const DEFAULT_RULE := "rule-default-backend"

  function DefaultRoute(db: DefaultBackend, env: Env): RouteContext {
    var ref := ToBackendRef(db.namespace, db.backend, env.servicePorts);
    RouteContext(
      HTTPRoute(NN(db.namespace, db.name + "-default-backend"), [db.ingressClass], [],
                if ref.Ok? then [RouteRule(Some(DEFAULT_RULE), [], [ref.value])] else []),
      [[BackendSource(Some(db.source), None, Some(db.backend))]])
  }

  function DefaultErrors(db: DefaultBackend, env: Env): seq<ConvError> {
    var ref := ToBackendRef(db.namespace, db.backend, env.servicePorts);
    if ref.Err? then [ref.error] else []
  }

  // ---- routes ----

  ghost function InOrder(groups: map<string, RuleGroup>): (r: seq<RuleGroup>)
    ensures |r| == |SortedStrings(groups.Keys)|
    ensures forall i | 0 <= i < |r| ::
              SortedStrings(groups.Keys)[i] in groups && r[i] == groups[SortedStrings(groups.Keys)[i]]
  {
    var ks := SortedStrings(groups.Keys);
    assert forall i | 0 <= i < |ks| :: ks[i] in multiset(ks);
    seq(|ks|, i requires 0 <= i < |ks| => groups[ks[i]])
  }

  ghost function GroupRoutes(order: seq<RuleGroup>, env: Env): (r: seq<RouteContext>)
    ensures |r| == |order|
    ensures forall i | 0 <= i < |r| :: r[i] == RouteOf(order[i], env)
  {
    seq(|order|, i requires 0 <= i < |order| => RouteOf(order[i], env))
  }

  ghost function GroupErrors(order: seq<RuleGroup>, env: Env): seq<ConvError> {
    if order == [] then [] else GroupErrors(order[..|order| - 1], env) + BuiltOf(order[|order| - 1], env).errors
  }

  lemma {:induction false} OneMoreGroup(order: seq<RuleGroup>, i: nat, env: Env)
    requires i < |order|
    ensures GroupRoutes(order[..i + 1], env) == GroupRoutes(order[..i], env) + [RouteOf(order[i], env)]
    ensures GroupErrors(order[..i + 1], env) == GroupErrors(order[..i], env) + BuiltOf(order[i], env).errors
  {
    OneMoreRoute(order, i, env);
    assert order[..i + 1][..i] == order[..i];
  }

  lemma {:induction false} OneMoreRoute(order: seq<RuleGroup>, i: nat, env: Env)
    requires i < |order|
    ensures GroupRoutes(order[..i + 1], env) == GroupRoutes(order[..i], env) + [RouteOf(order[i], env)]
  {
    assert forall j | 0 <= j < i :: order[..i + 1][j] == order[..i][j];
    IsSnoc(GroupRoutes(order[..i], env), RouteOf(order[i], env), GroupRoutes(order[..i + 1], env));
  }

  function DefaultRoutes(dbs: seq<DefaultBackend>, env: Env): seq<RouteContext> {
    if dbs == [] then [] else DefaultRoutes(dbs[..|dbs| - 1], env) + [DefaultRoute(dbs[|dbs| - 1], env)]
  }

  function AllDefaultErrors(dbs: seq<DefaultBackend>, env: Env): seq<ConvError> {
    if dbs == [] then [] else AllDefaultErrors(dbs[..|dbs| - 1], env) + DefaultErrors(dbs[|dbs| - 1], env)
  }

  /** Later routes overwrite earlier ones of the same name. */
  function RouteMap(routes: seq<RouteContext>): map<NamespacedName, RouteContext> {
    if routes == [] then map[]
    else RouteMap(routes[..|routes| - 1])[routes[|routes| - 1].route.nn := routes[|routes| - 1]]
  }

  // ---- gateways ----

  /** The listener a group asks for, before it is split by protocol. */
  datatype Wanted = Wanted(hostname: Option<string>, certs: Option<seq<string>>)

  function SecretNames(tls: seq<IngressTLS>): seq<string> {
    if tls == [] then [] else SecretNames(tls[..|tls| - 1]) + [tls[|tls| - 1].secretName]
  }

  function WantedBy(rg: RuleGroup): Wanted {
    Wanted(
      if rg.host != "" then Some(rg.host)
      else if |rg.tls| == 1 && |rg.tls[0].hosts| == 1 then Some(rg.tls[0].hosts[0])
      else None,
      if |rg.tls| > 0 then Some(SecretNames(rg.tls)) else None)
  }

  function ListenerPrefix(hostname: Option<string>): string {
    if hostname.Some? && hostname.value != "" then NameFromHost(hostname.value) + "-" else ""
  }

  function HttpListener(w: Wanted): Listener {
    Listener(ListenerPrefix(w.hostname) + "http", w.hostname, 80, HTTP, None, None)
  }

  function HttpsListener(w: Wanted): Listener
    requires w.certs.Some?
  {
    Listener(ListenerPrefix(w.hostname) + "https", w.hostname, 443, HTTPS, Some(Terminate(w.certs.value)), None)
  }

  function ListenersOf(ws: seq<Wanted>): seq<Listener> {
    if ws == [] then []
    else
      var w := ws[|ws| - 1];
      ListenersOf(ws[..|ws| - 1]) + [HttpListener(w)] + (if w.certs.Some? then [HttpsListener(w)] else [])
  }

  function GatewayKey(rg: RuleGroup): string { rg.namespace + "/" + rg.ingressClass }

  ghost function WantedIn(order: seq<RuleGroup>, key: string): seq<Wanted> {
    if order == [] then []
    else
      var rg := order[|order| - 1];
      WantedIn(order[..|order| - 1], key) + (if GatewayKey(rg) == key then [WantedBy(rg)] else [])
  }

  ghost predicate KeySplits(key: string) { |Split(key, '/')| == 2 }

  ghost function GatewayKeys(order: seq<RuleGroup>): set<string> {
    set i | 0 <= i < |order| :: GatewayKey(order[i])
  }

  function GatewayName(key: string): NamespacedName
    requires |Split(key, '/')| == 2
  {
    NN(Split(key, '/')[0], Split(key, '/')[1])
  }

  ghost function GatewayFor(order: seq<RuleGroup>, key: string): Gateway
    requires KeySplits(key)
  {
    Gateway(GatewayName(key), GatewayName(key).name, ListenersOf(WantedIn(order, key)))
  }

  // ---- ToIR, as a function of the groups and default backends ----

  ghost predicate Converts(groups: map<string, RuleGroup>, dbs: seq<DefaultBackend>, env: Env) {
    && GroupErrors(InOrder(groups), env) == [] && AllDefaultErrors(dbs, env) == []
    && AllKeysSplit(GatewayKeys(InOrder(groups)))
  }

  ghost predicate IsConversion(groups: map<string, RuleGroup>, dbs: seq<DefaultBackend>, env: Env, ir: ProviderIR) {
    && ir.routes == RouteMap(RoutesOf(groups, dbs, env))
    && ByName(GatewaysByKey(InOrder(groups), GatewayKeys(InOrder(groups))), ir.gateways)
  }

  ghost function RoutesOf(groups: map<string, RuleGroup>, dbs: seq<DefaultBackend>, env: Env): seq<RouteContext> {
    GroupRoutes(InOrder(groups), env) + DefaultRoutes(dbs, env)
  }

  /** The Gateways of a conversion, by key. */
  ghost function GatewaysByKey(order: seq<RuleGroup>, keys: set<string>): map<string, Gateway> {
    map key | key in keys && KeySplits(key) :: GatewayFor(order, key)
  }

  /** The same Gateways by their own names: none lost, none added. */
  ghost predicate ByName(byKey: map<string, Gateway>, gateways: map<NamespacedName, Gateway>) {
    && (forall key | key in byKey :: byKey[key].nn in gateways && gateways[byKey[key].nn] == byKey[key])
    && (forall nn | nn in gateways :: exists key | key in byKey :: byKey[key].nn == nn)
  }

  ghost predicate AllKeysSplit(keys: set<string>) { forall key | key in keys :: KeySplits(key) }

  /** The listeners wanted of every Gateway key met so far. */
  ghost predicate WantedFor(order: seq<RuleGroup>, wanted: map<string, seq<Wanted>>) {
    && wanted.Keys == GatewayKeys(order)
    && forall key | key in wanted :: wanted[key] == WantedIn(order, key)
  }

  /** toHTTPRoutesAndGateways, first loop: the groups in key order. */
  method GroupsToRoutes(groups: map<string, RuleGroup>, env: Env)
    returns (routes: seq<RouteContext>, wanted: map<string, seq<Wanted>>, errors: seq<ConvError>)
    ensures routes == GroupRoutes(InOrder(groups), env)
    ensures errors == GroupErrors(InOrder(groups), env)
    ensures WantedFor(InOrder(groups), wanted)
  {
    var keys := SortKeys(groups.Keys);
    ghost var order := InOrder(groups);
    routes, wanted, errors := [], map[], [];
    for i := 0 to |keys|
      invariant routes == GroupRoutes(order[..i], env) && errors == GroupErrors(order[..i], env)
      invariant WantedFor(order[..i], wanted)
    {
      assert keys[i] in groups && groups[keys[i]] == order[i];
      var rg := groups[keys[i]];
      var gwKey := GatewayKey(rg);
      WantedExtend(order, i, wanted);
      wanted := wanted[gwKey := (if gwKey in wanted then wanted[gwKey] else []) + [WantedBy(rg)]];
      var ctx, errs := ToHTTPRoute(rg, env);
      OneMoreGroup(order, i, env);
      routes := routes + [ctx];
      errors := errors + errs;
    }
    assert order[..|order|] == order;
  }

  /** toHTTPRoutesAndGateways, second loop: the default backends. */
  method DefaultsToRoutes(dbs: seq<DefaultBackend>, env: Env)
    returns (routes: seq<RouteContext>, errors: seq<ConvError>)
    ensures routes == DefaultRoutes(dbs, env)
    ensures errors == AllDefaultErrors(dbs, env)
  {
    routes, errors := [], [];
    for i := 0 to |dbs|
      invariant routes == DefaultRoutes(dbs[..i], env) && errors == AllDefaultErrors(dbs[..i], env)
    {
      assert dbs[..i + 1][..i] == dbs[..i];
      var db := dbs[i];
      var rules: seq<RouteRule> := [];
      match ToBackendRef(db.namespace, db.backend, env.servicePorts) {
        case Err(e) => errors := errors + [e];
        case Ok(ref) => rules := [RouteRule(Some(DEFAULT_RULE), [], [ref])];
      }
      var route := HTTPRoute(NN(db.namespace, db.name + "-default-backend"), [db.ingressClass], [], rules);
      routes := routes + [RouteContext(route, [[BackendSource(Some(db.source), None, Some(db.backend))]])];
    }
    assert dbs[..|dbs|] == dbs;
  }

  lemma {:induction false} WantedExtend(order: seq<RuleGroup>, i: nat, wanted: map<string, seq<Wanted>>)
    requires i < |order| && WantedFor(order[..i], wanted)
    ensures var k := GatewayKey(order[i]);
            WantedFor(order[..i + 1],
                      wanted[k := (if k in wanted then wanted[k] else []) + [WantedBy(order[i])]])
  {
    OneMoreWanted(order, i, GatewayKey(order[i]));
  }

  lemma {:induction false} WantedAbsent(order: seq<RuleGroup>, key: string)
    requires key !in GatewayKeys(order)
    ensures WantedIn(order, key) == []
  {
    if order != [] {
      assert GatewayKey(order[|order| - 1]) in GatewayKeys(order);
      forall k | k in GatewayKeys(order[..|order| - 1]) ensures k in GatewayKeys(order) {
        var i :| 0 <= i < |order| - 1 && GatewayKey(order[..|order| - 1][i]) == k;
        assert GatewayKey(order[i]) == k;
      }
      WantedAbsent(order[..|order| - 1], key);
    }
  }

  lemma {:induction false} OneMoreWanted(order: seq<RuleGroup>, i: nat, gwKey: string)
    requires i < |order| && gwKey == GatewayKey(order[i])
    ensures GatewayKeys(order[..i + 1]) == GatewayKeys(order[..i]) + {gwKey}
    ensures gwKey !in GatewayKeys(order[..i]) ==> WantedIn(order[..i], gwKey) == []
    ensures forall key :: WantedIn(order[..i + 1], key) ==
                          WantedIn(order[..i], key) + (if key == gwKey then [WantedBy(order[i])] else [])
  {
    assert order[..i + 1][..i] == order[..i];
    if gwKey !in GatewayKeys(order[..i]) {
      WantedAbsent(order[..i], gwKey);
    }
    forall k ensures k in GatewayKeys(order[..i + 1]) <==> k in GatewayKeys(order[..i]) + {gwKey} {
      if k in GatewayKeys(order[..i]) {
        var j :| 0 <= j < i && GatewayKey(order[..i][j]) == k;
        assert GatewayKey(order[..i + 1][j]) == k;
      }
      if k == gwKey {
        assert GatewayKey(order[..i + 1][i]) == k;
      }
      if k in GatewayKeys(order[..i + 1]) {
        var j :| 0 <= j < i + 1 && GatewayKey(order[..i + 1][j]) == k;
        assert j < i ==> GatewayKey(order[..i][j]) == k;
      }
    }
  }

  /** Collecting map keys in any order and sorting them. */
  method SortKeys(keys: set<string>) returns (r: seq<string>)
    ensures r == SortedStrings(keys)
  {
    r := [];
    var todo := keys;
    while todo != {}
      invariant todo <= keys && multiset(r) + multiset(todo) == multiset(keys)
      decreases |todo|
    {
      var k :| k in todo;
      r := r + [k];
      todo := todo - {k};
    }
    LessIsStrictWeak();
    r := SortSlice(Less, r);
    SortedStringsIsTheSort(keys, r);
  }

  /** toHTTPRoutesAndGateways, last loop: the map of wanted listeners is visited in any order. */
  method ToGateways(ghost order: seq<RuleGroup>, wanted: map<string, seq<Wanted>>)
    returns (gateways: map<string, Gateway>, errors: seq<ConvError>)
    requires forall key | key in wanted :: wanted[key] == WantedIn(order, key)
    ensures errors == [] <==> AllKeysSplit(wanted.Keys)
    ensures gateways == GatewaysByKey(order, wanted.Keys)
  {
    gateways, errors := map[], [];
    var todo := wanted.Keys;
    ghost var done: set<string> := {};
    while todo != {}
      invariant todo <= wanted.Keys && done == wanted.Keys - todo
      invariant errors == [] <==> AllKeysSplit(done)
      invariant gateways == GatewaysByKey(order, done)
      decreases |todo|
    {
      var gwKey :| gwKey in todo;
      OneMoreKey(order, done, gwKey);
      var gateway := MakeGateway(gwKey, wanted[gwKey]);
      if gateway.None? {
        errors := errors + [BadGatewayKey(gwKey)];
      } else {
        gateways := gateways[gwKey := gateway.value];
      }
      todo, done := todo - {gwKey}, done + {gwKey};
    }
  }

  lemma {:induction false} OneMoreKey(order: seq<RuleGroup>, done: set<string>, k: string)
    ensures AllKeysSplit(done + {k}) <==> AllKeysSplit(done) && KeySplits(k)
    ensures KeySplits(k) ==> GatewaysByKey(order, done + {k}) == GatewaysByKey(order, done)[k := GatewayFor(order, k)]
    ensures !KeySplits(k) ==> GatewaysByKey(order, done + {k}) == GatewaysByKey(order, done)
  {
  }

  method MakeGateway(gwKey: string, ws: seq<Wanted>) returns (gateway: Option<Gateway>)
    ensures gateway.Some? <==> KeySplits(gwKey)
    ensures gateway.Some? ==> gateway.value == Gateway(GatewayName(gwKey), GatewayName(gwKey).name, ListenersOf(ws))
  {
    var parts := Split(gwKey, '/');
    if |parts| != 2 {
      return None;
    }
    var listeners := AppendListeners(ws);
    return Some(Gateway(NN(parts[0], parts[1]), parts[1], listeners));
  }

  method AppendListeners(ws: seq<Wanted>) returns (listeners: seq<Listener>)
    ensures listeners == ListenersOf(ws)
  {
    listeners := [];
    for i := 0 to |ws|
      invariant listeners == ListenersOf(ws[..i])
    {
      assert ws[..i + 1][..i] == ws[..i];
      var prefix := "";
      if ws[i].hostname.Some? && ws[i].hostname.value != "" {
        prefix := NameFromHost(ws[i].hostname.value) + "-";
      }
      listeners := listeners + [Listener(prefix + "http", ws[i].hostname, 80, HTTP, None, None)];
      if ws[i].certs.Some? {
        listeners := listeners +
          [Listener(prefix + "https", ws[i].hostname, 443, HTTPS, Some(Terminate(ws[i].certs.value)), None)];
      }
    }
    assert ws[..|ws|] == ws;
  }

  /** A string is the join of its split. */
  lemma {:induction false} SplitDetermines(a: string, b: string)
    requires Split(a, '/') == Split(b, '/')
    ensures a == b
  {
    JoinOfSplit(a, '/');
    JoinOfSplit(b, '/');
  }

  function JoinWith(parts: seq<string>, sep: char): string
    requires parts != []
  {
    if |parts| == 1 then parts[0] else parts[0] + [sep] + JoinWith(parts[1..], sep)
  }

  lemma {:induction false} JoinOfSplit(s: string, sep: char)
    ensures JoinWith(Split(s, sep), sep) == s
  {
    if s != [] {
      JoinOfSplit(s[1..], sep);
      var rest := Split(s[1..], sep);
      if s[0] == sep {
        var parts := [[]] + rest;
        assert parts[1..] == rest;
        assert JoinWith(parts, sep) == [sep] + JoinWith(rest, sep);
      } else {
        JoinGrows(s[0], rest, sep);
      }
      assert s == [s[0]] + s[1..];
    }
  }

  lemma {:induction false} JoinGrows(c: char, parts: seq<string>, sep: char)
    requires parts != []
    ensures JoinWith([[c] + parts[0]] + parts[1..], sep) == [c] + JoinWith(parts, sep)
  {
    var more := [[c] + parts[0]] + parts[1..];
    assert more[1..] == parts[1..];
    if |parts| > 1 {
      var tail := [sep] + JoinWith(parts[1..], sep);
      assert JoinWith(parts, sep) == parts[0] + tail;
      assert JoinWith(more, sep) == ([c] + parts[0]) + tail;
      assert ([c] + parts[0]) + tail == [c] + (parts[0] + tail);
    }
  }

  lemma {:induction false} GatewayNamesDiffer(order: seq<RuleGroup>, keys: set<string>)
    ensures var g := GatewaysByKey(order, keys); forall a, b | a in g && b in g && g[a].nn == g[b].nn :: a == b
  {
    var g := GatewaysByKey(order, keys);
    forall a, b | a in g && b in g && g[a].nn == g[b].nn ensures a == b {
      assert Split(a, '/') == [g[a].nn.namespace, g[a].nn.name];
      assert Split(b, '/') == [g[b].nn.namespace, g[b].nn.name];
      SplitDetermines(a, b);
    }
  }

  /** Storing the Gateways under their own names, in any order. */
  method GatewaysByName(byKey: map<string, Gateway>) returns (gateways: map<NamespacedName, Gateway>)
    requires forall a, b | a in byKey && b in byKey && byKey[a].nn == byKey[b].nn :: a == b
    ensures ByName(byKey, gateways)
  {
    gateways := map[];
    var todo := byKey.Keys;
    while todo != {}
      invariant todo <= byKey.Keys
      invariant forall key | key in byKey.Keys - todo ::
                  byKey[key].nn in gateways && gateways[byKey[key].nn] == byKey[key]
      invariant forall nn | nn in gateways :: exists key | key in byKey.Keys - todo :: byKey[key].nn == nn
      decreases |todo|
    {
      var key :| key in todo;
      assert key in byKey.Keys - (todo - {key});
      gateways := gateways[byKey[key].nn := byKey[key]];
      todo := todo - {key};
    }
  }

  method RoutesByKey(routes: seq<RouteContext>) returns (routeByKey: map<NamespacedName, RouteContext>)
    ensures routeByKey == RouteMap(routes)
  {
    routeByKey := map[];
    for i := 0 to |routes|
      invariant routeByKey == RouteMap(routes[..i])
    {
      assert routes[..i + 1][..i] == routes[..i];
      routeByKey := routeByKey[routes[i].route.nn := routes[i]];
    }
    assert routes[..|routes|] == routes;
  }

  /** ToIR */
  method ToIR(ings: seq<Ingress>, env: Env) returns (r: Result<ProviderIR, seq<ConvError>>)
    ensures r.Ok? <==> Converts(Groups(AllRules(ings)), AllDefaults(ings), env)
    ensures r.Ok? ==> IsConversion(Groups(AllRules(ings)), AllDefaults(ings), env, r.value)
    ensures r.Err? ==> r.error != []
    ensures r.Err? ==>
              GroupErrors(InOrder(Groups(AllRules(ings))), env) + AllDefaultErrors(AllDefaults(ings), env) <= r.error
  {
    var aggregator := new IngressAggregator(env.servicePorts);
    aggregator.AddAll(ings);
    var groups, dbs := aggregator.ruleGroups, aggregator.defaultBackends;
    var groupRoutes, wanted, groupErrors := GroupsToRoutes(groups, env);
    var defaultRoutes, defaultErrors := DefaultsToRoutes(dbs, env);
    var gateways, gwErrors := ToGateways(InOrder(groups), wanted);
    if |groupErrors + defaultErrors + gwErrors| > 0 {
      r := Err(groupErrors + defaultErrors + gwErrors);
    } else {
      var routeByKey := RoutesByKey(groupRoutes + defaultRoutes);
      GatewayNamesDiffer(InOrder(groups), GatewayKeys(InOrder(groups)));
      var gatewayByKey := GatewaysByName(gateways);
      r := Ok(ProviderIR(gatewayByKey, routeByKey));
    }
  }
}
