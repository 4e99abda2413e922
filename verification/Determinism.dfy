/** A conversion does not depend on how namespaces interleave in its input, and its Gateways fit its routes. */
module Determinism {
  import opened Text
  import opened Names
  import opened Kube
  import opened Collect
  import opened Grouping
  import opened Paths
  import opened Converter
  import opened Sorting
  import opened Correctness
  import opened IngressSpec

  // ---- default backends under reordering ----

  function DefaultNamespace(db: DefaultBackend): string { db.namespace }
  function RouteNN(c: RouteContext): NamespacedName { c.route.nn }

  lemma {:induction false} DefaultsOfNamespace(ings: seq<Ingress>, ns: string)
    ensures AllDefaults(Select(ings, IngressNamespace, ns)) == Select(AllDefaults(ings), DefaultNamespace, ns)
  {
    if ings != [] {
      var t, x := ings[..|ings| - 1], ings[|ings| - 1];
      DefaultsOfNamespace(t, ns);
      SelectConcat(AllDefaults(t), DefaultOf(x), DefaultNamespace, ns);
      SelectDefaultOf(x, ns);
      DefaultsSnoc(Select(t, IngressNamespace, ns), x);
    }
  }

  lemma {:induction false} DefaultsSnoc(ings: seq<Ingress>, x: Ingress)
    ensures AllDefaults(ings + [x]) == AllDefaults(ings) + DefaultOf(x)
    ensures AllDefaults(ings + []) == AllDefaults(ings) + []
  {
    assert (ings + [x])[..|ings|] == ings && ings + [] == ings;
  }

  lemma {:induction false} SelectDefaultOf(x: Ingress, ns: string)
    ensures Select(DefaultOf(x), DefaultNamespace, ns) == if x.namespace == ns then DefaultOf(x) else []
  {
    if x.defaultBackend.Some? {
      assert DefaultOf(x)[..0] == [];
    }
  }

  lemma {:induction false} DefaultRoutesOfName(dbs: seq<DefaultBackend>, env: Env, nn: NamespacedName)
    ensures Select(DefaultRoutes(dbs, env), RouteNN, nn)
            == Select(DefaultRoutes(Select(dbs, DefaultNamespace, nn.namespace), env), RouteNN, nn)
  {
    if dbs != [] {
      var t, db := dbs[..|dbs| - 1], dbs[|dbs| - 1];
      DefaultRoutesOfName(t, env, nn);
      DefaultRouteLast(dbs, env, nn);
      SelectLast(dbs, DefaultNamespace, nn.namespace);
      if db.namespace == nn.namespace {
        DefaultRouteSnoc(Select(t, DefaultNamespace, nn.namespace), db, env, nn);
      }
    }
  }

  lemma {:induction false} DefaultRouteLast(dbs: seq<DefaultBackend>, env: Env, nn: NamespacedName)
    requires dbs != []
    ensures var t, c := dbs[..|dbs| - 1], DefaultRoute(dbs[|dbs| - 1], env);
            Select(DefaultRoutes(dbs, env), RouteNN, nn)
            == if RouteNN(c) == nn then Select(DefaultRoutes(t, env), RouteNN, nn) + [c]
               else Select(DefaultRoutes(t, env), RouteNN, nn)
  {
    SelectSnoc(DefaultRoutes(dbs[..|dbs| - 1], env), DefaultRoute(dbs[|dbs| - 1], env), RouteNN, nn);
  }

  lemma {:induction false} DefaultRouteSnoc(dbs: seq<DefaultBackend>, db: DefaultBackend, env: Env, nn: NamespacedName)
    ensures Select(DefaultRoutes(dbs + [db], env), RouteNN, nn)
            == if RouteNN(DefaultRoute(db, env)) == nn then
                 Select(DefaultRoutes(dbs, env), RouteNN, nn) + [DefaultRoute(db, env)]
               else Select(DefaultRoutes(dbs, env), RouteNN, nn)
  {
    assert (dbs + [db])[..|dbs|] == dbs;
    DefaultRouteLast(dbs + [db], env, nn);
  }

  /** The map entry of a name is the last route of that name. */
  lemma {:induction false} RouteMapIsLast(routes: seq<RouteContext>, nn: NamespacedName)
    ensures var named := Select(routes, RouteNN, nn);
            && (nn in RouteMap(routes) <==> named != [])
            && (named != [] ==> RouteMap(routes)[nn] == named[|named| - 1])
  {
    if routes != [] {
      RouteMapIsLast(routes[..|routes| - 1], nn);
    }
  }

  lemma {:induction false} DefaultSelectionsAgree(a: seq<Ingress>, b: seq<Ingress>, ns: string)
    requires AgreeWithinNamespaces(a, b)
    ensures Select(AllDefaults(a), DefaultNamespace, ns) == Select(AllDefaults(b), DefaultNamespace, ns)
  {
    DefaultsOfNamespace(a, ns);
    DefaultsOfNamespace(b, ns);
  }

  lemma {:induction false} RouteMapsAgree(routes: seq<RouteContext>, a: seq<Ingress>, b: seq<Ingress>, env: Env)
    requires AgreeWithinNamespaces(a, b)
    ensures RouteMap(routes + DefaultRoutes(AllDefaults(a), env)) ==
              RouteMap(routes + DefaultRoutes(AllDefaults(b), env))
  {
    forall nn ensures Select(routes + DefaultRoutes(AllDefaults(a), env), RouteNN, nn)
                      == Select(routes + DefaultRoutes(AllDefaults(b), env), RouteNN, nn) {
      NamedRoutesAgree(routes, a, b, env, nn);
    }
    SameMaps(routes + DefaultRoutes(AllDefaults(a), env), routes + DefaultRoutes(AllDefaults(b), env));
  }

  lemma {:induction false} SameMaps(a: seq<RouteContext>, b: seq<RouteContext>)
    requires forall nn :: Select(a, RouteNN, nn) == Select(b, RouteNN, nn)
    ensures RouteMap(a) == RouteMap(b)
  {
    forall nn ensures nn in RouteMap(a) <==> nn in RouteMap(b)
              ensures nn in RouteMap(a) ==> RouteMap(a)[nn] == RouteMap(b)[nn]
    {
      RouteMapIsLast(a, nn);
      RouteMapIsLast(b, nn);
    }
  }

  lemma {:induction false} NamedRoutesAgree(routes: seq<RouteContext>, a: seq<Ingress>, b: seq<Ingress>, env: Env,
          nn: NamespacedName)
    requires AgreeWithinNamespaces(a, b)
    ensures Select(routes + DefaultRoutes(AllDefaults(a), env), RouteNN, nn)
            == Select(routes + DefaultRoutes(AllDefaults(b), env), RouteNN, nn)
  {
    SelectConcat(routes, DefaultRoutes(AllDefaults(a), env), RouteNN, nn);
    SelectConcat(routes, DefaultRoutes(AllDefaults(b), env), RouteNN, nn);
    DefaultRoutesOfName(AllDefaults(a), env, nn);
    DefaultRoutesOfName(AllDefaults(b), env, nn);
    DefaultSelectionsAgree(a, b, nn.namespace);
  }

  lemma {:induction false} DefaultsResolveAgree(a: seq<Ingress>, b: seq<Ingress>, env: Env)
    requires AgreeWithinNamespaces(a, b) && DefaultsResolve(AllDefaults(a), env)
    ensures DefaultsResolve(AllDefaults(b), env)
  {
    var da, db := AllDefaults(a), AllDefaults(b);
    forall i | 0 <= i < |db| ensures ToBackendRef(db[i].namespace, db[i].backend, env.servicePorts).Ok? {
      DefaultSelectionsAgree(a, b, db[i].namespace);
      SelectMembers(da, DefaultNamespace, db[i].namespace);
      SelectMembers(db, DefaultNamespace, db[i].namespace);
      assert db[i] in Select(db, DefaultNamespace, db[i].namespace);
      assert db[i] in da;
    }
  }

  lemma {:induction false} ByNameIsUnique(g: map<string, Gateway>, m: map<NamespacedName, Gateway>,
          n: map<NamespacedName, Gateway>)
    requires ByName(g, m) && ByName(g, n)
    ensures m == n
  {
    forall nn | nn in m ensures nn in n && m[nn] == n[nn] {
      var key :| key in g && g[key].nn == nn;
    }
    forall nn | nn in n ensures nn in m {
      var key :| key in g && g[key].nn == nn;
    }
  }

  /** Two input orders that agree inside every namespace fail together or give the same routes and Gateways. */
  lemma {:induction false} ConversionDeterministic(a: seq<Ingress>, b: seq<Ingress>, env: Env, irA: ProviderIR,
          irB: ProviderIR)
    requires SlashFree(a) && SlashFree(b) && AgreeWithinNamespaces(a, b)
    ensures Converts(Groups(AllRules(a)), AllDefaults(a), env) <==> Converts(Groups(AllRules(b)), AllDefaults(b), env)
    ensures (IsConversion(Groups(AllRules(a)), AllDefaults(a), env, irA) &&
             IsConversion(Groups(AllRules(b)), AllDefaults(b), env, irB)) ==> irA == irB
  {
    GroupsDeterministic(a, b);
    NoDefaultErrors(AllDefaults(a), env);
    NoDefaultErrors(AllDefaults(b), env);
    if DefaultsResolve(AllDefaults(a), env) {
      DefaultsResolveAgree(a, b, env);
    }
    if DefaultsResolve(AllDefaults(b), env) {
      DefaultsResolveAgree(b, a, env);
    }
    var order := InOrder(Groups(AllRules(a)));
    RouteMapsAgree(GroupRoutes(order, env), a, b, env);
    if IsConversion(Groups(AllRules(a)), AllDefaults(a), env, irA)
       && IsConversion(Groups(AllRules(b)), AllDefaults(b), env, irB) {
      ByNameIsUnique(GatewaysByKey(order, GatewayKeys(order)), irA.gateways, irB.gateways);
    }
  }

  /** So the result is a function of the stored Ingresses, whichever of its orders FromMap's sort picks. */
  lemma {:induction false} StorageOrderIsIrrelevant(ingresses: map<NamespacedName, Ingress>, a: seq<NamespacedName>,
          b: seq<NamespacedName>, env: Env, irA: ProviderIR, irB: ProviderIR)
    requires WellKeyed(ingresses) && forall nn | nn in ingresses :: '/' !in nn.namespace
    requires NamesOf(ingresses, a) && NamesOf(ingresses, b)
    ensures forall nn | nn in a || nn in b :: nn in ingresses
    ensures var la, lb := Listed(ingresses, a), Listed(ingresses, b);
            && (Converts(Groups(AllRules(la)), AllDefaults(la), env) <==>
                Converts(Groups(AllRules(lb)), AllDefaults(lb), env))
            && ((IsConversion(Groups(AllRules(la)), AllDefaults(la), env, irA) &&
                 IsConversion(Groups(AllRules(lb)), AllDefaults(lb), env, irB)) ==> irA == irB)
  {
    ListingsAgree(ingresses, a, b);
    ListedSlashFree(ingresses, a);
    ListedSlashFree(ingresses, b);
    ConversionDeterministic(Listed(ingresses, a), Listed(ingresses, b), env, irA, irB);
  }

  lemma {:induction false} ListedSlashFree(ingresses: map<NamespacedName, Ingress>, names: seq<NamespacedName>)
    requires WellKeyed(ingresses) && (forall nn | nn in ingresses :: '/' !in nn.namespace)
    requires forall nn | nn in names :: nn in ingresses
    ensures SlashFree(Listed(ingresses, names))
  {
    if names != [] {
      ListedSlashFree(ingresses, names[..|names| - 1]);
    }
  }

  // ---- Gateways and routes fit ----

  function ListenerProtocol(l: Listener): Protocol { l.protocol }

  ghost function GroupsOn(order: seq<RuleGroup>, key: string): nat {
    |WantedIn(order, key)|
  }

  function WithTls(ws: seq<Wanted>): nat {
    if ws == [] then 0 else WithTls(ws[..|ws| - 1]) + (if ws[|ws| - 1].certs.Some? then 1 else 0)
  }

  function CountOf(ls: seq<Listener>, p: Protocol): nat { |Select(ls, ListenerProtocol, p)| }

  lemma {:induction false} CountSnoc(ls: seq<Listener>, l: Listener, p: Protocol)
    ensures CountOf(ls + [l], p) == CountOf(ls, p) + if l.protocol == p then 1 else 0
  {
    SelectSnoc(ls, l, ListenerProtocol, p);
  }

  lemma {:induction false} CountPair(ls: seq<Listener>, h: Listener, s: Listener, p: Protocol)
    requires h.protocol == HTTP && s.protocol == HTTPS
    ensures CountOf(ls + [h], p) == CountOf(ls, p) + if p == HTTP then 1 else 0
    ensures CountOf(ls + [h] + [s], p) == CountOf(ls, p) + if p.HTTP? || p.HTTPS? then 1 else 0
  {
    CountSnoc(ls, h, p);
    CountSnoc(ls + [h], s, p);
  }

  lemma {:induction false} ListenerCounts(ws: seq<Wanted>)
    ensures |ListenersOf(ws)| == |ws| + WithTls(ws)
    ensures CountOf(ListenersOf(ws), HTTP) == |ws| && CountOf(ListenersOf(ws), HTTPS) == WithTls(ws)
  {
    if ws != [] {
      var t, w := ws[..|ws| - 1], ws[|ws| - 1];
      ListenerCounts(t);
      var s := HttpsListener(w.(certs := if w.certs.Some? then w.certs else Some([])));
      CountPair(ListenersOf(t), HttpListener(w), s, HTTP);
      CountPair(ListenersOf(t), HttpListener(w), s, HTTPS);
      assert ListenersOf(t) + [HttpListener(w)] + [] == ListenersOf(t) + [HttpListener(w)];
    }
  }

  lemma {:induction false} ListenersMembers(ws: seq<Wanted>)
    ensures forall l :: l in ListenersOf(ws) <==>
                        exists w | w in ws :: l == HttpListener(w) || (w.certs.Some? && l == HttpsListener(w))
  {
    if ws != [] {
      var t, w := ws[..|ws| - 1], ws[|ws| - 1];
      ListenersMembers(t);
      assert ws == t + [w];
      forall l ensures l in ListenersOf(ws) <==>
                       exists v | v in ws :: l == HttpListener(v) || (v.certs.Some? && l == HttpsListener(v))
      {
        if l in ListenersOf(t) {
          var v :| v in t && (l == HttpListener(v) || (v.certs.Some? && l == HttpsListener(v)));
          assert v in ws;
        } else if l in ListenersOf(ws) {
          assert w in ws;
        }
      }
    }
  }

  lemma {:induction false} WantedInMembers(order: seq<RuleGroup>, key: string, i: nat)
    requires i < |order| && GatewayKey(order[i]) == key
    ensures WantedBy(order[i]) in WantedIn(order, key)
  {
    if i < |order| - 1 {
      WantedInMembers(order[..|order| - 1], key, i);
    }
  }

  /** The Gateway of a group's namespace and class exists and has the listeners the group asks for. */
  lemma {:induction false} GatewayServes(order: seq<RuleGroup>, ir: ProviderIR, i: nat)
    requires ByName(GatewaysByKey(order, GatewayKeys(order)), ir.gateways)
    requires i < |order| && '/' !in order[i].namespace && '/' !in order[i].ingressClass
    ensures var nn := NN(order[i].namespace, order[i].ingressClass);
            && nn in ir.gateways && ir.gateways[nn].nn == nn && ir.gateways[nn].className == nn.name
            && HttpListener(WantedBy(order[i])) in ir.gateways[nn].listeners
            && (WantedBy(order[i]).certs.Some? ==> HttpsListener(WantedBy(order[i])) in ir.gateways[nn].listeners)
  {
    var key := GatewayKey(order[i]);
    SplitOfJoin(order[i].namespace, order[i].ingressClass, '/');
    var g := GatewaysByKey(order, GatewayKeys(order));
    assert key in GatewayKeys(order) && key in g;
    WantedInMembers(order, key, i);
    WantedListeners(WantedIn(order, key), WantedBy(order[i]));
    assert ir.gateways[g[key].nn] == g[key];
  }

  /** The frame of a group's route. */
  lemma {:induction false} RouteFrame(rg: RuleGroup, env: Env)
    ensures var route := RouteOf(rg, env).route;
            && route.nn == NN(rg.namespace, RouteName(rg.name, rg.host))
            && route.parents == (if rg.ingressClass == "" then [] else [rg.ingressClass])
            && route.hostnames == (if rg.host == "" then [] else [rg.host])
  {
  }

  /** The hostname is the group's host; for a group without one, the only host of its only TLS entry, if it is so. */
  ghost predicate ForHostOf(rg: RuleGroup, hostname: Option<string>) {
    if rg.host != "" then hostname == Some(rg.host)
    else if |rg.tls| == 1 && |rg.tls[0].hosts| == 1 then hostname == Some(rg.tls[0].hosts[0])
    else hostname == None
  }

  /** The listener is called `suffix`, after the hostname if there is one. */
  ghost predicate NamedFor(l: Listener, suffix: string) {
    if l.hostname in {None, Some("")} then l.name == suffix
    else l.name == NameFromHost(l.hostname.value) + "-" + suffix
  }

  /** Plain HTTP on port 80. */
  ghost predicate ListensHttp(rg: RuleGroup, l: Listener) {
    l.protocol == HTTP && l.port == 80 && l.tls == None && ForHostOf(rg, l.hostname) && NamedFor(l, "http")
  }

  /** HTTPS on port 443, ended here with the secrets of all the group's TLS entries in their order. */
  ghost predicate ListensHttps(rg: RuleGroup, l: Listener) {
    && l.protocol == HTTPS && l.port == 443 && ForHostOf(rg, l.hostname) && NamedFor(l, "https")
    && l.tls.Some? && l.tls.value.Terminate? && |l.tls.value.certs| == |rg.tls|
    && forall i | 0 <= i < |rg.tls| :: l.tls.value.certs[i] == rg.tls[i].secretName
  }

  /** Every rule of the group comes from an Ingress of its namespace and class, and is for its host. */
  ghost predicate SpeaksFor(rg: RuleGroup) {
    forall r | r in rg.rules ::
      r.ingress.namespace == rg.namespace && HasClass(r.ingress, rg.ingressClass) && r.rule.host == rg.host
  }

  ghost predicate FitsGroup(rg: RuleGroup, route: HTTPRoute, gw: Gateway) {
    && SpeaksFor(rg)
    && gw.nn == NN(rg.namespace, rg.ingressClass) && gw.className == rg.ingressClass
    && route.nn.namespace == rg.namespace
    && route.parents == (if rg.ingressClass == "" then [] else [rg.ingressClass])
    && route.hostnames == (if rg.host == "" then [] else [rg.host])
    && (exists l | l in gw.listeners :: ListensHttp(rg, l))
    && (rg.tls != [] ==> exists l | l in gw.listeners :: ListensHttps(rg, l))
  }

  lemma {:induction false} ClassMeans(ing: Ingress, c: string)
    ensures HasClass(ing, c) <==> IngressClass(ing) == c
  {
  }

  lemma {:induction false} SecretNamesAre(tls: seq<IngressTLS>)
    ensures |SecretNames(tls)| == |tls| && forall i | 0 <= i < |tls| :: SecretNames(tls)[i] == tls[i].secretName
  {
    if tls != [] {
      SecretNamesAre(tls[..|tls| - 1]);
    }
  }

  lemma {:induction false} WantedMeans(rg: RuleGroup)
    ensures ForHostOf(rg, WantedBy(rg).hostname) && ListensHttp(rg, HttpListener(WantedBy(rg)))
    ensures WantedBy(rg).certs.Some? <==> rg.tls != []
    ensures rg.tls != [] ==> ListensHttps(rg, HttpsListener(WantedBy(rg)))
  {
    SecretNamesAre(rg.tls);
    var h := WantedBy(rg).hostname;
    if h.Some? {
      assert NameFromHost(h.value) + "-" + "http" == NameFromHost(h.value) + "-http";
    }
  }

  lemma {:induction false} GroupSpeaks(rules: seq<SourcedRule>, k: string)
    requires PlainKeys(rules) && k in Groups(rules)
    ensures SpeaksFor(Groups(rules)[k])
  {
    GroupIsHomogeneous(rules, k);
    var rg := Groups(rules)[k];
    forall r | r in rg.rules
      ensures r.ingress.namespace == rg.namespace && HasClass(r.ingress, rg.ingressClass) && r.rule.host == rg.host
    {
      ClassMeans(r.ingress, rg.ingressClass);
    }
  }

  /** The TLS entries of the rules' Ingresses, rule by rule. */
  function TlsLists(rules: seq<SourcedRule>): seq<seq<IngressTLS>> {
    seq(|rules|, i requires 0 <= i < |rules| => rules[i].ingress.tls)
  }

  /** A group's rules are those of one namespace, class and host, all of them; it is named after the Ingress of the
      first, and its TLS entries are those of the rules' Ingresses. */
  lemma {:induction false} GroupMeans(rules: seq<SourcedRule>, k: string)
    requires PlainKeys(rules) && k in Groups(rules)
    ensures var rg := Groups(rules)[k];
            && SpeaksFor(rg) && rg.rules != [] && rg.name == rg.rules[0].ingress.name
            && (forall r :: r in rg.rules <==>
                  r in rules && r.ingress.namespace == rg.namespace && HasClass(r.ingress, rg.ingressClass)
                  && r.rule.host == rg.host)
            && rg.tls == Concatenated(TlsLists(rg.rules))
  {
    var rg := Groups(rules)[k];
    GroupSpeaks(rules, k);
    GroupStarts(rules, k);
    forall r ensures r in rg.rules <==>
                     r in rules && r.ingress.namespace == rg.namespace && HasClass(r.ingress, rg.ingressClass)
                     && r.rule.host == rg.host {
      MemberOfGroup(rules, k, r);
    }
    TlsInReadingOrder(rg.rules);
  }

  lemma {:induction false} MemberOfGroup(rules: seq<SourcedRule>, k: string, r: SourcedRule)
    requires PlainKeys(rules) && k in Groups(rules)
    ensures var rg := Groups(rules)[k];
            r in rg.rules <==>
            r in rules && r.ingress.namespace == rg.namespace && HasClass(r.ingress, rg.ingressClass)
            && r.rule.host == rg.host
  {
    var rg := Groups(rules)[k];
    GroupSpeaks(rules, k);
    GroupStarts(rules, k);
    ClassMeans(r.ingress, rg.ingressClass);
    if r in rules && r.ingress.namespace == rg.namespace && HasClass(r.ingress, rg.ingressClass)
       && r.rule.host == rg.host {
      SameFieldsSameKey(r, rg.rules[0]);
    }
  }

  /** The group is what its first rule and its members make it. */
  lemma {:induction false} GroupStarts(rules: seq<SourcedRule>, k: string)
    requires k in Groups(rules)
    ensures var rg := Groups(rules)[k];
            && rg.rules != [] && RuleGroupKey(rg.rules[0]) == k && rg.name == rg.rules[0].ingress.name
            && rg.namespace == rg.rules[0].ingress.namespace && rg.ingressClass == IngressClass(rg.rules[0].ingress)
            && rg.host == rg.rules[0].rule.host && rg.tls == TlsOf(rg.rules)
            && forall r :: r in rg.rules <==> r in rules && RuleGroupKey(r) == k
  {
    SelectPresent(rules, k);
    SelectMembers(rules, RuleGroupKey, k);
    var members := Select(rules, RuleGroupKey, k);
    assert members[0] in members;
  }

  lemma {:induction false} SameFieldsSameKey(r: SourcedRule, s: SourcedRule)
    requires r.ingress.namespace == s.ingress.namespace && IngressClass(r.ingress) == IngressClass(s.ingress)
    requires r.rule.host == s.rule.host
    ensures RuleGroupKey(r) == RuleGroupKey(s)
  {
  }

  /** Everything is read in order: the Ingresses' rules, the rules' paths, and the TLS entries of the rules'
      Ingresses. */
  lemma {:induction false} ReadingOrder(ings: seq<Ingress>, rules: seq<SourcedRule>)
    ensures AllRules(ings) == Concatenated(seq(|ings|, i requires 0 <= i < |ings| => RulesOf(ings[i])))
    ensures PathsOf(rules) == Concatenated(seq(|rules|, i requires 0 <= i < |rules| => PathsOfRule(rules[i])))
    ensures TlsOf(rules) == Concatenated(TlsLists(rules))
  {
    RulesInReadingOrder(ings);
    PathsInReadingOrder(rules);
    TlsInReadingOrder(rules);
  }

  lemma {:induction false} RulesInReadingOrder(ings: seq<Ingress>)
    ensures AllRules(ings) == Concatenated(seq(|ings|, i requires 0 <= i < |ings| => RulesOf(ings[i])))
  {
    if ings != [] {
      var t, n := ings[..|ings| - 1], |ings| - 1;
      RulesInReadingOrder(t);
      var parts := seq(|t|, i requires 0 <= i < |t| => RulesOf(t[i]));
      ConcatenatedLast(parts, RulesOf(ings[n]));
      assert seq(|ings|, i requires 0 <= i < |ings| => RulesOf(ings[i])) == parts + [RulesOf(ings[n])];
    }
  }

  lemma {:induction false} PathsInReadingOrder(rules: seq<SourcedRule>)
    ensures PathsOf(rules) == Concatenated(seq(|rules|, i requires 0 <= i < |rules| => PathsOfRule(rules[i])))
  {
    if rules != [] {
      var t, n := rules[..|rules| - 1], |rules| - 1;
      PathsInReadingOrder(t);
      var parts := seq(|t|, i requires 0 <= i < |t| => PathsOfRule(t[i]));
      ConcatenatedLast(parts, PathsOfRule(rules[n]));
      assert seq(|rules|, i requires 0 <= i < |rules| => PathsOfRule(rules[i])) == parts + [PathsOfRule(rules[n])];
    }
  }

  lemma {:induction false} TlsInReadingOrder(rules: seq<SourcedRule>)
    ensures TlsOf(rules) == Concatenated(TlsLists(rules))
  {
    if rules != [] {
      var t, n := rules[..|rules| - 1], |rules| - 1;
      TlsInReadingOrder(t);
      ConcatenatedLast(TlsLists(t), rules[n].ingress.tls);
      assert TlsLists(rules) == TlsLists(t) + [rules[n].ingress.tls];
    }
  }

  /** The paths read are those of the rules, each with its Ingress and host. */
  lemma {:induction false} PathsMean(ings: seq<Ingress>, p: SourcedPath)
    ensures p in PathsOf(AllRules(ings)) <==>
            p.ingress in ings && exists rule | rule in p.ingress.rules :: rule.host == p.host && p.path in rule.paths
  {
    AllRulesFrom(ings);
    PathsOfMembers(AllRules(ings), p);
    if rule :| p.ingress in ings && rule in p.ingress.rules && rule.host == p.host && p.path in rule.paths {
      assert SourcedRule(p.ingress, rule) in AllRules(ings);
    }
  }

  lemma {:induction false} PathsOfMembers(rules: seq<SourcedRule>, p: SourcedPath)
    ensures p in PathsOf(rules) <==>
            exists r | r in rules :: r.ingress == p.ingress && r.rule.host == p.host && p.path in r.rule.paths
  {
    if rules != [] {
      var rest, last := rules[..|rules| - 1], rules[|rules| - 1];
      PathsOfMembers(rest, p);
      assert rules == rest + [last];
      assert p in PathsOf(rules) <==> p in PathsOf(rest) || p in PathsOfRule(last);
      RulePaths(last, p);
    }
  }

  lemma {:induction false} RulePaths(r: SourcedRule, p: SourcedPath)
    ensures p in PathsOfRule(r) <==> r.ingress == p.ingress && r.rule.host == p.host && p.path in r.rule.paths
  {
    if p.path in r.rule.paths && r.ingress == p.ingress && r.rule.host == p.host {
      var i :| 0 <= i < |r.rule.paths| && r.rule.paths[i] == p.path;
      assert PathsOfRule(r)[i] == p;
    }
  }

  /** The default backends read are those of the Ingresses, each with the name, namespace and class of its Ingress. */
  lemma {:induction false} DefaultsMean(ings: seq<Ingress>, db: DefaultBackend)
    ensures db in AllDefaults(ings) <==>
            db.source in ings && db.source.defaultBackend == Some(db.backend) && db.name == db.source.name
            && db.namespace == db.source.namespace && HasClass(db.source, db.ingressClass)
  {
    if ings != [] {
      var rest, last := ings[..|ings| - 1], ings[|ings| - 1];
      DefaultsMean(rest, db);
      assert ings == rest + [last];
      ClassMeans(db.source, db.ingressClass);
    }
  }

  /** Referential integrity: the Gateway a group's route names exists in the route's namespace, and listens for the
      group's host over HTTP, and over HTTPS with the group's certificates when it has TLS. */
  lemma {:induction false} GatewayFitsGroup(ings: seq<Ingress>, env: Env, ir: ProviderIR, k: string)
    requires SlashFree(ings) && ClassesSlashFree(ings)
    requires IsConversion(Groups(AllRules(ings)), AllDefaults(ings), env, ir)
    requires k in Groups(AllRules(ings))
    ensures var rg := Groups(AllRules(ings))[k];
            var nn := NN(rg.namespace, rg.ingressClass);
            nn in ir.gateways && FitsGroup(rg, RouteOf(rg, env).route, ir.gateways[nn])
  {
    var rules := AllRules(ings);
    AllRulesPlain(ings);
    GroupIsHomogeneous(rules, k);
    var i := PositionOf(Groups(rules), k);
    GatewayServes(InOrder(Groups(rules)), ir, i);
    RouteFrame(Groups(rules)[k], env);
    WantedMeans(Groups(rules)[k]);
    GroupSpeaks(rules, k);
  }

  lemma {:induction false} PositionOf(groups: map<string, RuleGroup>, k: string) returns (i: nat)
    requires k in groups
    ensures i < |InOrder(groups)| && InOrder(groups)[i] == groups[k]
  {
    var ks := SortedStrings(groups.Keys);
    assert k in multiset(ks);
    i :| 0 <= i < |ks| && ks[i] == k;
  }

  lemma {:induction false} WantedListeners(ws: seq<Wanted>, w: Wanted)
    requires w in ws
    ensures HttpListener(w) in ListenersOf(ws) && (w.certs.Some? ==> HttpsListener(w) in ListenersOf(ws))
  {
    ListenersMembers(ws);
  }

  /** Every Gateway of the result has one HTTP listener per group of its key and one HTTPS listener per group with TLS,
      and no others. */
  lemma {:induction false} GatewayListenerCount(order: seq<RuleGroup>, ir: ProviderIR, nn: NamespacedName)
    requires ByName(GatewaysByKey(order, GatewayKeys(order)), ir.gateways) && nn in ir.gateways
    ensures var key := nn.namespace + "/" + nn.name;
            var ls := ir.gateways[nn].listeners;
            && key in GatewayKeys(order)
            && |ls| == GroupsOn(order, key) + WithTls(WantedIn(order, key))
            && CountOf(ls, HTTP) == GroupsOn(order, key) && CountOf(ls, HTTPS) == WithTls(WantedIn(order, key))
            && forall l | l in ls :: (l.protocol == HTTP && l.port == 80) || (l.protocol == HTTPS && l.port == 443)
  {
    var key := nn.namespace + "/" + nn.name;
    GatewayListenersAre(order, ir, nn);
    ListenerCounts(WantedIn(order, key));
    ListenersPorts(WantedIn(order, key));
  }

  lemma {:induction false} GatewayListenersAre(order: seq<RuleGroup>, ir: ProviderIR, nn: NamespacedName)
    requires ByName(GatewaysByKey(order, GatewayKeys(order)), ir.gateways) && nn in ir.gateways
    ensures var key := nn.namespace + "/" + nn.name;
            key in GatewayKeys(order) && ir.gateways[nn].listeners == ListenersOf(WantedIn(order, key))
  {
    var g := GatewaysByKey(order, GatewayKeys(order));
    var key :| key in g && g[key].nn == nn;
    KeyOfName(key);
  }

  lemma {:induction false} KeyOfName(key: string)
    requires KeySplits(key)
    ensures key == GatewayName(key).namespace + "/" + GatewayName(key).name
  {
    JoinOfSplit(key, '/');
    var parts := Split(key, '/');
    assert parts[1..] == [parts[1]];
  }

  lemma {:induction false} ListenersPorts(ws: seq<Wanted>)
    ensures forall l | l in ListenersOf(ws) ::
              (l.protocol == HTTP && l.port == 80) || (l.protocol == HTTPS && l.port == 443)
  {
    if ws != [] {
      ListenersPorts(ws[..|ws| - 1]);
    }
  }

  /** After a successful conversion, the route of every group GetRuleGroups returns is found under its name. */
  lemma {:induction false} EveryGroupFindsItsRoute(ings: seq<Ingress>, env: Env, ir: ProviderIR, k: string)
    requires IsConversion(Groups(AllRules(ings)), AllDefaults(ings), env, ir)
    requires k in Groups(AllRules(ings))
    ensures var rg := Groups(AllRules(ings))[k]; NN(rg.namespace, RouteName(rg.name, rg.host)) in ir.routes
  {
    var groups := Groups(AllRules(ings));
    var i := PositionOf(groups, k);
    var routes := RoutesOf(groups, AllDefaults(ings), env);
    var nn := NN(groups[k].namespace, RouteName(groups[k].name, groups[k].host));
    assert routes[i] == RouteOf(InOrder(groups)[i], env);
    assert RouteNN(routes[i]) == nn;
    RouteMapIsLast(routes, nn);
    SelectMembers(routes, RouteNN, nn);
    assert routes[i] in Select(routes, RouteNN, nn);
  }
}
