/** The theorems about a whole conversion: when it succeeds, that it translates every path, that it does not depend on
    the input order across namespaces, and that its Gateways fit its routes. */
module Correctness {
  import opened Text
  import opened Kube
  import opened Collect
  import opened Grouping
  import opened Paths
  import opened Converter
  import opened Sorting
  import opened Tally
  import opened Translation

  ghost predicate ClassesSlashFree(ings: seq<Ingress>) {
    forall i | 0 <= i < |ings| :: '/' !in IngressClass(ings[i])
  }

  ghost predicate PlainKeys(rules: seq<SourcedRule>) {
    forall i | 0 <= i < |rules| :: '/' !in rules[i].ingress.namespace && '/' !in IngressClass(rules[i].ingress)
  }

  lemma {:induction false} AllRulesPlain(ings: seq<Ingress>)
    requires SlashFree(ings) && ClassesSlashFree(ings)
    ensures PlainKeys(AllRules(ings))
  {
    AllRulesFrom(ings);
    forall i | 0 <= i < |AllRules(ings)|
      ensures '/' !in AllRules(ings)[i].ingress.namespace && '/' !in IngressClass(AllRules(ings)[i].ingress)
    {
      assert AllRules(ings)[i] in AllRules(ings);
    }
  }

  lemma {:induction false} GroupIsHomogeneous(rules: seq<SourcedRule>, k: string)
    requires PlainKeys(rules) && k in Firsts(rules, RuleGroupKey)
    ensures Homogeneous(GroupForKey(rules, k)) && GroupForKey(rules, k).rules == Select(rules, RuleGroupKey, k)
    ensures '/' !in GroupForKey(rules, k).namespace && '/' !in GroupForKey(rules, k).ingressClass
  {
    var members := Select(rules, RuleGroupKey, k);
    SelectPresent(rules, k);
    SelectMembers(rules, RuleGroupKey, k);
    assert members[0] in rules && RuleGroupKey(members[0]) == k;
    forall i | 0 <= i < |members|
      ensures members[i].ingress.namespace == members[0].ingress.namespace
              && IngressClass(members[i].ingress) == IngressClass(members[0].ingress)
              && members[i].rule.host == members[0].rule.host
    {
      assert members[i] in members;
      KeyDetermines(members[i], members[0]);
    }
  }

  lemma {:induction false} PathsOfSnoc(a: seq<SourcedRule>, r: SourcedRule)
    ensures PathsOf(a + [r]) == PathsOf(a) + PathsOfRule(r)
  {
    assert (a + [r])[..|a|] == a;
  }

  lemma {:induction false} Reassociate<T>(a: seq<T>, b: seq<T>, c: seq<T>)
    ensures a + b + c == a + (b + c)
  {
  }

  lemma {:induction false} PathsOfConcat(a: seq<SourcedRule>, b: seq<SourcedRule>)
    ensures PathsOf(a + b) == PathsOf(a) + PathsOf(b)
  {
    if b == [] {
      assert a + b == a;
    } else {
      var b', r := b[..|b| - 1], b[|b| - 1];
      PathsOfConcat(a, b');
      PathsOfSnoc(a + b', r);
      assert a + b == (a + b') + [r];
      Reassociate(PathsOf(a), PathsOf(b'), PathsOfRule(r));
    }
  }

  lemma {:induction false} PathsOfLast(b: seq<SourcedRule>)
    requires b != []
    ensures multiset(PathsOf(b)) == multiset(PathsOf(b[..|b| - 1])) + multiset(PathsOfRule(b[|b| - 1]))
  {
  }

  lemma {:induction false} PathsOfWithout(b: seq<SourcedRule>, i: nat)
    requires i < |b|
    ensures multiset(PathsOf(b)) == multiset(PathsOf(Without(b, i))) + multiset(PathsOfRule(b[i]))
  {
    var n := |b| - 1;
    PathsOfLast(b);
    if i < n {
      PathsOfWithout(b[..n], i);
      PathsOfSnoc(Without(b[..n], i), b[n]);
      SwapSum(multiset(PathsOf(Without(b[..n], i))), multiset(PathsOfRule(b[i])), multiset(PathsOfRule(b[n])));
    }
  }

  lemma {:induction false} PathsOfPermutation(a: seq<SourcedRule>, b: seq<SourcedRule>)
    requires multiset(a) == multiset(b)
    ensures multiset(PathsOf(a)) == multiset(PathsOf(b))
  {
    if a == [] {
      assert |multiset(b)| == 0;
    } else {
      var i := MatchLast(a, b);
      PathsOfPermutation(a[..|a| - 1], Without(b, i));
      PathsOfWithout(b, i);
    }
  }

  // ---- totals over the groups ----

  ghost predicate GroupsInOrder(rules: seq<SourcedRule>, ks: seq<string>, order: seq<RuleGroup>) {
    && |order| == |ks|
    && forall i | 0 <= i < |ks| :: ks[i] in Firsts(rules, RuleGroupKey) && order[i] == GroupForKey(rules, ks[i])
  }

  /** The routes of some groups convert without error iff these paths translate, and then say just what they ask for. */
  ghost predicate RoutesSay(order: seq<RuleGroup>, paths: seq<SourcedPath>, env: Env) {
    && AllPaired(GroupRoutes(order, env))
    && (GroupErrors(order, env) == [] <==> AllTranslatable(paths, env))
    && (AllTranslatable(paths, env) ==> Total(Entries(GroupRoutes(order, env))) == TargetsOf(paths, env))
  }

  lemma {:induction false} RoutesSayMore(order: seq<RuleGroup>, i: nat, paths: seq<SourcedPath>, env: Env)
    requires i < |order| && Homogeneous(order[i])
    requires RoutesSay(order[..i], paths, env)
    ensures RoutesSay(order[..i + 1], paths + PathsOf(order[i].rules), env)
  {
    var rg := order[i];
    var last := PathsOf(rg.rules);
    GroupTranslation(rg, env);
    OneMoreGroup(order, i, env);
    AllTranslatableConcat(paths, last, env);
    TotalSnoc(GroupRoutes(order[..i], env), RouteOf(rg, env));
    if AllTranslatable(paths + last, env) {
      TargetsConcat(paths, last, env);
    }
  }

  lemma {:induction false} GroupTotals(rules: seq<SourcedRule>, ks: seq<string>, order: seq<RuleGroup>, env: Env)
    requires PlainKeys(rules) && GroupsInOrder(rules, ks, order)
    ensures RoutesSay(order, PathsOf(Gather(rules, RuleGroupKey, ks)), env)
  {
    if ks == [] {
      assert GroupRoutes(order, env) == [];
    } else {
      var n := |ks| - 1;
      GroupTotals(rules, ks[..n], order[..n], env);
      GroupIsHomogeneous(rules, ks[n]);
      RoutesSayMore(order, n, PathsOf(Gather(rules, RuleGroupKey, ks[..n])), env);
      PathsOfConcat(Gather(rules, RuleGroupKey, ks[..n]), Select(rules, RuleGroupKey, ks[n]));
      assert order[..n + 1] == order;
    }
  }

  lemma {:induction false} TotalSnoc(routes: seq<RouteContext>, c: RouteContext)
    requires AllPaired(routes) && Paired(c.route.rules, c.sources)
    ensures AllPaired(routes + [c])
    ensures Total(Entries(routes + [c])) == Total(Entries(routes)) + ReadRoute(c)
  {
    var es := Entries(routes + [c]);
    assert es == Entries(routes) + [Entry(c.route.nn, ReadRoute(c))];
    assert es[..|es| - 1] == Entries(routes);
  }

  lemma {:induction false} DefaultRouteReads(db: DefaultBackend, env: Env)
    requires DefaultErrors(db, env) == []
    ensures var c := DefaultRoute(db, env);
            Paired(c.route.rules, c.sources) && ReadRoute(c) == multiset{DefaultTarget(db, env)}
  {
    var c := DefaultRoute(db, env);
    var t := Frame(c.route);
    assert c.route.rules[..0] == [] && c.sources[..0] == [];
    assert ReadRules(t, c.route.rules, c.sources) == ReadRefs(t, c.route.rules[0].backendRefs, c.sources[0]);
    assert c.route.rules[0].backendRefs[..0] == [] && c.sources[0][..0] == [];
  }

  lemma {:induction false} DefaultsSnoc(routes: seq<RouteContext>, dbs: seq<DefaultBackend>, env: Env)
    requires dbs != []
    ensures var n := |dbs| - 1;
            routes + DefaultRoutes(dbs, env) == (routes + DefaultRoutes(dbs[..n], env)) + [DefaultRoute(dbs[n], env)]
  {
  }

  lemma {:induction false} DefaultTotals(routes: seq<RouteContext>, dbs: seq<DefaultBackend>, env: Env)
    requires AllPaired(routes) && AllDefaultErrors(dbs, env) == []
    ensures AllPaired(routes + DefaultRoutes(dbs, env))
    ensures Total(Entries(routes + DefaultRoutes(dbs, env))) == Total(Entries(routes)) + DefaultTargets(dbs, env)
  {
    if dbs == [] {
      assert routes + DefaultRoutes(dbs, env) == routes;
    } else {
      var n := |dbs| - 1;
      DefaultTotals(routes, dbs[..n], env);
      DefaultRouteReads(dbs[n], env);
      DefaultsSnoc(routes, dbs, env);
      TotalSnoc(routes + DefaultRoutes(dbs[..n], env), DefaultRoute(dbs[n], env));
    }
  }

  lemma {:induction false} SortedKeysOfGroups(rules: seq<SourcedRule>)
    ensures var ks := SortedStrings(Groups(rules).Keys);
            && GroupsInOrder(rules, ks, InOrder(Groups(rules)))
            && Distinct(ks)
            && multiset(Gather(rules, RuleGroupKey, ks)) == multiset(rules)
  {
    GroupsAreInOrder(rules);
    KeysGatherAll(rules, Groups(rules).Keys);
  }

  lemma {:induction false} GroupsAreInOrder(rules: seq<SourcedRule>)
    ensures GroupsInOrder(rules, SortedStrings(Groups(rules).Keys), InOrder(Groups(rules)))
  {
    SortedStringsDistinct(Groups(rules).Keys);
  }

  lemma {:induction false} KeysGatherAll(rules: seq<SourcedRule>, keys: set<string>)
    requires forall k :: k in keys <==> k in Firsts(rules, RuleGroupKey)
    ensures Distinct(SortedStrings(keys))
    ensures multiset(Gather(rules, RuleGroupKey, SortedStrings(keys))) == multiset(rules)
  {
    var ks := SortedStrings(keys);
    SortedStringsDistinct(keys);
    FirstsFacts(rules, RuleGroupKey);
    forall i | 0 <= i < |rules| ensures RuleGroupKey(rules[i]) in ks {
      assert RuleGroupKey(rules[i]) in Firsts(rules, RuleGroupKey);
    }
    GroupsPartition(rules, RuleGroupKey, ks);
  }

  lemma {:induction false} SortedStringsDistinct(keys: set<string>)
    ensures Distinct(SortedStrings(keys)) && forall k :: k in SortedStrings(keys) <==> k in keys
  {
    var ks := SortedStrings(keys);
    forall k ensures k in ks <==> k in keys {
      assert k in ks <==> k in multiset(ks);
    }
    forall i, j | 0 <= i < j < |ks| ensures ks[i] != ks[j] {
      if ks[i] == ks[j] {
        Twice(ks, i, j);
      }
    }
  }

  lemma {:induction false} GatewayKeysSplit(rules: seq<SourcedRule>)
    requires PlainKeys(rules)
    ensures AllKeysSplit(GatewayKeys(InOrder(Groups(rules))))
  {
    var order := InOrder(Groups(rules));
    forall key | key in GatewayKeys(order) ensures KeySplits(key) {
      var i :| 0 <= i < |order| && GatewayKey(order[i]) == key;
      SortedKeysOfGroups(rules);
      GroupIsHomogeneous(rules, SortedStrings(Groups(rules).Keys)[i]);
      SplitOfJoin(order[i].namespace, order[i].ingressClass, '/');
    }
  }

  // ---- the theorems ----

  ghost predicate DefaultsResolve(dbs: seq<DefaultBackend>, env: Env) {
    forall i | 0 <= i < |dbs| :: ToBackendRef(dbs[i].namespace, dbs[i].backend, env.servicePorts).Ok?
  }

  lemma {:induction false} NoDefaultErrors(dbs: seq<DefaultBackend>, env: Env)
    ensures AllDefaultErrors(dbs, env) == [] <==> DefaultsResolve(dbs, env)
  {
    if dbs != [] {
      var t, db := dbs[..|dbs| - 1], dbs[|dbs| - 1];
      NoDefaultErrors(t, env);
      assert DefaultErrors(db, env) == [] <==> ToBackendRef(db.namespace, db.backend, env.servicePorts).Ok?;
      assert AllDefaultErrors(dbs, env) == [] <==> AllDefaultErrors(t, env) == [] && DefaultErrors(db, env) == [];
      assert DefaultsResolve(dbs, env) ==> DefaultsResolve(t, env);
    }
  }

  /** With slash-free namespaces and classes, a conversion succeeds iff every path and every default backend
      translates. */
  lemma {:induction false} ConversionSucceedsIff(ings: seq<Ingress>, env: Env)
    requires SlashFree(ings) && ClassesSlashFree(ings)
    ensures Converts(Groups(AllRules(ings)), AllDefaults(ings), env) <==>
            AllTranslatable(PathsOf(AllRules(ings)), env) && DefaultsResolve(AllDefaults(ings), env)
  {
    var rules := AllRules(ings);
    var ks := SortedStrings(Groups(rules).Keys);
    AllRulesPlain(ings);
    SortedKeysOfGroups(rules);
    GroupTotals(rules, ks, InOrder(Groups(rules)), env);
    PathsOfPermutation(Gather(rules, RuleGroupKey, ks), rules);
    AllTranslatableOfPermutation(PathsOf(Gather(rules, RuleGroupKey, ks)), PathsOf(rules), env);
    GatewayKeysSplit(rules);
    NoDefaultErrors(AllDefaults(ings), env);
  }

  /** Translation correctness: read back from the emitted routes, the conversion says nothing the Ingresses did not ask
      for; and it says all of it iff no route name collision hides a route that has backends. */
  lemma {:induction false} TranslationCorrect(ings: seq<Ingress>, env: Env, ir: ProviderIR)
    requires SlashFree(ings) && ClassesSlashFree(ings)
    requires Converts(Groups(AllRules(ings)), AllDefaults(ings), env)
    requires IsConversion(Groups(AllRules(ings)), AllDefaults(ings), env, ir)
    ensures MapPaired(ir.routes) && AllTranslatable(PathsOf(AllRules(ings)), env)
    ensures var asked := TargetsOf(PathsOf(AllRules(ings)), env) + DefaultTargets(AllDefaults(ings), env);
            && ReadMap(ir.routes) <= asked
            && (ReadMap(ir.routes) == asked <==>
                NothingHidden(RoutesOf(Groups(AllRules(ings)), AllDefaults(ings), env)))
  {
    var rules, dbs := AllRules(ings), AllDefaults(ings);
    var ks, order := SortedStrings(Groups(rules).Keys), InOrder(Groups(rules));
    ConversionSucceedsIff(ings, env);
    AllRulesPlain(ings);
    SortedKeysOfGroups(rules);
    GroupTotals(rules, ks, order, env);
    PathsOfPermutation(Gather(rules, RuleGroupKey, ks), rules);
    AllTranslatableOfPermutation(PathsOf(Gather(rules, RuleGroupKey, ks)), PathsOf(rules), env);
    TargetsOfPermutation(PathsOf(Gather(rules, RuleGroupKey, ks)), PathsOf(rules), env);
    DefaultTotals(GroupRoutes(order, env), dbs, env);
    MapAgainstList(RoutesOf(Groups(rules), dbs, env));
  }
}
