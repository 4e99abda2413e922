/** Ingress rules grouped by namespace, class and host: the aggregator of the conversion, the separate grouping
    the feature parsers use, and the storage order both read from. */
module Grouping {
  import opened Text
  import opened Kube
  import opened Collect
  import Sorting

  datatype SourcedRule = SourcedRule(ingress: Ingress, rule: IngressRule)

  datatype RuleGroup = RuleGroup(
    namespace: string,
    name: string,
    ingressClass: string,
    host: string,
    tls: seq<IngressTLS>,
    rules: seq<SourcedRule>)

  function RuleGroupKey(r: SourcedRule): string {
    r.ingress.namespace + "/" + IngressClass(r.ingress) + "/" + r.rule.host
  }

  function RuleNamespace(r: SourcedRule): string { r.ingress.namespace }
  function IngressNamespace(ing: Ingress): string { ing.namespace }

  function RulesOf(ing: Ingress): (r: seq<SourcedRule>)
    ensures |r| == |ing.rules|
    ensures forall i | 0 <= i < |r| :: r[i] == SourcedRule(ing, ing.rules[i])
  {
    seq(|ing.rules|, i requires 0 <= i < |ing.rules| => SourcedRule(ing, ing.rules[i]))
  }

  /** Every rule of every Ingress, in reading order. */
  function AllRules(ings: seq<Ingress>): seq<SourcedRule> {
    if ings == [] then [] else AllRules(ings[..|ings| - 1]) + RulesOf(ings[|ings| - 1])
  }

  function TlsOf(rules: seq<SourcedRule>): seq<IngressTLS> {
    if rules == [] then [] else TlsOf(rules[..|rules| - 1]) + rules[|rules| - 1].ingress.tls
  }

  /** A group carries the identity of its first rule, and the TLS entries and rules of all its members in order. */
  function GroupOf(members: seq<SourcedRule>): RuleGroup
    requires members != []
  {
    var first := members[0];
    RuleGroup(first.ingress.namespace, first.ingress.name, IngressClass(first.ingress), first.rule.host,
              TlsOf(members), members)
  }

  ghost function Groups(rules: seq<SourcedRule>): map<string, RuleGroup> {
    map k | k in Firsts(rules, RuleGroupKey) :: GroupForKey(rules, k)
  }

  ghost function GroupForKey(rules: seq<SourcedRule>, k: string): RuleGroup
    requires k in Firsts(rules, RuleGroupKey)
  {
    SelectPresent(rules, k);
    GroupOf(Select(rules, RuleGroupKey, k))
  }

  lemma {:induction false} SelectPresent(rules: seq<SourcedRule>, k: string)
    requires k in Firsts(rules, RuleGroupKey)
    ensures Select(rules, RuleGroupKey, k) != []
  {
    FirstsFacts(rules, RuleGroupKey);
    SelectMembers(rules, RuleGroupKey, k);
    var i :| 0 <= i < |rules| && RuleGroupKey(rules[i]) == k;
    assert rules[i] in Select(rules, RuleGroupKey, k);
  }

  /** How one more rule changes the groups. */
  ghost function AddRule(groups: map<string, RuleGroup>, r: SourcedRule): map<string, RuleGroup> {
    var k := RuleGroupKey(r);
    var rg := if k in groups then groups[k]
              else RuleGroup(r.ingress.namespace, r.ingress.name, IngressClass(r.ingress), r.rule.host, [], []);
    groups[k := rg.(tls := rg.tls + r.ingress.tls, rules := rg.rules + [r])]
  }

  lemma {:induction false} GroupsExtend(rules: seq<SourcedRule>, r: SourcedRule)
    ensures Groups(rules + [r]) == AddRule(Groups(rules), r)
  {
    var k := RuleGroupKey(r);
    FirstsSnoc(rules, r, RuleGroupKey);
    GroupExtends(rules, r);
    forall j | j in Firsts(rules, RuleGroupKey) && j != k
      ensures j in Firsts(rules + [r], RuleGroupKey) && GroupForKey(rules + [r], j) == GroupForKey(rules, j)
    {
      OtherGroupStays(rules, r, j);
    }
    GroupsFrom(rules, r, rules + [r]);
  }

  /** The groups of `more` follow from its keys and the group of each key. */
  lemma {:induction false} GroupsFrom(rules: seq<SourcedRule>, r: SourcedRule, more: seq<SourcedRule>)
    requires forall j :: j in Firsts(more, RuleGroupKey) <==> j in Firsts(rules, RuleGroupKey) || j == RuleGroupKey(r)
    requires GroupForKey(more, RuleGroupKey(r)) == AddRule(Groups(rules), r)[RuleGroupKey(r)]
    requires forall j | j in Firsts(rules, RuleGroupKey) && j != RuleGroupKey(r) ::
               GroupForKey(more, j) == GroupForKey(rules, j)
    ensures Groups(more) == AddRule(Groups(rules), r)
  {
    OneGroupChanged(Groups(rules), r, Groups(more));
  }

  lemma {:induction false} OneGroupChanged(before: map<string, RuleGroup>, r: SourcedRule,
          after: map<string, RuleGroup>)
    requires forall j :: j in after <==> j in before || j == RuleGroupKey(r)
    requires after[RuleGroupKey(r)] == AddRule(before, r)[RuleGroupKey(r)]
    requires forall j | j in before && j != RuleGroupKey(r) :: after[j] == before[j]
    ensures after == AddRule(before, r)
  {
    var added := AddRule(before, r);
    forall j ensures j in after <==> j in added {}
    forall j | j in after ensures after[j] == added[j] {}
  }

  lemma {:induction false} OtherGroupStays(rules: seq<SourcedRule>, r: SourcedRule, j: string)
    requires j in Firsts(rules, RuleGroupKey) && j in Firsts(rules + [r], RuleGroupKey) && j != RuleGroupKey(r)
    ensures GroupForKey(rules + [r], j) == GroupForKey(rules, j)
  {
    SelectSnoc(rules, r, RuleGroupKey, j);
  }

  /** The group a new rule joins. */
  lemma {:induction false} GroupExtends(rules: seq<SourcedRule>, r: SourcedRule)
    requires RuleGroupKey(r) in Firsts(rules + [r], RuleGroupKey)
    ensures GroupForKey(rules + [r], RuleGroupKey(r)) == AddRule(Groups(rules), r)[RuleGroupKey(r)]
  {
    var k := RuleGroupKey(r);
    var had := Select(rules, RuleGroupKey, k);
    SelectSnoc(rules, r, RuleGroupKey, k);
    TlsSnoc(had, r);
    if k in Firsts(rules, RuleGroupKey) {
      SelectPresent(rules, k);
    } else {
      SelectAbsent(rules, RuleGroupKey, k);
      assert had == [] && TlsOf(had) == [];
    }
  }

  lemma {:induction false} TlsSnoc(members: seq<SourcedRule>, r: SourcedRule)
    ensures TlsOf(members + [r]) == TlsOf(members) + r.ingress.tls
  {
    assert (members + [r])[..|members|] == members;
  }

  datatype DefaultBackend = DefaultBackend(
    name: string,
    namespace: string,
    ingressClass: string,
    backend: IngressBackend,
    source: Ingress)

  function DefaultOf(ing: Ingress): seq<DefaultBackend> {
    if ing.defaultBackend.None? then []
    else [DefaultBackend(ing.name, ing.namespace, IngressClass(ing), ing.defaultBackend.value, ing)]
  }

  function AllDefaults(ings: seq<Ingress>): seq<DefaultBackend> {
    if ings == [] then [] else AllDefaults(ings[..|ings| - 1]) + DefaultOf(ings[|ings| - 1])
  }

  /** ingressAggregator */
  class IngressAggregator {
    var ruleGroups: map<string, RuleGroup>
    var defaultBackends: seq<DefaultBackend>
    const servicePorts: ServicePorts
    ghost var seen: seq<SourcedRule>  // the rules added so far

    ghost predicate Valid()
      reads this
    {
      ruleGroups == Groups(seen)
    }

    constructor (servicePorts: ServicePorts)
      ensures Valid() && seen == [] && defaultBackends == [] && this.servicePorts == servicePorts
    {
      this.servicePorts := servicePorts;
      ruleGroups, defaultBackends, seen := map[], [], [];
    }

    method AddIngressRule(ing: Ingress, ingressClass: string, rule: IngressRule)
      requires Valid() && ingressClass == IngressClass(ing)
      modifies this`ruleGroups, this`seen
      ensures Valid() && seen == old(seen) + [SourcedRule(ing, rule)]
    {
      var rgKey := ing.namespace + "/" + ingressClass + "/" + rule.host;
      var rg;
      if rgKey in ruleGroups {
        rg := ruleGroups[rgKey];
      } else {
        rg := RuleGroup(ing.namespace, ing.name, ingressClass, rule.host, [], []);
      }
      if |ing.tls| > 0 {
        rg := rg.(tls := rg.tls + ing.tls);
      }
      rg := rg.(rules := rg.rules + [SourcedRule(ing, rule)]);
      ruleGroups := ruleGroups[rgKey := rg];
      GroupsExtend(seen, SourcedRule(ing, rule));
      seen := seen + [SourcedRule(ing, rule)];
      assert ing.tls == [] ==> forall t: seq<IngressTLS> :: t + ing.tls == t;
    }

    method AddIngress(ing: Ingress)
      requires Valid()
      modifies this
      ensures Valid()
      ensures seen == old(seen) + RulesOf(ing)
      ensures defaultBackends == old(defaultBackends) + DefaultOf(ing)
    {
      var ingressClass := IngressClass(ing);
      for i := 0 to |ing.rules|
        invariant Valid() && seen == old(seen) + RulesOf(ing)[..i]
        invariant defaultBackends == old(defaultBackends)
      {
        AddIngressRule(ing, ingressClass, ing.rules[i]);
        assert RulesOf(ing)[..i + 1] == RulesOf(ing)[..i] + [SourcedRule(ing, ing.rules[i])];
      }
      assert RulesOf(ing)[..|ing.rules|] == RulesOf(ing);
      if ing.defaultBackend.Some? {
        defaultBackends := defaultBackends +
          [DefaultBackend(ing.name, ing.namespace, ingressClass, ing.defaultBackend.value, ing)];
      }
    }

    method AddAll(ings: seq<Ingress>)
      requires Valid() && seen == [] && defaultBackends == []
      modifies this
      ensures ruleGroups == Groups(AllRules(ings))
      ensures defaultBackends == AllDefaults(ings)
    {
      for i := 0 to |ings|
        invariant Valid() && seen == AllRules(ings[..i]) && defaultBackends == AllDefaults(ings[..i])
      {
        AddIngress(ings[i]);
        assert ings[..i + 1][..i] == ings[..i];
      }
      assert ings[..|ings|] == ings;
    }
  }

  /** GetRuleGroups: the same grouping, written separately for the feature parsers. */
  method GetRuleGroups(ings: seq<Ingress>) returns (ruleGroups: map<string, RuleGroup>)
    ensures ruleGroups == Groups(AllRules(ings))
  {
    ruleGroups := map[];
    ghost var seen: seq<SourcedRule> := [];
    for i := 0 to |ings|
      invariant seen == AllRules(ings[..i]) && ruleGroups == Groups(seen)
    {
      ruleGroups := GroupIngress(ruleGroups, seen, ings[i]);
      seen := seen + RulesOf(ings[i]);
      assert ings[..i + 1][..i] == ings[..i];
    }
    assert ings[..|ings|] == ings;
  }

  lemma {:induction false} OneMoreOf(seen: seq<SourcedRule>, rules: seq<SourcedRule>, j: nat)
    requires j < |rules|
    ensures seen + rules[..j] + [rules[j]] == seen + rules[..j + 1]
  {
  }

  /** GetRuleGroups, inner loop: look the group up or start it, extend the copy, store it back. */
  method GroupIngress(before: map<string, RuleGroup>, ghost seen: seq<SourcedRule>, ing: Ingress)
    returns (ruleGroups: map<string, RuleGroup>)
    requires before == Groups(seen)
    ensures ruleGroups == Groups(seen + RulesOf(ing))
  {
    var ingressClass := IngressClass(ing);
    ruleGroups := before;
    ghost var now := seen;
    for j := 0 to |ing.rules|
      invariant now == seen + RulesOf(ing)[..j] && ruleGroups == Groups(now)
    {
      var rule := ing.rules[j];
      var rgKey := ing.namespace + "/" + ingressClass + "/" + rule.host;
      var rg;
      if rgKey in ruleGroups {
        rg := ruleGroups[rgKey];
      } else {
        rg := RuleGroup(ing.namespace, ing.name, ingressClass, rule.host, [], []);
      }
      rg := rg.(tls := rg.tls + ing.tls, rules := rg.rules + [SourcedRule(ing, rule)]);
      ruleGroups := ruleGroups[rgKey := rg];
      GroupsExtend(now, SourcedRule(ing, rule));
      OneMoreOf(seen, RulesOf(ing), j);
      now := now + [SourcedRule(ing, rule)];
    }
    assert RulesOf(ing)[..|ing.rules|] == RulesOf(ing);
  }

  // ---- what a key stands for ----

  ghost predicate SlashFree(ings: seq<Ingress>) {
    forall i | 0 <= i < |ings| :: '/' !in ings[i].namespace
  }

  ghost predicate RulesSlashFree(rules: seq<SourcedRule>) {
    forall i | 0 <= i < |rules| :: '/' !in rules[i].ingress.namespace
  }

  lemma {:induction false} AllRulesFrom(ings: seq<Ingress>)
    ensures forall r :: r in AllRules(ings) <==> r.ingress in ings && r.rule in r.ingress.rules
  {
    if ings != [] {
      var t, x := ings[..|ings| - 1], ings[|ings| - 1];
      AllRulesFrom(t);
      assert ings == t + [x];
      forall r ensures r in RulesOf(x) <==> r.ingress == x && r.rule in x.rules {
        if r.ingress == x && r.rule in x.rules {
          var i :| 0 <= i < |x.rules| && x.rules[i] == r.rule;
          assert RulesOf(x)[i] == r;
        }
      }
    }
  }

  lemma {:induction false} AllRulesSlashFree(ings: seq<Ingress>)
    requires SlashFree(ings)
    ensures RulesSlashFree(AllRules(ings))
  {
    AllRulesFrom(ings);
    forall i | 0 <= i < |AllRules(ings)| ensures '/' !in AllRules(ings)[i].ingress.namespace {
      assert AllRules(ings)[i] in AllRules(ings);
    }
  }

  /** With no slash in a namespace, equal keys mean equal namespaces; with none in a class, equal classes and hosts
      too. */
  lemma {:induction false} KeyDetermines(a: SourcedRule, b: SourcedRule)
    requires '/' !in a.ingress.namespace && '/' !in b.ingress.namespace
    requires RuleGroupKey(a) == RuleGroupKey(b)
    ensures a.ingress.namespace == b.ingress.namespace
    ensures '/' !in IngressClass(a.ingress) && '/' !in IngressClass(b.ingress) ==>
              IngressClass(a.ingress) == IngressClass(b.ingress) && a.rule.host == b.rule.host
  {
    var restA, restB := IngressClass(a.ingress) + "/" + a.rule.host, IngressClass(b.ingress) + "/" + b.rule.host;
    assert RuleGroupKey(a) == a.ingress.namespace + "/" + restA;
    assert RuleGroupKey(b) == b.ingress.namespace + "/" + restB;
    JoinIsInjective(a.ingress.namespace, restA, b.ingress.namespace, restB, '/');
    if '/' !in IngressClass(a.ingress) && '/' !in IngressClass(b.ingress) {
      JoinIsInjective(IngressClass(a.ingress), a.rule.host, IngressClass(b.ingress), b.rule.host, '/');
    }
  }

  // ---- determinism ----

  /** Two Ingress orders that may differ only in how namespaces interleave. */
  ghost predicate AgreeWithinNamespaces(a: seq<Ingress>, b: seq<Ingress>) {
    forall ns :: Select(a, IngressNamespace, ns) == Select(b, IngressNamespace, ns)
  }

  lemma {:induction false} AllRulesOfNamespace(ings: seq<Ingress>, ns: string)
    ensures AllRules(Select(ings, IngressNamespace, ns)) == Select(AllRules(ings), RuleNamespace, ns)
  {
    if ings != [] {
      var t, x := ings[..|ings| - 1], ings[|ings| - 1];
      AllRulesOfNamespace(t, ns);
      SelectConcat(AllRules(t), RulesOf(x), RuleNamespace, ns);
      SelectOfOne(RulesOf(x), x, ns);
      AllRulesSnoc(Select(t, IngressNamespace, ns), x);
    }
  }

  lemma {:induction false} AllRulesSnoc(ings: seq<Ingress>, x: Ingress)
    ensures AllRules(ings + [x]) == AllRules(ings) + RulesOf(x)
    ensures AllRules(ings + []) == AllRules(ings) + []
  {
    assert (ings + [x])[..|ings|] == ings && ings + [] == ings;
  }

  lemma {:induction false} SelectOfOne(rules: seq<SourcedRule>, ing: Ingress, ns: string)
    requires forall i | 0 <= i < |rules| :: rules[i].ingress == ing
    ensures Select(rules, RuleNamespace, ns) == if ing.namespace == ns then rules else []
  {
    if rules != [] {
      SelectOfOne(rules[..|rules| - 1], ing, ns);
      assert rules == rules[..|rules| - 1] + [rules[|rules| - 1]];
    }
  }

  lemma {:induction false} SelectByKeyAgrees(a: seq<Ingress>, b: seq<Ingress>, r: SourcedRule)
    requires SlashFree(a) && SlashFree(b) && AgreeWithinNamespaces(a, b)
    requires '/' !in r.ingress.namespace
    ensures var k := RuleGroupKey(r); Select(AllRules(a), RuleGroupKey, k) == Select(AllRules(b), RuleGroupKey, k)
  {
    var k, ns := RuleGroupKey(r), r.ingress.namespace;
    SelectKeyWithinNamespace(a, r);
    SelectKeyWithinNamespace(b, r);
    AllRulesOfNamespace(a, ns);
    AllRulesOfNamespace(b, ns);
  }

  lemma {:induction false} SelectKeyWithinNamespace(ings: seq<Ingress>, r: SourcedRule)
    requires SlashFree(ings) && '/' !in r.ingress.namespace
    ensures var k := RuleGroupKey(r);
            Select(Select(AllRules(ings), RuleNamespace, r.ingress.namespace), RuleGroupKey, k)
            == Select(AllRules(ings), RuleGroupKey, k)
  {
    var rules := AllRules(ings);
    AllRulesSlashFree(ings);
    forall i | 0 <= i < |rules| && RuleGroupKey(rules[i]) == RuleGroupKey(r)
      ensures RuleNamespace(rules[i]) == r.ingress.namespace
    {
      KeyDetermines(rules[i], r);
    }
    SelectWithin(rules, RuleNamespace, r.ingress.namespace, RuleGroupKey, RuleGroupKey(r));
  }

  lemma {:induction false} KeysAgree(a: seq<Ingress>, b: seq<Ingress>, k: string)
    requires SlashFree(a) && SlashFree(b) && AgreeWithinNamespaces(a, b)
    requires k in Firsts(AllRules(a), RuleGroupKey)
    ensures k in Firsts(AllRules(b), RuleGroupKey)
    ensures Select(AllRules(a), RuleGroupKey, k) == Select(AllRules(b), RuleGroupKey, k)
  {
    FirstsFacts(AllRules(a), RuleGroupKey);
    var i :| 0 <= i < |AllRules(a)| && RuleGroupKey(AllRules(a)[i]) == k;
    var r := AllRules(a)[i];
    AllRulesSlashFree(a);
    SelectByKeyAgrees(a, b, r);
    SelectMembers(AllRules(a), RuleGroupKey, k);
    SelectMembers(AllRules(b), RuleGroupKey, k);
    FirstsFacts(AllRules(b), RuleGroupKey);
    assert r in Select(AllRules(b), RuleGroupKey, k);
    assert r in AllRules(b);
  }

  /** The rule groups do not depend on how namespaces interleave in the input. */
  lemma {:induction false} GroupsDeterministic(a: seq<Ingress>, b: seq<Ingress>)
    requires SlashFree(a) && SlashFree(b) && AgreeWithinNamespaces(a, b)
    ensures Groups(AllRules(a)) == Groups(AllRules(b))
  {
    forall k | k in Firsts(AllRules(a), RuleGroupKey)
      ensures k in Firsts(AllRules(b), RuleGroupKey) && GroupForKey(AllRules(a), k) == GroupForKey(AllRules(b), k)
    {
      KeysAgree(a, b, k);
    }
    forall k | k in Firsts(AllRules(b), RuleGroupKey) ensures k in Firsts(AllRules(a), RuleGroupKey) {
      KeysAgree(b, a, k);
    }
    assert Groups(AllRules(a)).Keys == Groups(AllRules(b)).Keys;
  }

  // ---- storage ----

  predicate NameBefore(a: NamespacedName, b: NamespacedName) { Less(a.name, b.name) }

  lemma {:induction false} NameBeforeIsStrictWeak()
    ensures Sorting.StrictWeak(NameBefore)
  {
    forall x: NamespacedName, y: NamespacedName ensures !(NameBefore(x, y) && NameBefore(y, x)) {
      LessIsTotal(x.name, y.name);
    }
    forall x: NamespacedName, y: NamespacedName, z: NamespacedName | !NameBefore(y, x) && !NameBefore(z, y)
      ensures !NameBefore(z, x)
    {
      LessIsTransitive(x.name, y.name, z.name);
    }
  }

  /** OrderedIngressMap */
  class OrderedIngressMap {
    var ingressNames: seq<NamespacedName>
    var ingressObjects: map<NamespacedName, Ingress>

    constructor ()
      ensures ingressNames == [] && ingressObjects == map[]
    {
      ingressNames, ingressObjects := [], map[];
    }

    /** The names come out in some order of the map sorted by name alone, so equal names in two namespaces are free. */
    method FromMap(ingresses: map<NamespacedName, Ingress>)
      modifies this
      ensures ingressObjects == ingresses && NamesOf(ingresses, ingressNames)
    {
      var ingNames := [];
      var todo := ingresses.Keys;
      while todo != {}
        invariant todo <= ingresses.Keys
        invariant multiset(ingNames) + multiset(todo) == multiset(ingresses.Keys)
        decreases |todo|
      {
        var ing :| ing in todo;
        ingNames := ingNames + [ing];
        todo := todo - {ing};
      }
      NameBeforeIsStrictWeak();
      ingNames := Sorting.SortSlice(NameBefore, ingNames);
      ingressNames := ingNames;
      ingressObjects := ingresses;
    }

    method List() returns (ingressList: seq<Ingress>)
      requires forall nn | nn in ingressNames :: nn in ingressObjects
      ensures ingressList == Listed(ingressObjects, ingressNames)
    {
      ingressList := [];
      for i := 0 to |ingressNames|
        invariant ingressList == Listed(ingressObjects, ingressNames[..i])
      {
        ingressList := ingressList + [ingressObjects[ingressNames[i]]];
        assert ingressNames[..i + 1][..i] == ingressNames[..i];
      }
      assert ingressNames[..|ingressNames|] == ingressNames;
    }
  }

  ghost predicate NamesOf(ingresses: map<NamespacedName, Ingress>, names: seq<NamespacedName>) {
    multiset(names) == multiset(ingresses.Keys) && Sorting.Ordered(NameBefore, names)
  }

  function Listed(ingresses: map<NamespacedName, Ingress>, names: seq<NamespacedName>): seq<Ingress>
    requires forall nn | nn in names :: nn in ingresses
  {
    if names == [] then []
    else Listed(ingresses, names[..|names| - 1]) + [ingresses[names[|names| - 1]]]
  }

  function NameNamespace(nn: NamespacedName): string { nn.namespace }

  /** The reader keys every Ingress by its own namespace and name. */
  ghost predicate WellKeyed(ingresses: map<NamespacedName, Ingress>) {
    forall nn | nn in ingresses :: ingresses[nn].namespace == nn.namespace && ingresses[nn].name == nn.name
  }

  lemma {:induction false} NamesAreKeys(ingresses: map<NamespacedName, Ingress>, names: seq<NamespacedName>)
    requires NamesOf(ingresses, names)
    ensures forall nn :: nn in names <==> nn in ingresses
  {
    forall nn ensures nn in names <==> nn in ingresses {
      assert nn in names <==> nn in multiset(names);
      assert nn in multiset(ingresses.Keys) <==> nn in ingresses.Keys;
    }
  }

  lemma {:induction false} ListedInNamespace(ingresses: map<NamespacedName, Ingress>, names: seq<NamespacedName>,
          ns: string)
    requires WellKeyed(ingresses) && forall nn | nn in names :: nn in ingresses
    ensures forall nn | nn in Select(names, NameNamespace, ns) :: nn in ingresses
    ensures Select(Listed(ingresses, names), IngressNamespace, ns) ==
              Listed(ingresses, Select(names, NameNamespace, ns))
  {
    SelectMembers(names, NameNamespace, ns);
    if names != [] {
      var t, x := names[..|names| - 1], names[|names| - 1];
      ListedInNamespace(ingresses, t, ns);
      SelectSnoc(Listed(ingresses, t), ingresses[x], IngressNamespace, ns);
      assert Listed(ingresses, names) == Listed(ingresses, t) + [ingresses[x]];
      var st := Select(t, NameNamespace, ns);
      assert (st + [x])[..|st|] == st && st + [] == st;
      assert Listed(ingresses, st) + [] == Listed(ingresses, st);
    }
  }

  /** Sorting by name leaves cross-namespace ties open, yet fixes the order inside every namespace. */
  lemma {:induction false} ListingsAgree(ingresses: map<NamespacedName, Ingress>, a: seq<NamespacedName>,
          b: seq<NamespacedName>)
    requires WellKeyed(ingresses) && NamesOf(ingresses, a) && NamesOf(ingresses, b)
    ensures forall nn | nn in a || nn in b :: nn in ingresses
    ensures AgreeWithinNamespaces(Listed(ingresses, a), Listed(ingresses, b))
  {
    NamesAreKeys(ingresses, a);
    NamesAreKeys(ingresses, b);
    forall ns
      ensures Select(Listed(ingresses, a), IngressNamespace, ns) == Select(Listed(ingresses, b), IngressNamespace, ns)
    {
      ListedInNamespace(ingresses, a, ns);
      ListedInNamespace(ingresses, b, ns);
      NamesAgree(a, b, ns);
    }
  }

  lemma {:induction false} NamesAgree(a: seq<NamespacedName>, b: seq<NamespacedName>, ns: string)
    requires multiset(a) == multiset(b) && Sorting.Ordered(NameBefore, a) && Sorting.Ordered(NameBefore, b)
    ensures Select(a, NameNamespace, ns) == Select(b, NameNamespace, ns)
  {
    var sa, sb := Select(a, NameNamespace, ns), Select(b, NameNamespace, ns);
    var rel := (x: NamespacedName, y: NamespacedName) => !NameBefore(y, x);
    assert Pairwise(a, rel) && Pairwise(b, rel);
    SelectKeepsOrder(a, NameNamespace, ns, rel);
    SelectKeepsOrder(b, NameNamespace, ns, rel);
    SelectMultiset(a, b, NameNamespace, ns);
    SelectMembers(a, NameNamespace, ns);
    assert Sorting.Ordered(NameBefore, sa) by {
      forall i, j | 0 <= i < j < |sa| ensures !NameBefore(sa[j], sa[i]) { assert rel(sa[i], sa[j]); }
    }
    assert Sorting.Ordered(NameBefore, sb) by {
      forall i, j | 0 <= i < j < |sb| ensures !NameBefore(sb[j], sb[i]) { assert rel(sb[i], sb[j]); }
    }
    forall x, y | x in sa && y in sa && !NameBefore(x, y) && !NameBefore(y, x) ensures x == y {
      LessIsTotal(x.name, y.name);
    }
    Sorting.SortIsUnique(NameBefore, sa, sb);
  }
}
