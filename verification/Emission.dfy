/** From the emitter's rules to the emitted ones: duplicate backendRefs are removed, then rules and refs are sorted by
    name. Sorting fixes the output only where names are distinct. */
module Emission {
  import opened Text
  import opened Names
  import opened Kube
  import opened Collect
  import opened Sorting
  import opened Dedup
  import opened Canary

  // ---- the comparators ----

  const CANARY_HEADER := "-canary-header"

  /** The rule comparator of sortGatewayResources: unnamed rules first, then canary header rules, then by name. */
  predicate RuleBefore(a: RouteRule, b: RouteRule) {
    if a.name.None? && b.name.None? then false
    else if a.name.None? then true
    else if b.name.None? then false
    else
      var ca, cb := Contains(a.name.value, CANARY_HEADER), Contains(b.name.value, CANARY_HEADER);
      if ca && !cb then true else if !ca && cb then false else Less(a.name.value, b.name.value)
  }

  /** sortBackendRefs: by namespace, then by name. */
  predicate RefBefore(a: BackendRef, b: BackendRef) {
    var na, nb := NamespaceOf(a), NamespaceOf(b);
    if na != nb then Less(na, nb) else Less(a.name, b.name)
  }

  function NamespaceOf(r: BackendRef): string { if r.namespace.Some? then r.namespace.value else "" }

  lemma {:induction false} RuleBeforeIsStrictWeak()
    ensures StrictWeak(RuleBefore)
  {
    forall x: RouteRule, y: RouteRule ensures !(RuleBefore(x, y) && RuleBefore(y, x)) {
      if x.name.Some? && y.name.Some? {
        LessIsTotal(x.name.value, y.name.value);
      }
    }
    forall x: RouteRule, y: RouteRule, z: RouteRule | !RuleBefore(y, x) && !RuleBefore(z, y) ensures !RuleBefore(z, x) {
      if x.name.Some? && y.name.Some? && z.name.Some? && !Less(y.name.value, x.name.value)
         && !Less(z.name.value, y.name.value) {
        LessIsTransitive(x.name.value, y.name.value, z.name.value);
      }
    }
  }

  lemma {:induction false} RefBeforeIsStrictWeak()
    ensures StrictWeak(RefBefore)
  {
    forall x: BackendRef, y: BackendRef ensures !(RefBefore(x, y) && RefBefore(y, x)) {
      LessIsTotal(x.name, y.name);
      LessIsTotal(NamespaceOf(x), NamespaceOf(y));
    }
    forall x: BackendRef, y: BackendRef, z: BackendRef | !RefBefore(y, x) && !RefBefore(z, y) ensures !RefBefore(z, x) {
      RefBeforeTransitive(x, y, z);
    }
  }

  lemma {:induction false} RefBeforeTransitive(x: BackendRef, y: BackendRef, z: BackendRef)
    requires !RefBefore(y, x) && !RefBefore(z, y)
    ensures !RefBefore(z, x)
  {
    var nx, ny, nz := NamespaceOf(x), NamespaceOf(y), NamespaceOf(z);
    LessIsTotal(nx, ny);
    LessIsTotal(ny, nz);
    LessIsTotal(nx, nz);
    LessIsTransitive(nx, ny, nz);
    if nx == ny == nz {
      LessIsTransitive(x.name, y.name, z.name);
    }
  }

  // ---- the passes over one route ----

  /** ToGatewayResources on one route: each rule keeps everything but its refs, which are de-duplicated in some
      order. */
  ghost predicate Deduped(rules: seq<RouteRule>, out: seq<RouteRule>) {
    |out| == |rules| && forall i | 0 <= i < |rules| :: DedupedRule(rules[i], out[i])
  }

  ghost predicate DedupedRule(rule: RouteRule, out: RouteRule) {
    out.name == rule.name && out.matches == rule.matches && IsDedup(rule.backendRefs, out.backendRefs)
  }

  /** sortGatewayResources on one route: the rules in some sorted order, each with its refs in some sorted order. */
  ghost predicate SortedRoute(rules: seq<RouteRule>, order: seq<RouteRule>, out: seq<RouteRule>) {
    && IsSort(RuleBefore, rules, order)
    && |out| == |order|
    && forall i | 0 <= i < |out| ::
         out[i].name == order[i].name && out[i].matches == order[i].matches
         && IsSort(RefBefore, order[i].backendRefs, out[i].backendRefs)
  }

  class EmittedRoute {
    var rules: seq<RouteRule>

    constructor (rules: seq<RouteRule>)
      ensures this.rules == rules
    {
      this.rules := rules;
    }

    /** The rule loop of ToGatewayResources. */
    method RemoveDuplicates()
      requires forall i | 0 <= i < |rules| :: WeightsInInt32(rules[i].backendRefs)
      modifies this
      ensures Deduped(old(rules), rules)
    {
      ghost var before := rules;
      for i := 0 to |rules|
        invariant |rules| == |before|
        invariant forall j | 0 <= j < i :: DedupedRule(before[j], rules[j])
        invariant forall j | i <= j < |rules| :: rules[j] == before[j]
      {
        var refs := RemoveBackendRefsDuplicates(rules[i].backendRefs);
        rules := rules[i := rules[i].(backendRefs := refs)];
      }
    }

    /** sortGatewayResources */
    method Sort()
      modifies this
      ensures exists order :: SortedRoute(old(rules), order, rules)
    {
      RuleBeforeIsStrictWeak();
      var order := SortSlice(RuleBefore, rules);
      ghost var before := rules;
      rules := order;
      for i := 0 to |rules|
        invariant |rules| == |order|
        invariant forall j | 0 <= j < i :: rules[j].name == order[j].name && rules[j].matches == order[j].matches
                                           && IsSort(RefBefore, order[j].backendRefs, rules[j].backendRefs)
        invariant forall j | i <= j < |rules| :: rules[j] == order[j]
      {
        RefBeforeIsStrictWeak();
        var refs := SortSlice(RefBefore, rules[i].backendRefs);
        rules := rules[i := rules[i].(backendRefs := refs)];
      }
      assert SortedRoute(before, order, rules);
    }
  }

  lemma {:induction false} DedupAnyOrder(refs: seq<BackendRef>, a: seq<BackendRef>, b: seq<BackendRef>)
    requires IsDedup(refs, a) && multiset(a) == multiset(b)
    ensures IsDedup(refs, b)
  {
    MultisetFacts(a, b);
    forall i, j | 0 <= i < j < |b| ensures KeyOf(b[i]) != KeyOf(b[j]) {
      if KeyOf(b[i]) == KeyOf(b[j]) {
        SameKeySame(refs, a, b[i], b[j]);
        Twice(b, i, j);
        OnceEach(a, b[i]);
      }
    }
    forall i | 0 <= i < |b| ensures Select(refs, KeyOf, KeyOf(b[i])) != [] && b[i] == MergedRef(refs, KeyOf(b[i])) {
      assert b[i] in a;
    }
    forall i | 0 <= i < |refs| ensures HasRef(b, KeyOf(refs[i])) {
      var j :| 0 <= j < |a| && KeyOf(a[j]) == KeyOf(refs[i]);
      assert a[j] in b;
    }
  }

  lemma {:induction false} SameKeySame(refs: seq<BackendRef>, a: seq<BackendRef>, x: BackendRef, y: BackendRef)
    requires IsDedup(refs, a) && x in a && y in a && KeyOf(x) == KeyOf(y)
    ensures x == y
  {
  }

  lemma {:induction false} OnceEach(a: seq<BackendRef>, x: BackendRef)
    requires forall i, j | 0 <= i < j < |a| :: KeyOf(a[i]) != KeyOf(a[j])
    ensures multiset(a)[x] <= 1
  {
    if a != [] {
      var n := |a| - 1;
      OnceEach(a[..n], x);
      assert a == a[..n] + [a[n]];
      assert forall i | 0 <= i < n :: a[..n][i] == a[i] && KeyOf(a[i]) != KeyOf(a[n]);
      assert x in a[..n] <==> x in multiset(a[..n]);
    }
  }

  ghost predicate FromSome(rules: seq<RouteRule>, r: RouteRule) {
    exists q | 0 <= q < |rules| :: DedupedRule(rules[q], r)
  }

  ghost predicate KeptBySome(rule: RouteRule, out: seq<RouteRule>) {
    exists w | 0 <= w < |out| :: DedupedRule(rule, out[w])
  }

  /** What emission as a whole does to a rule list: each emitted rule is a de-duplicated rule, and none is missing. */
  lemma {:induction false} EmittedFrom(rules: seq<RouteRule>, mid: seq<RouteRule>, order: seq<RouteRule>,
          out: seq<RouteRule>)
    requires Deduped(rules, mid) && SortedRoute(mid, order, out)
    ensures forall w | 0 <= w < |out| :: FromSome(rules, out[w])
    ensures forall q | 0 <= q < |rules| :: KeptBySome(rules[q], out)
  {
    MultisetFacts(mid, order);
    forall w | 0 <= w < |out| ensures FromSome(rules, out[w]) {
      assert order[w] in mid;
      var q :| 0 <= q < |mid| && mid[q] == order[w];
      assert DedupedRule(rules[q], mid[q]);
      DedupAnyOrder(rules[q].backendRefs, mid[q].backendRefs, out[w].backendRefs);
      assert DedupedRule(rules[q], out[w]);
    }
    forall q | 0 <= q < |rules| ensures KeptBySome(rules[q], out) {
      assert mid[q] in order;
      var w :| 0 <= w < |order| && order[w] == mid[q];
      assert DedupedRule(rules[q], mid[q]);
      DedupAnyOrder(rules[q].backendRefs, mid[q].backendRefs, out[w].backendRefs);
      assert DedupedRule(rules[q], out[w]);
    }
  }

  // ---- rule names and the one sorted order ----

  ghost predicate DistinctNames(rules: seq<RouteRule>) {
    && (forall i | 0 <= i < |rules| :: rules[i].name.Some?)
    && (forall i, j | 0 <= i < j < |rules| :: rules[i].name != rules[j].name)
  }

  /** With distinct names there is one sorted order, whatever order the rules came in. */
  lemma {:induction false} RuleOrderUnique(a: seq<RouteRule>, b: seq<RouteRule>, ra: seq<RouteRule>, rb: seq<RouteRule>)
    requires DistinctNames(a) && multiset(a) == multiset(b)
    requires IsSort(RuleBefore, a, ra) && IsSort(RuleBefore, b, rb)
    ensures ra == rb
  {
    MultisetFacts(a, ra);
    forall x, y | x in ra && y in ra && !RuleBefore(x, y) && !RuleBefore(y, x) ensures x == y {
      assert x in a && y in a;
      var i :| 0 <= i < |a| && a[i] == x;
      var j :| 0 <= j < |a| && a[j] == y;
      LessIsTotal(x.name.value, y.name.value);
      assert a[i].name == a[j].name;
    }
    SortIsUnique(RuleBefore, ra, rb);
  }

  /** Unnamed rules, then canary header rules, then the rest, each kind by ascending name. */
  ghost predicate RulesInOrder(a: RouteRule, b: RouteRule) {
    || a.name.None?
    || (b.name.Some? && (Contains(b.name.value, "-canary-header") ==> Contains(a.name.value, "-canary-header"))
        && ((Contains(a.name.value, "-canary-header") ==> Contains(b.name.value, "-canary-header")) ==>
              a.name == b.name || Less(a.name.value, b.name.value)))
  }

  /** Ascending by namespace, none before all others, and by name within one. */
  ghost predicate RefsInOrder(a: BackendRef, b: BackendRef) {
    var m := match a.namespace case None => "" case Some(n) => n;
    var n := match b.namespace case None => "" case Some(n) => n;
    Less(m, n) || (m == n && (a.name == b.name || Less(a.name, b.name)))
  }

  /** What sorting is for: earlier rules and refs of an emitted route are never in the wrong order. */
  lemma {:induction false} EmittedInOrder(rules: seq<RouteRule>, order: seq<RouteRule>, out: seq<RouteRule>)
    requires SortedRoute(rules, order, out)
    ensures forall i, j | 0 <= i < j < |out| :: RulesInOrder(out[i], out[j])
    ensures forall i, j, k | 0 <= i < |out| && 0 <= j < k < |out[i].backendRefs| ::
              RefsInOrder(out[i].backendRefs[j], out[i].backendRefs[k])
  {
    forall i, j | 0 <= i < j < |out| ensures RulesInOrder(out[i], out[j]) {
      assert !RuleBefore(order[j], order[i]);
      RuleOrderMeans(order[i], order[j]);
    }
    forall i, j, k | 0 <= i < |out| && 0 <= j < k < |out[i].backendRefs|
      ensures RefsInOrder(out[i].backendRefs[j], out[i].backendRefs[k])
    {
      assert IsSort(RefBefore, order[i].backendRefs, out[i].backendRefs);
      RefOrderMeans(out[i].backendRefs[j], out[i].backendRefs[k]);
    }
  }

  lemma {:induction false} RuleOrderMeans(a: RouteRule, b: RouteRule)
    requires !RuleBefore(b, a)
    ensures RulesInOrder(a, b)
  {
    if a.name.Some? && b.name.Some? {
      LessIsTotal(a.name.value, b.name.value);
    }
  }

  lemma {:induction false} RefOrderMeans(a: BackendRef, b: BackendRef)
    requires !RefBefore(b, a)
    ensures RefsInOrder(a, b)
  {
    LessIsTotal(NamespaceOf(a), NamespaceOf(b));
    LessIsTotal(a.name, b.name);
  }

  /** Canary header rules come before all other named rules. */
  lemma {:induction false} HeaderRulesFirst(rules: seq<RouteRule>, out: seq<RouteRule>, i: nat, j: nat)
    requires IsSort(RuleBefore, rules, out) && i < |out| && j < |out|
    requires out[i].name.Some? && Contains(out[i].name.value, CANARY_HEADER)
    requires out[j].name.Some? && !Contains(out[j].name.value, CANARY_HEADER)
    ensures i < j
  {
    assert RuleBefore(out[i], out[j]);
  }

  lemma {:induction false} HeaderNamesContain(rule: RouteRule, ruleIdx: nat, sources: seq<BackendSource>, h: RouteRule)
    requires rule.name.Some? && |sources| <= |rule.backendRefs|
    requires h in ExpandRule(rule, ruleIdx, sources).prepended
    ensures h.name.Some? && Contains(h.name.value, CANARY_HEADER)
  {
    var f := Scan(ruleIdx, sources);
    HeaderRuleNames(rule, f.config.value, rule.backendRefs[f.canary.value], rule.backendRefs[f.stable.value], h);
  }

  lemma {:induction false} HeaderRuleNames(rule: RouteRule, config: CanaryConfig, canary: BackendRef,
          stable: BackendRef, h: RouteRule)
    requires rule.name.Some? && h in HeaderRules(rule, config, canary, stable)
    ensures h.name.Some? && Contains(h.name.value, CANARY_HEADER)
  {
    var name := rule.name.value;
    HeaderNameContains(name, "-canary-header", "");
    HeaderNameContains(name, "-canary-header-always", "-always");
    HeaderNameContains(name, "-canary-header-never", "-never");
  }

  lemma {:induction false} HeaderNameContains(name: string, suffix: string, rest: string)
    requires suffix == CANARY_HEADER + rest
    ensures Contains(name + suffix, CANARY_HEADER)
  {
    assert name + suffix == name + CANARY_HEADER + rest;
    ContainsAsPart(name, CANARY_HEADER, rest);
  }

  lemma {:induction false} PrependedDistinct(rules: seq<RouteRule>, sources: seq<seq<BackendSource>>, n: nat)
    requires Indexable(rules, sources) && NumberedRules(rules) && n <= |sources|
    ensures DistinctNames(Expand(rules, sources, n).prepended)
  {
    if n > 0 {
      PrependedDistinct(rules, sources, n - 1);
      if n <= |rules| {
        ExpandStep(rules, sources, n);
        var e, x := Expand(rules, sources, n - 1), ExpandRule(rules[n - 1], n - 1, sources[n - 1]);
        HeaderPairDistinct(rules[n - 1], n - 1, sources[n - 1]);
        forall i, j | 0 <= i < |e.prepended| && 0 <= j < |x.prepended|
          ensures e.prepended[i].name != x.prepended[j].name
        {
          var k := PrependedFrom(rules, sources, n - 1, i);
          HeaderRulesNamed(rules[k], k, sources[k], e.prepended[i]);
          HeaderRulesNamed(rules[n - 1], n - 1, sources[n - 1], x.prepended[j]);
          if e.prepended[i].name == x.prepended[j].name {
            NumberIsUnique(e.prepended[i].name.value, k, n - 1);
          }
        }
        DistinctConcat(e.prepended, x.prepended);
      }
    }
  }

  lemma {:induction false} HeaderPairDistinct(rule: RouteRule, ruleIdx: nat, sources: seq<BackendSource>)
    requires rule.name.Some? && |sources| <= |rule.backendRefs|
    ensures DistinctNames(ExpandRule(rule, ruleIdx, sources).prepended)
  {
    var a, b := rule.name.value + "-canary-header-always", rule.name.value + "-canary-header-never";
    assert |a| != |b|;
  }

  lemma {:induction false} DistinctConcat(a: seq<RouteRule>, b: seq<RouteRule>)
    requires DistinctNames(a) && DistinctNames(b)
    requires forall i, j | 0 <= i < |a| && 0 <= j < |b| :: a[i].name != b[j].name
    ensures DistinctNames(a + b)
  {
    forall i, j | 0 <= i < j < |a + b| ensures (a + b)[i].name != (a + b)[j].name {
      if i < |a| <= j {
        assert a[i].name != b[j - |a|].name;
      } else if |a| <= i {
        assert b[i - |a|].name != b[j - |a|].name;
      }
    }
  }

  /** Names stay pairwise distinct from the conversion through the canary expansion. */
  lemma {:induction false} ExpandedNamesDistinct(rules: seq<RouteRule>, sources: seq<seq<BackendSource>>)
    requires Indexable(rules, sources) && NumberedRules(rules)
    ensures DistinctNames(Final(rules, sources))
  {
    var e := Expand(rules, sources, |sources|);
    PrependedDistinct(rules, sources, |sources|);
    forall i | 0 <= i < |rules| ensures e.rules[i].name == rules[i].name {
      CanaryShift(rules, sources, i);
    }
    forall i, j | 0 <= i < j < |rules| ensures rules[i].name != rules[j].name {
      if rules[i].name == rules[j].name {
        NumberIsUnique(rules[i].name.value, i, j);
      }
    }
    forall i, j | 0 <= i < |e.prepended| && 0 <= j < |e.rules| ensures e.prepended[i].name != e.rules[j].name {
      var k := PrependedFrom(rules, sources, |sources|, i);
      HeaderRulesNamed(rules[k], k, sources[k], e.prepended[i]);
      if e.prepended[i].name == rules[j].name {
        NumberIsUnique(rules[j].name.value, j, k);
      }
    }
    DistinctConcat(e.prepended, e.rules);
  }
}
