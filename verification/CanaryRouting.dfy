/** Canary expansion, de-duplication and sorting together: the emitted rules send every request where the annotations
    said. */
module CanaryRouting {
  import opened Text
  import opened Names
  import opened Kube
  import opened Collect
  import opened Grouping
  import opened Paths
  import opened Dedup
  import opened Canary
  import opened Emission
  import opened Resolution
  import opened IngressSpec

  // ---- what the annotations say ----

  /** `canary` out of `total` requests go to the canary backend, the rest to the stable one. */
  datatype Split = Split(canary: int, total: int)

  function HeaderValue(req: Request, name: string): Option<string> {
    if ToLower(name) in req.headers then Some(req.headers[ToLower(name)]) else None
  }

  /** The header decides the request, without regard to weights. */
  predicate HeaderDecides(c: CanaryConfig, req: Request) {
    c.isHeader &&
    var v := HeaderValue(req, c.header);
    if c.headerValue != "" then v == Some(c.headerValue) else v == Some("always") || v == Some("never")
  }

  /** canary-by-header first: its value, or `always`, means canary and `never` means stable; otherwise the weights
      decide. */
  function Verdict(c: CanaryConfig, req: Request): Split {
    if HeaderDecides(c, req) then
      if c.headerValue == "" && HeaderValue(req, c.header) == Some("never") then Split(0, 1) else Split(1, 1)
    else Split(c.weight, c.weightTotal)
  }

  datatype Plan = Plain | WithCanary(config: CanaryConfig, canary: nat, stable: nat)

  /** The backends a rule's sources designate, by position. */
  function PlanOf(sources: seq<BackendSource>): Plan {
    var f := Scan(0, sources);
    if f.canary.Some? && f.stable.Some? then WithCanary(f.config.value, f.canary.value, f.stable.value) else Plain
  }

  ghost function PartOf(v: Split, isCanary: bool, isStable: bool): real
    requires v.total > 0
  {
    ((if isCanary then v.canary else 0) + (if isStable then v.total - v.canary else 0)) as real / v.total as real
  }

  /** The traffic the annotations of rule `rule` ask for. */
  ghost function Expected(rule: RouteRule, plan: Plan, req: Request, k: RefKey): real
    requires plan.WithCanary? ==> plan.canary < |rule.backendRefs| && plan.stable < |rule.backendRefs|
                                  && 0 < plan.config.weightTotal
    requires plan.Plain? ==> TotalWeight(rule.backendRefs) != 0
  {
    match plan
    case Plain => Share(rule.backendRefs, k)
    case WithCanary(c, canary, stable) =>
      PartOf(Verdict(c, req), KeyOf(rule.backendRefs[canary]) == k, KeyOf(rule.backendRefs[stable]) == k)
  }

  /** The case in which the emitted rules can be trusted: the header decides, or a weight is annotated, or both backends
      are one. */
  predicate Faithful(rule: RouteRule, plan: Plan, req: Request)
    requires plan.WithCanary? ==> plan.canary < |rule.backendRefs| && plan.stable < |rule.backendRefs|
  {
    plan.WithCanary? ==>
      HeaderDecides(plan.config, req) || plan.config.isWeight
      || KeyOf(rule.backendRefs[plan.canary]) == KeyOf(rule.backendRefs[plan.stable])
  }

  // ---- routes as the conversion builds them ----

  /** Rule `i` and its sources, straight from the conversion: one plain match, at least one ref, no weights, one source
      each. */
  ghost predicate BaseRule(rule: RouteRule, sources: seq<BackendSource>, i: nat) {
    && rule.name.Some? && NumberedName(rule.name.value, i)
    && |rule.matches| == 1 && rule.matches[0].headers == []
    && rule.backendRefs != [] && |sources| == |rule.backendRefs|
    && (forall j | 0 <= j < |rule.backendRefs| :: rule.backendRefs[j].weight.None?)
    && (forall j | 0 <= j < |sources| :: sources[j].ingress.Some?)
  }

  ghost predicate BaseRules(rules: seq<RouteRule>, sources: seq<seq<BackendSource>>) {
    |rules| == |sources| && forall i | 0 <= i < |rules| :: BaseRule(rules[i], sources[i], i)
  }

  /** And no two rules have one match. */
  ghost predicate BaseRoute(rules: seq<RouteRule>, sources: seq<seq<BackendSource>>) {
    && BaseRules(rules, sources)
    && (forall i, j | 0 <= i < j < |rules| :: rules[i].matches[0].path != rules[j].matches[0].path)
  }

  /** The ref a header hit selects. */
  function Chosen(rule: RouteRule, plan: Plan, req: Request): BackendRef
    requires plan.WithCanary? && plan.canary < |rule.backendRefs| && plan.stable < |rule.backendRefs|
  {
    rule.backendRefs[if Verdict(plan.config, req).canary == 1 then plan.canary else plan.stable]
  }

  // ---- shape of one expanded rule ----

  lemma {:induction false} PlanFound(sources: seq<BackendSource>, ruleIdx: nat)
    requires CanaryFits(sources) && (forall j | 0 <= j < |sources| :: sources[j].ingress.Some?) && sources != []
    ensures var f := Scan(ruleIdx, sources);
            && f.errors == [] && f == Scan(0, sources)
            && (PlanOf(sources).WithCanary? <==> f.canary.Some?)
            && (PlanOf(sources).WithCanary? ==> |sources| == 2 && f.canary.value != f.stable.value)
            && (PlanOf(sources).Plain? ==> |sources| == 1)
  {
    ScanFinds(ruleIdx, sources);
    ScanFinds(0, sources);
    ScanIgnoresIndex(sources, ruleIdx);
    forall j | 0 <= j < |sources| ensures IsCanary(sources[j]) <==> !IsStable(sources[j]) {}
    assert |sources| > 1 ==>
      !(IsCanary(sources[0]) && IsCanary(sources[1])) && !(IsStable(sources[0]) && IsStable(sources[1]));
    if |sources| == 2 {
      assert IsCanary(sources[0]) || IsCanary(sources[1]);
      assert HasCanary(sources) && HasStable(sources);
    } else {
      assert !(HasCanary(sources) && HasStable(sources));
    }
  }

  lemma {:induction false} ScanIgnoresIndex(sources: seq<BackendSource>, ruleIdx: nat)
    ensures var f, g := Scan(ruleIdx, sources), Scan(0, sources);
            f.canary == g.canary && f.stable == g.stable && f.config == g.config && |f.errors| == |g.errors|
  {
    if sources != [] {
      ScanIgnoresIndex(sources[..|sources| - 1], ruleIdx);
    }
  }

  /** The expansion of a rule by its plan: the rule itself with split weights, and its header rules. */
  ghost function Updated(rule: RouteRule, plan: Plan): RouteRule
    requires plan.WithCanary? ==> plan.canary < |rule.backendRefs| && plan.stable < |rule.backendRefs|
  {
    if plan.Plain? then rule else Weighted(rule, plan.config, plan.canary, plan.stable)
  }

  ghost function Headers(rule: RouteRule, plan: Plan): seq<RouteRule>
    requires rule.name.Some?
    requires plan.WithCanary? ==> plan.canary < |rule.backendRefs| && plan.stable < |rule.backendRefs|
  {
    if plan.Plain? then []
    else HeaderRules(rule, plan.config, rule.backendRefs[plan.canary], rule.backendRefs[plan.stable])
  }

  lemma {:induction false} ExpandByPlan(rule: RouteRule, i: nat, sources: seq<BackendSource>)
    requires BaseRule(rule, sources, i) && CanaryFits(sources)
    ensures PlanOf(sources).WithCanary? ==> PlanOf(sources).canary < |sources| && PlanOf(sources).stable < |sources|
    ensures ExpandRule(rule, i, sources) ==
              Expansion(Headers(rule, PlanOf(sources)), [Updated(rule, PlanOf(sources))], [])
  {
    PlanFound(sources, i);
  }

  /** A request meets at most one header rule of a rule, exactly when the header decides. */
  lemma {:induction false} HeaderRuleMatches(rule: RouteRule, plan: Plan, req: Request, h: RouteRule)
    requires rule.name.Some? && |rule.matches| == 1 && rule.matches[0].headers == []
    requires plan.WithCanary? && plan.canary < |rule.backendRefs| && plan.stable < |rule.backendRefs|
    requires h in Headers(rule, plan)
    ensures |h.matches| == 1 && h.matches[0].path == rule.matches[0].path && |h.matches[0].headers| == 1
    ensures Matches(h.matches[0], req) ==>
              HeaderDecides(plan.config, req) &&
              h.backendRefs == [Chosen(rule, plan, req)]
  {
    assert HeaderMatches(h.matches[0].headers[0], req) || !Matches(h.matches[0], req);
  }

  lemma {:induction false} HeaderRuleExists(rule: RouteRule, plan: Plan, req: Request) returns (h: RouteRule)
    requires rule.name.Some? && |rule.matches| == 1 && rule.matches[0].headers == []
    requires plan.WithCanary? && plan.canary < |rule.backendRefs| && plan.stable < |rule.backendRefs|
    requires HeaderDecides(plan.config, req) && PathMatches(rule.matches[0].path, req.path)
    ensures h in Headers(rule, plan) && |h.matches| == 1 && Matches(h.matches[0], req)
  {
    var hs := Headers(rule, plan);
    if plan.config.headerValue == "" && HeaderValue(req, plan.config.header) == Some("never") {
      h := hs[1];
    } else {
      h := hs[0];
    }
    assert h.matches[0].headers[0].name == plan.config.header;
  }

  // ---- traffic of one rule ----

  lemma {:induction false} OneRef(a: BackendRef, k: RefKey)
    ensures KeyWeight([a], k) == (if KeyOf(a) == k then Effective(a) else 0)
    ensures WeightSum([a], k) == (if KeyOf(a) == k && a.weight.Some? then a.weight.value else 0)
    ensures Unweighted([a], k) == (if KeyOf(a) == k && a.weight.None? then 1 else 0)
    ensures TotalWeight([a]) == Effective(a)
    ensures Select([a], KeyOf, k) == (if KeyOf(a) == k then [a] else [])
  {
    var refs := [a];
    assert refs[..|refs| - 1] == [];
  }

  lemma {:induction false} PairWeights(a: BackendRef, b: BackendRef, k: RefKey)
    ensures KeyWeight([a, b], k) ==
              (if KeyOf(a) == k then Effective(a) else 0) + (if KeyOf(b) == k then Effective(b) else 0)
    ensures WeightSum([a, b], k) == (if KeyOf(a) == k && a.weight.Some? then a.weight.value else 0)
                                  + (if KeyOf(b) == k && b.weight.Some? then b.weight.value else 0)
    ensures Unweighted([a, b], k) == (if KeyOf(a) == k && a.weight.None? then 1 else 0)
                                   + (if KeyOf(b) == k && b.weight.None? then 1 else 0)
    ensures TotalWeight([a, b]) == Effective(a) + Effective(b)
    ensures Select([a, b], KeyOf, k) == (if KeyOf(a) == k then [a] else []) + (if KeyOf(b) == k then [b] else [])
  {
    var refs := [a, b];
    assert refs[..|refs| - 1] == [a] && refs[|refs| - 1] == b;
    OneRef(a, k);
  }

  lemma {:induction false} DedupOfOne(r: BackendRef, out: seq<BackendRef>)
    requires IsDedup([r], out) && r.weight.None?
    ensures KeyWeight(out, KeyOf(r)) == 1 && TotalWeight(out) == 1
    ensures forall k | k != KeyOf(r) :: KeyWeight(out, k) == 0
  {
    forall k ensures NoMixing([r], k) && InInt32(WeightSum([r], k)) {
      OneRef(r, k);
    }
    DedupConserves([r], out);
    OneRef(r, KeyOf(r));
    forall k | k != KeyOf(r) ensures KeyWeight(out, k) == 0 {
      OneRef(r, k);
    }
  }

  /** Weights are conserved: both lie between 0 and the total, sum to it, and de-duplication keeps the sum and each
      key's part, even when both refs have one key. */
  lemma {:induction false} WeightedPair(a: BackendRef, b: BackendRef, out: seq<BackendRef>, k: RefKey)
    requires a.weight.Some? && b.weight.Some? && 0 <= a.weight.value && 0 <= b.weight.value
    requires a.weight.value + b.weight.value < INT32_LIMIT
    requires IsDedup([a, b], out)
    ensures TotalWeight(out) == a.weight.value + b.weight.value
    ensures KeyWeight(out, k) ==
              (if KeyOf(a) == k then a.weight.value else 0) + (if KeyOf(b) == k then b.weight.value else 0)
  {
    forall j ensures NoMixing([a, b], j) && InInt32(WeightSum([a, b], j)) {
      PairWeights(a, b, j);
    }
    DedupConserves([a, b], out);
    PairWeights(a, b, k);
  }

  lemma {:induction false} UnweightedPair(a: BackendRef, b: BackendRef, out: seq<BackendRef>, k: RefKey)
    requires a.weight.None? && b.weight.None? && IsDedup([a, b], out)
    ensures KeyOf(a) != KeyOf(b) ==>
              TotalWeight(out) == 2 && KeyWeight(out, KeyOf(a)) == 1 && KeyWeight(out, KeyOf(b)) == 1
    ensures KeyOf(a) == KeyOf(b) ==> TotalWeight(out) == 1 && KeyWeight(out, KeyOf(a)) == 1
    ensures k != KeyOf(a) && k != KeyOf(b) ==> KeyWeight(out, k) == 0
  {
    PairWeights(a, b, KeyOf(a));
    PairWeights(a, b, KeyOf(b));
    PairWeights(a, b, k);
    DedupKeyWeight([a, b], out, KeyOf(a));
    DedupKeyWeight([a, b], out, KeyOf(b));
    DedupKeyWeight([a, b], out, k);
    if KeyOf(a) != KeyOf(b) {
      forall j ensures NoMixing([a, b], j) && InInt32(WeightSum([a, b], j)) { PairWeights(a, b, j); }
      DedupConserves([a, b], out);
    } else {
      SameKeyOut(a, b, out);
    }
  }

  lemma {:induction false} SameKeyOut(a: BackendRef, b: BackendRef, out: seq<BackendRef>)
    requires a.weight.None? && b.weight.None? && KeyOf(a) == KeyOf(b) && IsDedup([a, b], out)
    ensures TotalWeight(out) == 1
  {
    PairWeights(a, b, KeyOf(a));
    forall i | 0 <= i < |out| ensures KeyOf(out[i]) == KeyOf(a) {
      PairWeights(a, b, KeyOf(out[i]));
    }
    var refs := [a, b];
    assert HasRef(out, KeyOf(refs[0]));
    assert |out| > 1 ==> KeyOf(out[0]) != KeyOf(out[1]);
    assert out == [out[0]];
    OneRef(out[0], KeyOf(a));
    MergedUnweighted(a, b);
  }

  lemma {:induction false} MergedUnweighted(a: BackendRef, b: BackendRef)
    requires a.weight.None? && KeyOf(a) == KeyOf(b)
    ensures Select([a, b], KeyOf, KeyOf(a)) != [] && MergedRef([a, b], KeyOf(a)).weight.None?
  {
    PairWeights(a, b, KeyOf(a));
  }

  /** The refs an error-free expansion leaves in a rule: one or two, all unweighted, or two with weights that sum to a
      positive int32. */
  predicate RefsOfExpansion(refs: seq<BackendRef>) {
    || (1 <= |refs| <= 2 && forall j | 0 <= j < |refs| :: refs[j].weight.None?)
    || (|refs| == 2 && refs[0].weight.Some? && refs[1].weight.Some?
        && 0 <= refs[0].weight.value && 0 <= refs[1].weight.value
        && 0 < refs[0].weight.value + refs[1].weight.value < INT32_LIMIT)
  }

  /** Two unweighted refs to one backend: the only ones that de-duplication merges without adding up. */
  predicate OneBackendTwice(refs: seq<BackendRef>) {
    |refs| == 2 && KeyOf(refs[0]) == KeyOf(refs[1]) && refs[0].weight.None?
  }

  /** De-duplication of such refs leaves every backend its share of the traffic; the total weight stays too unless two
      unweighted refs to one backend become one. */
  lemma {:induction false} DedupKeepsShares(refs: seq<BackendRef>, out: seq<BackendRef>)
    requires RefsOfExpansion(refs) && IsDedup(refs, out)
    ensures TotalWeight(refs) > 0 && TotalWeight(out) > 0
    ensures forall k :: Share(out, k) == Share(refs, k)
    ensures TotalWeight(out) == TotalWeight(refs) <==> !OneBackendTwice(refs)
  {
    var n := if OneBackendTwice(refs) then 2 else 1;
    forall k ensures TotalWeight(out) > 0 && TotalWeight(refs) == n * TotalWeight(out)
             ensures TotalWeight(refs) > 0 && Share(out, k) == Share(refs, k)
    {
      RefsScale(refs, out, k, n);
      SharesScale(refs, out, k, n);
    }
    var any := KeyOf(refs[0]);
    RefsScale(refs, out, any, n);
  }

  lemma {:induction false} RefsScale(refs: seq<BackendRef>, out: seq<BackendRef>, k: RefKey, n: int)
    requires RefsOfExpansion(refs) && IsDedup(refs, out) && n == if OneBackendTwice(refs) then 2 else 1
    ensures TotalWeight(out) > 0
    ensures TotalWeight(refs) == n * TotalWeight(out) && KeyWeight(refs, k) == n * KeyWeight(out, k)
  {
    if |refs| == 1 {
      assert refs == [refs[0]];
      OneKeeps(refs[0], out, k);
    } else {
      assert refs == [refs[0], refs[1]];
      PairKeeps(refs[0], refs[1], out, k);
    }
  }

  lemma {:induction false} OneKeeps(a: BackendRef, out: seq<BackendRef>, k: RefKey)
    requires RefsOfExpansion([a]) && IsDedup([a], out)
    ensures TotalWeight([a]) == TotalWeight(out) == 1 && KeyWeight(out, k) == KeyWeight([a], k)
  {
    assert [a][0] == a;
    DedupOfOne(a, out);
    OneRef(a, k);
  }

  lemma {:induction false} PairKeeps(a: BackendRef, b: BackendRef, out: seq<BackendRef>, k: RefKey)
    requires RefsOfExpansion([a, b]) && IsDedup([a, b], out)
    ensures TotalWeight(out) > 0
    ensures !OneBackendTwice([a, b]) ==>
              TotalWeight([a, b]) == TotalWeight(out) && KeyWeight([a, b], k) == KeyWeight(out, k)
    ensures OneBackendTwice([a, b]) ==>
              TotalWeight([a, b]) == 2 * TotalWeight(out) && KeyWeight([a, b], k) == 2 * KeyWeight(out, k)
  {
    assert [a, b][0] == a && [a, b][1] == b;
    PairWeights(a, b, k);
    if a.weight.Some? {
      WeightedPair(a, b, out, k);
    } else {
      UnweightedPair(a, b, out, k);
    }
  }

  lemma {:induction false} SharesScale(refs: seq<BackendRef>, out: seq<BackendRef>, k: RefKey, n: int)
    requires (n == 1 || n == 2) && TotalWeight(out) > 0
    requires TotalWeight(refs) == n * TotalWeight(out) && KeyWeight(refs, k) == n * KeyWeight(out, k)
    ensures TotalWeight(refs) > 0 && Share(out, k) == Share(refs, k)
  {
    if n == 2 {
      Doubled(KeyWeight(out, k), TotalWeight(out));
    }
  }

  lemma {:induction false} Doubled(w: int, t: int)
    requires t > 0
    ensures (2 * w) as real / (2 * t) as real == w as real / t as real
  {
    var q := w as real / t as real;
    assert q * (2 * t) as real == (2 * w) as real;
  }

  // ---- the expanded route ----

  lemma {:induction false} BaseIsIndexable(rules: seq<RouteRule>, sources: seq<seq<BackendSource>>)
    requires BaseRules(rules, sources)
    ensures Indexable(rules, sources) && NumberedRules(rules)
  {
    forall i | 0 <= i < |rules| ensures BaseRule(rules[i], sources[i], i) {}
  }

  /** A rule of the expanded route that came from base rule `i`. */
  ghost predicate FromBase(rules: seq<RouteRule>, sources: seq<seq<BackendSource>>, i: nat, r: RouteRule)
    requires BaseRules(rules, sources)
  {
    && i < |rules| && BaseRule(rules[i], sources[i], i) && CanaryFits(sources[i])
    && var plan := PlanOf(sources[i]);
    && (plan.WithCanary? ==> plan.canary < |sources[i]| && plan.stable < |sources[i]|)
    && (r == Updated(rules[i], plan) || r in Headers(rules[i], plan))
  }

  lemma {:induction false} FinalFromBase(rules: seq<RouteRule>, sources: seq<seq<BackendSource>>, q: nat)
    returns (i: nat)
    requires BaseRules(rules, sources) && Indexable(rules, sources) && AllFit(sources, |sources|)
    requires q < |Final(rules, sources)|
    ensures FromBase(rules, sources, i, Final(rules, sources)[q])
  {
    var e := Expand(rules, sources, |sources|);
    if q < |e.prepended| {
      i := PrependedFrom(rules, sources, |sources|, q);
    } else {
      i := q - |e.prepended|;
      ExpandAt(rules, sources, |sources|, i);
    }
    assert BaseRule(rules[i], sources[i], i) && CanaryFits(sources[i]);
    ExpandByPlan(rules[i], i, sources[i]);
  }

  lemma {:induction false} BaseInFinal(rules: seq<RouteRule>, sources: seq<seq<BackendSource>>, i: nat, r: RouteRule)
    requires BaseRules(rules, sources) && Indexable(rules, sources) && AllFit(sources, |sources|)
    requires FromBase(rules, sources, i, r)
    ensures r in Final(rules, sources)
  {
    var e := Expand(rules, sources, |sources|);
    ExpandByPlan(rules[i], i, sources[i]);
    ExpandAt(rules, sources, |sources|, i);
    if r == Updated(rules[i], PlanOf(sources[i])) {
      assert Final(rules, sources)[|e.prepended| + i] == r;
    } else {
      assert r in e.prepended;
    }
  }

  /** Rules that came from base rule `i` carry its path, and at most one header match. */
  lemma {:induction false} FromBaseShape(rules: seq<RouteRule>, sources: seq<seq<BackendSource>>, i: nat, r: RouteRule,
          req: Request)
    requires BaseRules(rules, sources) && FromBase(rules, sources, i, r)
    ensures |r.matches| == 1 && r.matches[0].path == rules[i].matches[0].path
    ensures r in Headers(rules[i], PlanOf(sources[i])) ==> |r.matches[0].headers| == 1
    ensures r == Updated(rules[i], PlanOf(sources[i])) ==> r.matches == rules[i].matches && r.matches[0].headers == []
  {
    if r in Headers(rules[i], PlanOf(sources[i])) {
      HeaderRuleMatches(rules[i], PlanOf(sources[i]), req, r);
    }
  }

  /** The emitted rules: all of the expanded route, de-duplicated and sorted. */
  ghost predicate Emits(rules: seq<RouteRule>, sources: seq<seq<BackendSource>>, out: seq<RouteRule>)
    requires Indexable(rules, sources)
  {
    EmitsRules(Final(rules, sources), out)
  }

  /** `out` holds the de-duplicated rules of `rules` and no others, in some order. */
  ghost predicate EmitsRules(rules: seq<RouteRule>, out: seq<RouteRule>) {
    && (forall w | 0 <= w < |out| :: FromSome(rules, out[w]))
    && (forall q | 0 <= q < |rules| :: KeptBySome(rules[q], out))
  }

  lemma {:induction false} EmittedOrigin(rules: seq<RouteRule>, sources: seq<seq<BackendSource>>, out: seq<RouteRule>,
          w: nat)
    returns (i: nat, r: RouteRule)
    requires BaseRules(rules, sources) && Indexable(rules, sources) && AllFit(sources, |sources|)
    requires Emits(rules, sources, out) && w < |out|
    ensures FromBase(rules, sources, i, r) && DedupedRule(r, out[w])
  {
    assert FromSome(Final(rules, sources), out[w]);
    var q :| 0 <= q < |Final(rules, sources)| && DedupedRule(Final(rules, sources)[q], out[w]);
    i := FinalFromBase(rules, sources, q);
    r := Final(rules, sources)[q];
  }

  lemma {:induction false} EmittedKeeps(rules: seq<RouteRule>, sources: seq<seq<BackendSource>>, out: seq<RouteRule>,
          i: nat, r: RouteRule)
    returns (w: nat)
    requires BaseRules(rules, sources) && Indexable(rules, sources) && AllFit(sources, |sources|)
    requires Emits(rules, sources, out) && FromBase(rules, sources, i, r)
    ensures w < |out| && out[w].matches == r.matches
  {
    BaseInFinal(rules, sources, i, r);
    var q :| 0 <= q < |Final(rules, sources)| && Final(rules, sources)[q] == r;
    assert KeptBySome(Final(rules, sources)[q], out);
    w :| 0 <= w < |out| && DedupedRule(r, out[w]);
  }

  /** No two rules of the expanded route tie on a request, so no order of the list can change which one serves it. */
  lemma {:induction false} NoTies(rules: seq<RouteRule>, sources: seq<seq<BackendSource>>, req: Request, i: nat,
          r: RouteRule, j: nat, s: RouteRule)
    requires BaseRoute(rules, sources)
    requires FromBase(rules, sources, i, r) && FromBase(rules, sources, j, s) && r != s
    ensures |r.matches| == 1 && |s.matches| == 1
    ensures Matches(r.matches[0], req) && Matches(s.matches[0], req) ==>
              Outranks(r.matches[0], s.matches[0]) || Outranks(s.matches[0], r.matches[0])
  {
    FromBaseShape(rules, sources, i, r, req);
    FromBaseShape(rules, sources, j, s, req);
    if Matches(r.matches[0], req) && Matches(s.matches[0], req) {
      var p, q := rules[i].matches[0].path, rules[j].matches[0].path;
      if PathTies(p, q) {
        PathsNeverTie(p, q, req.path);
        assert i == j;
        if r in Headers(rules[i], PlanOf(sources[i])) && s in Headers(rules[i], PlanOf(sources[i])) {
          OneHeaderRule(rules[i], PlanOf(sources[i]), req, r, s);
        }
      }
    }
  }

  lemma {:induction false} OneHeaderRule(rule: RouteRule, plan: Plan, req: Request, r: RouteRule, s: RouteRule)
    requires rule.name.Some? && |rule.matches| == 1 && rule.matches[0].headers == []
    requires plan.WithCanary? ==> plan.canary < |rule.backendRefs| && plan.stable < |rule.backendRefs|
    requires r in Headers(rule, plan) && s in Headers(rule, plan) && r != s
    ensures |r.matches| == 1 && |s.matches| == 1
    ensures !(Matches(r.matches[0], req) && Matches(s.matches[0], req))
  {
    HeaderRuleMatches(rule, plan, req, r);
    HeaderRuleMatches(rule, plan, req, s);
    assert HeaderMatches(r.matches[0].headers[0], req) || !Matches(r.matches[0], req);
    assert HeaderMatches(s.matches[0].headers[0], req) || !Matches(s.matches[0], req);
  }

  // ---- the winner ----

  lemma {:induction false} WinnerFacts(rules: seq<RouteRule>, req: Request, w: nat)
    requires IsWinner(rules, req, w) && |rules[w].matches| == 1
    ensures Matches(rules[w].matches[0], req)
    ensures forall j, n | 0 <= j < |rules| && n in rules[j].matches && Matches(n, req) ::
              !Outranks(n, rules[w].matches[0])
  {
  }

  lemma {:induction false} OriginIndex(rules: seq<RouteRule>, sources: seq<seq<BackendSource>>, out: seq<RouteRule>,
          req: Request, i: nat, w: nat, i': nat, r: RouteRule)
    requires BaseRoute(rules, sources) && Indexable(rules, sources) && AllFit(sources, |sources|)
    requires Emits(rules, sources, out) && IsWinner(rules, req, i) && IsWinner(out, req, w)
    requires FromBase(rules, sources, i', r) && out[w].matches == r.matches
    ensures i' == i && |r.matches| == 1 && Matches(r.matches[0], req)
  {
    FromBaseShape(rules, sources, i', r, req);
    WinnerFacts(out, req, w);
    assert BaseRule(rules[i], sources[i], i);
    WinnerFacts(rules, req, i);
    var mine, other := rules[i].matches[0], rules[i'].matches[0];
    assert other in rules[i'].matches && Matches(other, req);
    assert !Outranks(other, mine);
    UpdatedFromBase(rules, sources, i);
    var u := Updated(rules[i], PlanOf(sources[i]));
    FromBaseShape(rules, sources, i, u, req);
    var w2 := EmittedKeeps(rules, sources, out, i, u);
    assert mine in out[w2].matches;
    assert !Outranks(mine, r.matches[0]);
    assert PathTies(mine.path, other.path);
    PathsNeverTie(mine.path, other.path, req.path);
  }

  /** The rule that serves a request comes from the base rule that would have served it. */
  lemma {:induction false} WinnerOrigin(rules: seq<RouteRule>, sources: seq<seq<BackendSource>>, out: seq<RouteRule>,
          req: Request, i: nat, w: nat)
    returns (r: RouteRule)
    requires BaseRoute(rules, sources) && Indexable(rules, sources) && AllFit(sources, |sources|)
    requires Emits(rules, sources, out) && IsWinner(rules, req, i) && IsWinner(out, req, w)
    ensures FromBase(rules, sources, i, r) && DedupedRule(r, out[w])
    ensures |r.matches| == 1 && Matches(r.matches[0], req)
    ensures TopOfBase(rules, sources, req, i, r.matches[0])
  {
    var i';
    i', r := OriginOfWinner(rules, sources, out, req, w);
    OriginIndex(rules, sources, out, req, i, w, i', r);
  }

  /** The base rule that the serving rule comes from, whether or not other rules have its match. */
  lemma {:induction false} OriginOfWinner(rules: seq<RouteRule>, sources: seq<seq<BackendSource>>, out: seq<RouteRule>,
          req: Request, w: nat)
    returns (i: nat, r: RouteRule)
    requires BaseRules(rules, sources) && Indexable(rules, sources) && AllFit(sources, |sources|)
    requires Emits(rules, sources, out) && IsWinner(out, req, w)
    ensures FromBase(rules, sources, i, r) && DedupedRule(r, out[w])
    ensures |r.matches| == 1 && Matches(r.matches[0], req)
    ensures TopOfBase(rules, sources, req, i, r.matches[0]) && IsTop(rules, req, i)
  {
    i, r := EmittedOrigin(rules, sources, out, w);
    FromBaseShape(rules, sources, i, r, req);
    WinnerFacts(out, req, w);
    forall j, s | FromBase(rules, sources, j, s) && |s.matches| == 1 && Matches(s.matches[0], req)
      ensures !Outranks(s.matches[0], r.matches[0])
    {
      NotOutranked(rules, sources, out, req, w, j, s);
    }
    forall j | 0 <= j < |rules| && |rules[j].matches| == 1 && Matches(rules[j].matches[0], req)
      ensures !PathOutranks(rules[j].matches[0].path, r.matches[0].path)
    {
      BaseNotOutranked(rules, sources, out, req, w, j);
    }
    TopFromOrigin(rules, sources, req, i, r);
  }

  /** No rule of the expanded route outranks the one that serves. */
  lemma {:induction false} NotOutranked(rules: seq<RouteRule>, sources: seq<seq<BackendSource>>, out: seq<RouteRule>,
          req: Request, w: nat, j: nat, s: RouteRule)
    requires BaseRules(rules, sources) && Indexable(rules, sources) && AllFit(sources, |sources|)
    requires Emits(rules, sources, out) && IsWinner(out, req, w) && |out[w].matches| == 1
    requires FromBase(rules, sources, j, s) && |s.matches| == 1 && Matches(s.matches[0], req)
    ensures !Outranks(s.matches[0], out[w].matches[0])
  {
    WinnerFacts(out, req, w);
    var v := EmittedKeeps(rules, sources, out, j, s);
    assert s.matches[0] in out[v].matches;
  }

  lemma {:induction false} BaseNotOutranked(rules: seq<RouteRule>, sources: seq<seq<BackendSource>>,
          out: seq<RouteRule>, req: Request, w: nat, j: nat)
    requires BaseRules(rules, sources) && Indexable(rules, sources) && AllFit(sources, |sources|)
    requires Emits(rules, sources, out) && IsWinner(out, req, w) && |out[w].matches| == 1
    requires j < |rules| && |rules[j].matches| == 1 && Matches(rules[j].matches[0], req)
    ensures !PathOutranks(rules[j].matches[0].path, out[w].matches[0].path)
  {
    UpdatedFromBase(rules, sources, j);
    var u := Updated(rules[j], PlanOf(sources[j]));
    FromBaseShape(rules, sources, j, u, req);
    NotOutranked(rules, sources, out, req, w, j, u);
  }

  lemma {:induction false} TopFromOrigin(rules: seq<RouteRule>, sources: seq<seq<BackendSource>>, req: Request, i: nat,
          r: RouteRule)
    requires BaseRules(rules, sources) && FromBase(rules, sources, i, r)
    requires |r.matches| == 1 && Matches(r.matches[0], req)
    requires forall j | 0 <= j < |rules| && |rules[j].matches| == 1 && Matches(rules[j].matches[0], req) ::
               !PathOutranks(rules[j].matches[0].path, r.matches[0].path)
    ensures IsTop(rules, req, i)
  {
    FromBaseShape(rules, sources, i, r, req);
    assert BaseRule(rules[i], sources[i], i);
  }

  /** Rule `i` accepts the request and no rule that does has a path of higher precedence. */
  ghost predicate IsTop(rules: seq<RouteRule>, req: Request, i: nat) {
    && i < |rules| && |rules[i].matches| == 1 && Matches(rules[i].matches[0], req)
    && forall j | 0 <= j < |rules| && |rules[j].matches| == 1 && Matches(rules[j].matches[0], req) ::
         !PathOutranks(rules[j].matches[0].path, rules[i].matches[0].path)
  }

  /** No rule that came from base rule `i` and matches the request outranks `m`. */
  ghost predicate TopOfBase(rules: seq<RouteRule>, sources: seq<seq<BackendSource>>, req: Request, i: nat,
          m: RouteMatch)
    requires BaseRules(rules, sources)
  {
    forall s | FromBase(rules, sources, i, s) && |s.matches| == 1 && Matches(s.matches[0], req) ::
      !Outranks(s.matches[0], m)
  }

  lemma {:induction false} UpdatedFromBase(rules: seq<RouteRule>, sources: seq<seq<BackendSource>>, i: nat)
    requires BaseRules(rules, sources) && AllFit(sources, |sources|) && i < |rules|
    ensures BaseRule(rules[i], sources[i], i) && CanaryFits(sources[i])
    ensures var plan := PlanOf(sources[i]);
            plan.WithCanary? ==> plan.canary < |sources[i]| && plan.stable < |sources[i]|
    ensures FromBase(rules, sources, i, Updated(rules[i], PlanOf(sources[i])))
  {
    assert BaseRule(rules[i], sources[i], i) && CanaryFits(sources[i]);
    ExpandByPlan(rules[i], i, sources[i]);
  }

  // ---- traffic of the winner ----

  lemma {:induction false} PlainTraffic(rule: RouteRule, sources: seq<BackendSource>, i: nat, out: seq<BackendRef>)
    requires BaseRule(rule, sources, i) && CanaryFits(sources) && PlanOf(sources).Plain?
    requires IsDedup(rule.backendRefs, out)
    ensures TotalWeight(out) != 0 && TotalWeight(rule.backendRefs) != 0
    ensures forall k :: Share(out, k) == Share(rule.backendRefs, k)
  {
    PlanFound(sources, i);
    var ref := rule.backendRefs[0];
    assert rule.backendRefs == [ref];
    DedupOfOne(ref, out);
    forall k ensures KeyWeight(out, k) == KeyWeight([ref], k) && TotalWeight([ref]) == 1 {
      OneRef(ref, k);
    }
    OneRef(ref, KeyOf(ref));
  }

  lemma {:induction false} SingleTraffic(ref: BackendRef, out: seq<BackendRef>, k: RefKey)
    requires ref.weight.None? && IsDedup([ref], out)
    ensures TotalWeight(out) == 1 && Share(out, k) == if KeyOf(ref) == k then 1.0 else 0.0
  {
    DedupOfOne(ref, out);
  }

  /** The two refs of a canary rule, in list order. */
  lemma {:induction false} TwoRefs(refs: seq<BackendRef>, canary: nat, stable: nat)
    requires |refs| == 2 && canary < 2 && stable < 2 && canary != stable
    ensures refs == if canary == 0 then [refs[canary], refs[stable]] else [refs[stable], refs[canary]]
  {
  }

  predicate TwoBackends(rule: RouteRule, plan: Plan) {
    && |rule.backendRefs| == 2 && rule.backendRefs[0].weight.None? && rule.backendRefs[1].weight.None?
    && plan.WithCanary? && plan.canary < 2 && plan.stable < 2 && plan.canary != plan.stable
    && 0 <= plan.config.weight <= plan.config.weightTotal < INT32_LIMIT && 0 < plan.config.weightTotal
    && (!plan.config.isWeight ==> plan.config.weight == 0)
  }

  lemma {:induction false} WeightedKeys(rule: RouteRule, plan: Plan, out: seq<BackendRef>, k: RefKey)
    requires TwoBackends(rule, plan) && plan.config.isWeight && IsDedup(Updated(rule, plan).backendRefs, out)
    ensures TotalWeight(out) == plan.config.weightTotal
    ensures KeyWeight(out, k) ==
            (if KeyOf(rule.backendRefs[plan.canary]) == k then plan.config.weight else 0)
            + (if KeyOf(rule.backendRefs[plan.stable]) == k then plan.config.weightTotal - plan.config.weight else 0)
  {
    var refs := Updated(rule, plan).backendRefs;
    var canary, stable := refs[plan.canary], refs[plan.stable];
    assert KeyOf(canary) == KeyOf(rule.backendRefs[plan.canary])
           && KeyOf(stable) == KeyOf(rule.backendRefs[plan.stable]);
    TwoRefs(refs, plan.canary, plan.stable);
    if plan.canary == 0 {
      WeightedPair(canary, stable, out, k);
    } else {
      WeightedPair(stable, canary, out, k);
    }
  }

  lemma {:induction false} WeightedTraffic(rule: RouteRule, plan: Plan, req: Request, out: seq<BackendRef>)
    requires TwoBackends(rule, plan) && plan.config.isWeight && IsDedup(Updated(rule, plan).backendRefs, out)
    requires !HeaderDecides(plan.config, req)
    ensures TotalWeight(out) != 0 && forall k :: Share(out, k) == Expected(rule, plan, req, k)
  {
    WeightedKeys(rule, plan, out, KeyOf(rule.backendRefs[0]));
    forall k ensures Share(out, k) == Expected(rule, plan, req, k) {
      WeightedShare(rule, plan, req, out, k);
    }
  }

  lemma {:induction false} WeightedShare(rule: RouteRule, plan: Plan, req: Request, out: seq<BackendRef>, k: RefKey)
    requires TwoBackends(rule, plan) && plan.config.isWeight && IsDedup(Updated(rule, plan).backendRefs, out)
    requires !HeaderDecides(plan.config, req)
    ensures TotalWeight(out) != 0 && Share(out, k) == Expected(rule, plan, req, k)
  {
    WeightedKeys(rule, plan, out, k);
    WeightedExpectation(rule, plan, req, k);
  }

  lemma {:induction false} WeightedExpectation(rule: RouteRule, plan: Plan, req: Request, k: RefKey)
    requires TwoBackends(rule, plan) && !HeaderDecides(plan.config, req)
    ensures var w, t := plan.config.weight, plan.config.weightTotal;
            Expected(rule, plan, req, k) ==
              ((if KeyOf(rule.backendRefs[plan.canary]) == k then w else 0)
               + (if KeyOf(rule.backendRefs[plan.stable]) == k then t - w else 0)) as real / t as real
  {
  }

  lemma {:induction false} UnweightedKeys(rule: RouteRule, plan: Plan, out: seq<BackendRef>, k: RefKey)
    requires TwoBackends(rule, plan) && IsDedup(rule.backendRefs, out)
    ensures var a, b := KeyOf(rule.backendRefs[plan.canary]), KeyOf(rule.backendRefs[plan.stable]);
            && (a != b ==> TotalWeight(out) == 2 && KeyWeight(out, a) == 1)
            && (a == b ==> TotalWeight(out) == 1 && KeyWeight(out, k) == if k == a then 1 else 0)
  {
    var canary, stable := rule.backendRefs[plan.canary], rule.backendRefs[plan.stable];
    TwoRefs(rule.backendRefs, plan.canary, plan.stable);
    if plan.canary == 0 {
      UnweightedPair(canary, stable, out, k);
    } else {
      UnweightedPair(stable, canary, out, k);
    }
  }

  /** A header-only canary: a request its header does not decide is asked to stay on the stable backend, yet half of
      such requests reach the canary. */
  lemma {:induction false} HeaderOnlyCanaryLeaks(rule: RouteRule, plan: Plan, req: Request, out: seq<BackendRef>)
    requires TwoBackends(rule, plan) && !plan.config.isWeight && !HeaderDecides(plan.config, req)
    requires KeyOf(rule.backendRefs[plan.canary]) != KeyOf(rule.backendRefs[plan.stable])
    requires IsDedup(rule.backendRefs, out)
    ensures Expected(rule, plan, req, KeyOf(rule.backendRefs[plan.canary])) == 0.0
    ensures TotalWeight(out) != 0 && Share(out, KeyOf(rule.backendRefs[plan.canary])) == 0.5
  {
    UnweightedKeys(rule, plan, out, KeyOf(rule.backendRefs[plan.canary]));
    PartOfNone(plan.config.weightTotal);
    Half(out, KeyOf(rule.backendRefs[plan.canary]));
  }

  lemma {:induction false} PartOfNone(total: int)
    requires total > 0
    ensures PartOf(Split(0, total), true, false) == 0.0
  {
  }

  lemma {:induction false} Half(out: seq<BackendRef>, k: RefKey)
    requires TotalWeight(out) == 2 && KeyWeight(out, k) == 1
    ensures Share(out, k) == 0.5
  {
  }

  lemma {:induction false} SameBackendTraffic(rule: RouteRule, plan: Plan, req: Request, out: seq<BackendRef>,
          k: RefKey)
    requires TwoBackends(rule, plan) && !plan.config.isWeight && IsDedup(rule.backendRefs, out)
    requires !HeaderDecides(plan.config, req)
    requires KeyOf(rule.backendRefs[plan.canary]) == KeyOf(rule.backendRefs[plan.stable])
    ensures TotalWeight(out) == 1 && Share(out, k) == Expected(rule, plan, req, k)
  {
    UnweightedKeys(rule, plan, out, k);
    PartOfAll(plan.config.weightTotal, KeyOf(rule.backendRefs[plan.canary]) == k);
  }

  lemma {:induction false} PartOfAll(total: int, here: bool)
    requires total > 0
    ensures PartOf(Split(0, total), here, here) == if here then 1.0 else 0.0
  {
    var t := total as real;
    assert t > 0.0;
    assert t / t == 1.0 && 0.0 / t == 0.0;
  }

  /** Without a weight annotation both backends are emitted unweighted and share alike; the annotations give the canary
      nothing. */
  lemma {:induction false} UnweightedTraffic(rule: RouteRule, plan: Plan, req: Request, out: seq<BackendRef>)
    requires TwoBackends(rule, plan) && !plan.config.isWeight && IsDedup(rule.backendRefs, out)
    requires !HeaderDecides(plan.config, req)
    ensures TotalWeight(out) != 0
    ensures (forall k :: Share(out, k) == Expected(rule, plan, req, k)) <==> Faithful(rule, plan, req)
  {
    var a := KeyOf(rule.backendRefs[plan.canary]);
    UnweightedKeys(rule, plan, out, a);
    if a != KeyOf(rule.backendRefs[plan.stable]) {
      HeaderOnlyCanaryLeaks(rule, plan, req, out);
    } else {
      forall k ensures Share(out, k) == Expected(rule, plan, req, k) {
        SameBackendTraffic(rule, plan, req, out, k);
      }
    }
  }

  lemma {:induction false} HeaderTraffic(rule: RouteRule, plan: Plan, req: Request, out: seq<BackendRef>)
    requires TwoBackends(rule, plan) && HeaderDecides(plan.config, req)
    requires IsDedup([Chosen(rule, plan, req)], out)
    ensures TotalWeight(out) != 0 && forall k :: Share(out, k) == Expected(rule, plan, req, k)
  {
    var ref := Chosen(rule, plan, req);
    SingleTraffic(ref, out, KeyOf(ref));
    forall k ensures Share(out, k) == Expected(rule, plan, req, k) {
      SingleTraffic(ref, out, k);
      HeaderExpectation(rule, plan, req, k);
    }
  }

  lemma {:induction false} HeaderExpectation(rule: RouteRule, plan: Plan, req: Request, k: RefKey)
    requires TwoBackends(rule, plan) && HeaderDecides(plan.config, req)
    ensures var ref := Chosen(rule, plan, req);
            Expected(rule, plan, req, k) == if KeyOf(ref) == k then 1.0 else 0.0
  {
  }

  /** The traffic is what the plan of the rule expects exactly when the plan can be trusted. */
  ghost predicate AsPlanned(rule: RouteRule, sources: seq<BackendSource>, req: Request, refs: seq<BackendRef>) {
    && TotalWeight(refs) != 0 && Plannable(rule, sources)
    && ((forall k :: Share(refs, k) == Expected(rule, PlanOf(sources), req, k)) <==>
        Faithful(rule, PlanOf(sources), req))
  }

  lemma {:induction false} OriginTraffic(rules: seq<RouteRule>, sources: seq<seq<BackendSource>>, req: Request, i: nat,
          r: RouteRule, refs: seq<BackendRef>)
    requires BaseRules(rules, sources) && AllFit(sources, |sources|) && FromBase(rules, sources, i, r)
    requires |r.matches| == 1 && Matches(r.matches[0], req) && TopOfBase(rules, sources, req, i, r.matches[0])
    requires IsDedup(r.backendRefs, refs)
    ensures AsPlanned(rules[i], sources[i], req, refs)
  {
    UpdatedFromBase(rules, sources, i);
    var rule, plan := rules[i], PlanOf(sources[i]);
    PlannableFits(rule, sources[i], i);
    if plan.Plain? {
      PlainTraffic(rule, sources[i], i, refs);
    } else if HeaderDecides(plan.config, req) {
      HeaderHit(rules, sources, req, i, r);
      HeaderTraffic(rule, plan, req, refs);
    } else {
      HeaderMiss(rules, sources, req, i, r);
      if plan.config.isWeight {
        WeightedTraffic(rule, plan, req, refs);
      } else {
        UnweightedTraffic(rule, plan, req, refs);
      }
    }
  }

  // ---- the same, on the annotations ----

  predicate MarkedCanary(s: BackendSource) {
    s.ingress.Some? && Annotation(s.ingress.value, CanaryKey) == "true"
  }

  /** Of two sources, the one marked as canary. */
  function CanaryAt(sources: seq<BackendSource>): nat
    requires |sources| == 2
  {
    if MarkedCanary(sources[0]) then 0 else 1
  }

  /** The rule's sources are one ordinary backend, or one and a canary with sane weights. */
  ghost predicate OneOrCanaryPair(rule: RouteRule, sources: seq<BackendSource>) {
    && |sources| == |rule.backendRefs|
    && ((|sources| == 1 && !MarkedCanary(sources[0]))
        || (|sources| == 2 && MarkedCanary(sources[0]) != MarkedCanary(sources[1])
            && SaneWeights(sources[CanaryAt(sources)].ingress.value)))
  }

  /** The part of a request's traffic that the annotations give the backend `k`. */
  ghost function AnnotatedShare(rule: RouteRule, sources: seq<BackendSource>, req: Request, k: RefKey): real
    requires OneOrCanaryPair(rule, sources)
  {
    if |sources| == 1 then if RefersTo(rule.backendRefs[0], k) then 1.0 else 0.0
    else
      var c := CanaryAt(sources);
      PartFor(CanaryPart(sources[c].ingress.value, req),
              RefersTo(rule.backendRefs[c], k), RefersTo(rule.backendRefs[1 - c], k))
  }

  /** The header decides, a weight is annotated, or there is one backend only. */
  ghost predicate Settled(rule: RouteRule, sources: seq<BackendSource>, req: Request)
    requires OneOrCanaryPair(rule, sources)
  {
    |sources| == 2 ==>
      AnnotationsDecide(sources[CanaryAt(sources)].ingress.value, req)
      || SameBackend(rule.backendRefs[0], rule.backendRefs[1])
  }

  /** The traffic is what the annotations ask for, for every backend, exactly when they settle the request. */
  ghost predicate AsAnnotated(rule: RouteRule, sources: seq<BackendSource>, req: Request, refs: seq<BackendRef>) {
    && TotalWeight(refs) != 0 && OneOrCanaryPair(rule, sources)
    && ((forall k :: Share(refs, k) == AnnotatedShare(rule, sources, req, k)) <==> Settled(rule, sources, req))
  }

  lemma {:induction false} VerdictMeans(ing: Ingress, req: Request, isCanary: bool, isOther: bool)
    requires ValidCanary(ing)
    ensures SaneWeights(ing)
    ensures PartOf(Verdict(ConfigOf(ing), req), isCanary, isOther) == PartFor(CanaryPart(ing, req), isCanary, isOther)
    ensures HeaderDecides(ConfigOf(ing), req) <==> HeaderSays(ing, req, true) || HeaderSays(ing, req, false)
  {
    ValidIff(ing);
    ConfigMeans(ing);
    var c := ConfigOf(ing);
    if HeaderSays(ing, req, true) || HeaderSays(ing, req, false) {
    } else {
      WeightShare(ing, req, c.weight, c.weightTotal);
      PartsOfTotal(c.weight, c.weightTotal, isCanary, isOther);
    }
  }

  lemma {:induction false} PartsOfTotal(w: int, t: int, isCanary: bool, isOther: bool)
    requires 0 < t
    ensures PartOf(Split(w, t), isCanary, isOther) == PartFor(w as real / t as real, isCanary, isOther)
  {
    RestOfTotal(w as real, t as real);
    assert (t - w) as real == t as real - w as real;
    assert t as real / t as real == 1.0;
    assert 0.0 / t as real == 0.0;
  }

  lemma {:induction false} RestOfTotal(w: real, t: real)
    requires t > 0.0
    ensures (t - w) / t == 1.0 - w / t
  {
    var p, q := (t - w) / t, w / t;
    assert p * t == t - w && q * t == w;
    SameFactor(p, 1.0 - q, t);
  }

  lemma {:induction false} SameFactor(a: real, b: real, t: real)
    requires t > 0.0 && a * t == b * t
    ensures a == b
  {
    assert (a - b) * t == 0.0;
    Sign(a - b, t);
  }

  lemma {:induction false} Sign(x: real, t: real)
    requires t > 0.0
    ensures (x > 0.0 ==> x * t > 0.0) && (x < 0.0 ==> x * t < 0.0)
  {
  }

  lemma {:induction false} PlanMeans(rule: RouteRule, sources: seq<BackendSource>, i: nat, req: Request, k: RefKey)
    requires BaseRule(rule, sources, i) && CanaryFits(sources)
    ensures OneOrCanaryPair(rule, sources) && Plannable(rule, sources)
    ensures Expected(rule, PlanOf(sources), req, k) == AnnotatedShare(rule, sources, req, k)
    ensures Faithful(rule, PlanOf(sources), req) <==> Settled(rule, sources, req)
  {
    PlannableFits(rule, sources, i);
    PlanFound(sources, i);
    forall r { KeyMeans(r, r, k); }
    var plan := PlanOf(sources);
    if plan.WithCanary? {
      PairMeans(rule, sources, req, k);
    } else {
      assert rule.backendRefs == [rule.backendRefs[0]];
      OneRef(rule.backendRefs[0], k);
    }
  }

  lemma {:induction false} PairMeans(rule: RouteRule, sources: seq<BackendSource>, req: Request, k: RefKey)
    requires |sources| == |rule.backendRefs| == 2 && PlanOf(sources).WithCanary? && Plannable(rule, sources)
    requires forall j | 0 <= j < 2 :: sources[j].ingress.Some?
    ensures OneOrCanaryPair(rule, sources)
    ensures Expected(rule, PlanOf(sources), req, k) == AnnotatedShare(rule, sources, req, k)
    ensures Faithful(rule, PlanOf(sources), req) <==> Settled(rule, sources, req)
  {
    var plan := PlanOf(sources);
    var c := CanaryAt(sources);
    var ing := sources[plan.canary].ingress.value;
    KeyMeans(rule.backendRefs[0], rule.backendRefs[1], k);
    KeyMeans(rule.backendRefs[1], rule.backendRefs[0], k);
    PlanIsPair(rule, sources);
    VerdictMeans(ing, req, KeyOf(rule.backendRefs[c]) == k, KeyOf(rule.backendRefs[1 - c]) == k);
    ConfigMeans(ing);
  }

  lemma {:induction false} PlanIsPair(rule: RouteRule, sources: seq<BackendSource>)
    requires |sources| == |rule.backendRefs| == 2 && PlanOf(sources).WithCanary? && Plannable(rule, sources)
    requires forall j | 0 <= j < 2 :: sources[j].ingress.Some?
    ensures var plan, c := PlanOf(sources), CanaryAt(sources);
            && plan.canary == c && plan.stable == 1 - c && MarkedCanary(sources[0]) != MarkedCanary(sources[1])
            && ValidCanary(sources[c].ingress.value) && plan.config == ConfigOf(sources[c].ingress.value)
  {
  }

  lemma {:induction false} PlannedIsAnnotated(rule: RouteRule, sources: seq<BackendSource>, i: nat, req: Request,
          refs: seq<BackendRef>)
    requires BaseRule(rule, sources, i) && CanaryFits(sources) && AsPlanned(rule, sources, req, refs)
    ensures AsAnnotated(rule, sources, req, refs)
  {
    forall k
      ensures OneOrCanaryPair(rule, sources)
      ensures Expected(rule, PlanOf(sources), req, k) == AnnotatedShare(rule, sources, req, k)
      ensures Faithful(rule, PlanOf(sources), req) <==> Settled(rule, sources, req)
    {
      PlanMeans(rule, sources, i, req, k);
    }
    PlanMeans(rule, sources, i, req, KeyOf(rule.backendRefs[0]));
  }

  /** Canary routing keeps its meaning. Take a route as converted, expand its canaries without error, remove duplicates
      and sort, in any of the ways the maps and sorts allow. Whichever rule then serves a request, its traffic is what
      the annotations of the base rule ask for: canary on a header hit, stable on `never`, weight : total - weight
      otherwise. This holds exactly when the header decides, a weight is annotated, or both backends are the same. */
  lemma {:induction false} CanaryRoutingMeaning(rules: seq<RouteRule>, sources: seq<seq<BackendSource>>,
          out: seq<RouteRule>, req: Request, i: nat, w: nat)
    requires BaseRoute(rules, sources) && Indexable(rules, sources)
    requires Expand(rules, sources, |sources|).errors == []
    requires Emits(rules, sources, out) && IsWinner(rules, req, i) && IsWinner(out, req, w)
    ensures i < |sources| && AsAnnotated(rules[i], sources[i], req, out[w].backendRefs)
  {
    ExpandErrorFree(rules, sources, |sources|);
    var r := WinnerOrigin(rules, sources, out, req, i, w);
    OriginTraffic(rules, sources, req, i, r, out[w].backendRefs);
    assert BaseRule(rules[i], sources[i], i);
    PlannedIsAnnotated(rules[i], sources[i], i, req, out[w].backendRefs);
  }

  /** The same when rules may share a match, as those of two paths can that differ in type only: the rule that serves
      comes from a rule of highest precedence, and splits the traffic as that one's annotations ask. */
  lemma {:induction false} SharedMatchRouting(rules: seq<RouteRule>, sources: seq<seq<BackendSource>>,
          out: seq<RouteRule>, req: Request, w: nat)
    returns (i: nat)
    requires BaseRules(rules, sources) && Indexable(rules, sources)
    requires Expand(rules, sources, |sources|).errors == []
    requires Emits(rules, sources, out) && IsWinner(out, req, w)
    ensures IsTop(rules, req, i) && i < |sources| && AsAnnotated(rules[i], sources[i], req, out[w].backendRefs)
  {
    ExpandErrorFree(rules, sources, |sources|);
    var r;
    i, r := OriginOfWinner(rules, sources, out, req, w);
    OriginTraffic(rules, sources, req, i, r, out[w].backendRefs);
    assert BaseRule(rules[i], sources[i], i);
    PlannedIsAnnotated(rules[i], sources[i], i, req, out[w].backendRefs);
  }

  /** The plan's indices and weights are in range. */
  ghost predicate Plannable(rule: RouteRule, sources: seq<BackendSource>) {
    var plan := PlanOf(sources);
    if plan.Plain? then TotalWeight(rule.backendRefs) == 1 else TwoBackends(rule, plan)
  }

  lemma {:induction false} PlanConfigBounds(sources: seq<BackendSource>)
    ensures var plan := PlanOf(sources);
            plan.WithCanary? ==> 0 <= plan.config.weight <= plan.config.weightTotal < INT32_LIMIT
                                 && 0 < plan.config.weightTotal && (!plan.config.isWeight ==> plan.config.weight == 0)
  {
  }

  lemma {:induction false} PlannableFits(rule: RouteRule, sources: seq<BackendSource>, i: nat)
    requires BaseRule(rule, sources, i) && CanaryFits(sources)
    ensures Plannable(rule, sources)
  {
    PlanFound(sources, i);
    PlanConfigBounds(sources);
    if PlanOf(sources).Plain? {
      assert rule.backendRefs == [rule.backendRefs[0]];
      OneRef(rule.backendRefs[0], KeyOf(rule.backendRefs[0]));
    }
  }

  lemma {:induction false} HeaderHit(rules: seq<RouteRule>, sources: seq<seq<BackendSource>>, req: Request, i: nat,
          r: RouteRule)
    requires BaseRules(rules, sources) && FromBase(rules, sources, i, r)
    requires PlanOf(sources[i]).WithCanary? && HeaderDecides(PlanOf(sources[i]).config, req)
    requires |r.matches| == 1 && Matches(r.matches[0], req)
    requires TopOfBase(rules, sources, req, i, r.matches[0])
    ensures var plan := PlanOf(sources[i]);
            r.backendRefs == [Chosen(rules[i], plan, req)]
  {
    var plan := PlanOf(sources[i]);
    FromBaseShape(rules, sources, i, r, req);
    var h := HeaderRuleExists(rules[i], plan, req);
    assert FromBase(rules, sources, i, h);
    FromBaseShape(rules, sources, i, h, req);
    assert r in Headers(rules[i], plan);
    HeaderRuleMatches(rules[i], plan, req, r);
  }

  lemma {:induction false} HeaderMiss(rules: seq<RouteRule>, sources: seq<seq<BackendSource>>, req: Request, i: nat,
          r: RouteRule)
    requires BaseRules(rules, sources) && FromBase(rules, sources, i, r)
    requires PlanOf(sources[i]).WithCanary? && !HeaderDecides(PlanOf(sources[i]).config, req)
    requires |r.matches| == 1 && Matches(r.matches[0], req)
    ensures r == Updated(rules[i], PlanOf(sources[i]))
  {
    if r in Headers(rules[i], PlanOf(sources[i])) {
      HeaderRuleMatches(rules[i], PlanOf(sources[i]), req, r);
    }
  }

  /** A request is served after expansion iff it was before. */
  lemma {:induction false} CanaryRoutingTotal(rules: seq<RouteRule>, sources: seq<seq<BackendSource>>,
          out: seq<RouteRule>, req: Request)
    requires BaseRules(rules, sources) && Indexable(rules, sources)
    requires Expand(rules, sources, |sources|).errors == [] && Emits(rules, sources, out)
    ensures (exists i: nat :: IsWinner(rules, req, i)) <==> (exists w: nat :: IsWinner(out, req, w))
  {
    ExpandErrorFree(rules, sources, |sources|);
    forall i | 0 <= i < |rules| ensures |rules[i].matches| == 1 {
      assert BaseRule(rules[i], sources[i], i);
    }
    forall w | 0 <= w < |out| ensures |out[w].matches| == 1 {
      var i, r := EmittedOrigin(rules, sources, out, w);
      FromBaseShape(rules, sources, i, r, req);
    }
    WinnerExists(rules, req);
    WinnerExists(out, req);
    if SomeMatch(rules, req) {
      var i :| 0 <= i < |rules| && Matches(rules[i].matches[0], req);
      UpdatedFromBase(rules, sources, i);
      var u := Updated(rules[i], PlanOf(sources[i]));
      FromBaseShape(rules, sources, i, u, req);
      var w := EmittedKeeps(rules, sources, out, i, u);
      assert Matches(out[w].matches[0], req);
    }
    if SomeMatch(out, req) {
      var w :| 0 <= w < |out| && Matches(out[w].matches[0], req);
      var i, r := EmittedOrigin(rules, sources, out, w);
      FromBaseShape(rules, sources, i, r, req);
      assert BaseRule(rules[i], sources[i], i);
      assert Matches(rules[i].matches[0], req);
    }
  }

  /** The emission passes do emit the expanded route. */
  lemma {:induction false} PassesEmit(rules: seq<RouteRule>, sources: seq<seq<BackendSource>>, mid: seq<RouteRule>,
          order: seq<RouteRule>, out: seq<RouteRule>)
    requires Indexable(rules, sources)
    requires Deduped(Final(rules, sources), mid) && SortedRoute(mid, order, out)
    ensures Emits(rules, sources, out)
  {
    EmittedFrom(Final(rules, sources), mid, order, out);
  }

  lemma {:induction false} ExpansionLeaves(rules: seq<RouteRule>, sources: seq<seq<BackendSource>>, i: nat,
          r: RouteRule)
    requires BaseRoute(rules, sources) && FromBase(rules, sources, i, r)
    ensures RefsOfExpansion(r.backendRefs)
  {
    var rule, plan := rules[i], PlanOf(sources[i]);
    PlannableFits(rule, sources[i], i);
    PlanFound(sources[i], i);
    if plan.WithCanary? {
      if r in Headers(rule, plan) {
        HeaderLeaves(rule, plan, r);
      } else {
        WeightedLeaves(rule, plan);
      }
    }
  }

  lemma {:induction false} HeaderLeaves(rule: RouteRule, plan: Plan, h: RouteRule)
    requires rule.name.Some? && TwoBackends(rule, plan) && h in Headers(rule, plan)
    ensures RefsOfExpansion(h.backendRefs)
  {
  }

  lemma {:induction false} WeightedLeaves(rule: RouteRule, plan: Plan)
    requires TwoBackends(rule, plan)
    ensures RefsOfExpansion(Updated(rule, plan).backendRefs)
  {
  }

  /** Every rule of a route converted without error, whose canaries fit, keeps each backend's share through the
      de-duplication, and its total weight too unless it names one backend twice without weights. */
  lemma {:induction false} RouteDedupKeepsShares(rules: seq<RouteRule>, sources: seq<seq<BackendSource>>, q: nat,
          out: seq<BackendRef>)
    requires BaseRoute(rules, sources) && Indexable(rules, sources)
    requires Expand(rules, sources, |sources|).errors == []
    requires q < |Final(rules, sources)| && IsDedup(Final(rules, sources)[q].backendRefs, out)
    ensures var refs := Final(rules, sources)[q].backendRefs;
            && TotalWeight(refs) > 0 && TotalWeight(out) > 0
            && (forall k :: Share(out, k) == Share(refs, k))
            && (TotalWeight(out) == TotalWeight(refs) <==> !OneBackendTwice(refs))
  {
    ExpandErrorFree(rules, sources, |sources|);
    var i := FinalFromBase(rules, sources, q);
    ExpansionLeaves(rules, sources, i, Final(rules, sources)[q]);
    DedupKeepsShares(Final(rules, sources)[q].backendRefs, out);
  }

  // ---- the stages run in sequence ----

  lemma {:induction false} ExpandedWeights(rule: RouteRule, i: nat, sources: seq<BackendSource>, r: RouteRule)
    requires BaseRule(rule, sources, i)
    requires r in ExpandRule(rule, i, sources).prepended || r == ExpandRule(rule, i, sources).rules[0]
    ensures WeightsInInt32(r.backendRefs)
  {
  }

  lemma {:induction false} FinalWeights(rules: seq<RouteRule>, sources: seq<seq<BackendSource>>, q: nat)
    requires BaseRoute(rules, sources) && Indexable(rules, sources) && q < |Final(rules, sources)|
    ensures WeightsInInt32(Final(rules, sources)[q].backendRefs)
  {
    var e := Expand(rules, sources, |sources|);
    var i: nat;
    if q < |e.prepended| {
      i := PrependedFrom(rules, sources, |sources|, q);
    } else {
      i := q - |e.prepended|;
      ExpandAt(rules, sources, |sources|, i);
    }
    assert BaseRule(rules[i], sources[i], i);
    ExpandedWeights(rules[i], i, sources[i], Final(rules, sources)[q]);
  }

  /** canaryFeature, the de-duplication of ToGatewayResources and sortGatewayResources, one after the other on a
      converted route: the result is one the routing theorems speak about. */
  method EmitRoute(nn: NamespacedName, rules: seq<RouteRule>, sources: seq<seq<BackendSource>>)
    returns (out: seq<RouteRule>, errors: seq<CanaryError>)
    requires BaseRoute(rules, sources)
    ensures Indexable(rules, sources) && Emits(rules, sources, out)
    ensures errors == [] <==> AllFit(sources, |sources|)
  {
    BaseIsIndexable(rules, sources);
    ExpandErrorFree(rules, sources, |sources|);
    var ctx := new HTTPRouteContext(nn, rules);
    errors := ctx.ApplyCanary(sources);
    forall q | 0 <= q < |ctx.rules| ensures WeightsInInt32(ctx.rules[q].backendRefs) {
      FinalWeights(rules, sources, q);
    }
    var route := new EmittedRoute(ctx.rules);
    route.RemoveDuplicates();
    ghost var mid := route.rules;
    route.Sort();
    ghost var order :| SortedRoute(mid, order, route.rules);
    PassesEmit(rules, sources, mid, order, route.rules);
    out := route.rules;
  }

  // ---- converted routes qualify ----

  lemma {:induction false} RefsUnweighted(namespace: string, g: seq<SourcedPath>, env: Env)
    requires RefErrors(namespace, g, env) == []
    ensures |RefsOf(namespace, g, env)| == |g| == |SourcesOf(namespace, g, env)|
    ensures forall j | 0 <= j < |g| ::
              RefsOf(namespace, g, env)[j].weight.None? && SourcesOf(namespace, g, env)[j].ingress.Some?
  {
    if g != [] {
      RefsUnweighted(namespace, g[..|g| - 1], env);
    }
  }

  lemma {:induction false} BaseRulesSnoc(b: Built, t: Built, rule: RouteRule, s: seq<BackendSource>)
    requires BaseRules(t.rules, t.sources) && BaseRule(rule, s, |t.rules|)
    requires b.rules == t.rules + [rule] && b.sources == t.sources + [s]
    ensures BaseRules(b.rules, b.sources) && |b.rules| == |t.rules| + 1
  {
  }

  lemma {:induction false} BuiltBaseStep(namespace: string, groups: seq<seq<SourcedPath>>, env: Env)
    returns (rule: RouteRule, s: seq<BackendSource>)
    requires NonEmptyGroups(groups) && groups != [] && BuildRules(namespace, groups, env).errors == []
    ensures var b, t := BuildRules(namespace, groups, env), BuildRules(namespace, groups[..|groups| - 1], env);
            && t.errors == [] && b.rules == t.rules + [rule] && b.sources == t.sources + [s]
            && BaseRule(rule, s, |groups| - 1)
  {
    var n := |groups| - 1;
    var g := groups[n];
    RefsUnweighted(namespace, g, env);
    RuleNameIsNumbered(g, n);
    rule, s := RuleOf(namespace, g, n, ToRouteMatch(g[0].path, env).value, env), SourcesOf(namespace, g, env);
  }

  lemma {:induction false} BuiltIsBase(namespace: string, groups: seq<seq<SourcedPath>>, env: Env)
    requires NonEmptyGroups(groups) && BuildRules(namespace, groups, env).errors == []
    ensures |BuildRules(namespace, groups, env).rules| == |groups|
    ensures BaseRules(BuildRules(namespace, groups, env).rules, BuildRules(namespace, groups, env).sources)
  {
    if groups != [] {
      var t := groups[..|groups| - 1];
      var rule, s := BuiltBaseStep(namespace, groups, env);
      BuiltIsBase(namespace, t, env);
      BaseRulesSnoc(BuildRules(namespace, groups, env), BuildRules(namespace, t, env), rule, s);
    }
  }

  lemma {:induction false} RuleNameIsNumbered(g: seq<SourcedPath>, n: nat)
    requires g != [] && g[0].path.pathType.Some?
    ensures NumberedName(RuleName(g[0].path.pathType.value, g[0].path.path, n), n)
  {
  }

  /** A route converted without error qualifies, if no two of its rules translate to the same path match. */
  lemma {:induction false} ConvertedRouteQualifies(rg: RuleGroup, env: Env)
    requires BuiltOf(rg, env).errors == []
    ensures var ctx := RouteOf(rg, env);
            && BaseRules(ctx.route.rules, ctx.sources)
            && (DistinctMatches(ctx.route.rules) <==> BaseRoute(ctx.route.rules, ctx.sources))
  {
    BuiltIsBase(rg.namespace, MatchGroupsOf(rg.rules), env);
    BaseRulesDistinct(BuiltOf(rg, env).rules, BuiltOf(rg, env).sources);
  }

  /** No two rules have the same match. */
  ghost predicate DistinctMatches(rules: seq<RouteRule>) {
    forall i, j | 0 <= i < j < |rules| :: rules[i].matches != rules[j].matches
  }

  lemma {:induction false} BaseRulesDistinct(rules: seq<RouteRule>, sources: seq<seq<BackendSource>>)
    requires BaseRules(rules, sources)
    ensures DistinctMatches(rules) <==> BaseRoute(rules, sources)
  {
    forall i, j | 0 <= i < j < |rules|
      ensures rules[i].matches != rules[j].matches <==> rules[i].matches[0].path != rules[j].matches[0].path
    {
      assert BaseRule(rules[i], sources[i], i) && BaseRule(rules[j], sources[j], j);
    }
  }
}
