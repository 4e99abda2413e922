/** Canary annotations expand one rule into up to three: header rules are prepended to the route, weights are split in
    place. */
module Canary {
  import opened Text
  import opened Names
  import opened Kube
  import opened Paths
  import opened Dedup
  import opened Resolution
  import opened IngressSpec

  // ---- configuration ----

  datatype CanaryConfig = CanaryConfig(
    isWeight: bool,
    isHeader: bool,
    weight: int,
    weightTotal: int,
    header: string,
    headerValue: string)

  datatype BadAnnotation =
    InvalidWeight | NegativeWeight | InvalidWeightTotal | NonPositiveWeightTotal | WeightExceedsTotal

  /** strconv.ParseInt(s, 10, 32): an optional sign, at least one digit, and a value that fits an int32. */
  function ParseInt32(s: string): (r: Option<int>)
    ensures r.Some? ==> -0x8000_0000 <= r.value < 0x8000_0000
  {
    var signed := s != "" && (s[0] == '+' || s[0] == '-');
    var digits := if signed then s[1..] else s;
    if digits == "" || exists c | c in digits :: !IsDigit(c) then None
    else
      var d: int := DecimalValue(digits);
      var v := if signed && s[0] == '-' then -d else d;
      if -0x8000_0000 <= v < 0x8000_0000 then Some(v) else None
  }

  /** Every int32 parses back from its decimal form, and nothing larger does. */
  lemma {:induction false} ParseInt32OfDecimal(n: int)
    ensures ParseInt32(DecimalInt(n)) == if -0x8000_0000 <= n < 0x8000_0000 then Some(n) else None
  {
    var digits := Decimal(if n < 0 then -n else n);
    DecimalRoundTrip(if n < 0 then -n else n);
    assert forall c | c in digits :: IsDigit(c);
    if n < 0 {
      var s := "-" + digits;
      assert s[0] == '-' && s[1..] == digits;
    } else {
      assert digits[0] in digits;
    }
  }

  /** The weight the annotation sets: 0 when absent. */
  function WeightOf(ing: Ingress): Option<int> {
    if Annotation(ing, CanaryWeightKey) == "" then Some(0) else ParseInt32(Annotation(ing, CanaryWeightKey))
  }

  /** The total the annotation sets: 100 when absent. */
  function WeightTotalOf(ing: Ingress): Option<int> {
    if Annotation(ing, CanaryWeightTotalKey) == "" then Some(100) else ParseInt32(Annotation(ing, CanaryWeightTotalKey))
  }

  /** The annotations make sense together. */
  predicate ValidCanary(ing: Ingress) {
    && WeightOf(ing).Some? && WeightTotalOf(ing).Some?
    && 0 <= WeightOf(ing).value <= WeightTotalOf(ing).value && 0 < WeightTotalOf(ing).value
  }

  function ConfigOf(ing: Ingress): CanaryConfig
    requires ValidCanary(ing)
  {
    var header := Annotation(ing, CanaryHeaderKey);
    CanaryConfig(Annotation(ing, CanaryWeightKey) != "", header != "",
                 WeightOf(ing).value, WeightTotalOf(ing).value,
                 header, if header != "" then Annotation(ing, CanaryHeaderValueKey) else "")
  }

  /** What ParseInt accepts: the numerals of int32 numbers. */
  lemma {:induction false} ParseInt32Iff(s: string, n: int)
    ensures ParseInt32(s) == Some(n) <==> Numeral(s, n) && InInt32(n)
  {
    if s != "" && (s[0] == '+' || s[0] == '-') {
      SignedNumeral(s, n);
    } else {
      UnsignedNumeral(s, n);
    }
  }

  lemma {:induction false} SignedNumeral(s: string, n: int)
    requires s != "" && (s[0] == '+' || s[0] == '-')
    ensures Numeral(s, n) <==>
            s[1..] != "" && (forall c | c in s[1..] :: IsDigit(c))
            && var d: int := DecimalValue(s[1..]); n == if s[0] == '-' then -d else d
  {
    assert s[0] in s && !IsDigit(s[0]);
    if n >= 0 {
      DigitsIff(s, n);
      DigitsIff(s[1..], n);
    }
    if n <= 0 {
      DigitsIff(s[1..], -n);
    }
  }

  lemma {:induction false} UnsignedNumeral(s: string, n: int)
    requires s == "" || (s[0] != '+' && s[0] != '-')
    ensures Numeral(s, n) <==> s != "" && (forall c | c in s :: IsDigit(c)) && n == DecimalValue(s)
  {
    if n >= 0 {
      DigitsIff(s, n);
    }
  }

  lemma {:induction false} WeightsMean(ing: Ingress, n: int)
    ensures WeightOf(ing) == Some(n) <==> Sets(Annotation(ing, CanaryWeightKey), 0, n)
    ensures WeightTotalOf(ing) == Some(n) <==> Sets(Annotation(ing, CanaryWeightTotalKey), 100, n)
  {
    ParseInt32Iff(Annotation(ing, CanaryWeightKey), n);
    ParseInt32Iff(Annotation(ing, CanaryWeightTotalKey), n);
  }

  lemma {:induction false} ValidIff(ing: Ingress)
    ensures ValidCanary(ing) <==> SaneWeights(ing)
  {
    if ValidCanary(ing) {
      WeightsMean(ing, WeightOf(ing).value);
      WeightsMean(ing, WeightTotalOf(ing).value);
      assert WeightsSay(ing, WeightOf(ing).value, WeightTotalOf(ing).value);
    }
    if w, t :| WeightsSay(ing, w, t) {
      WeightsMean(ing, w);
      WeightsMean(ing, t);
    }
  }

  /** The configuration holds what the annotations say. */
  ghost predicate Says(ing: Ingress, c: CanaryConfig) {
    && (c.isWeight <==> Annotation(ing, CanaryWeightKey) != "") && WeightsSay(ing, c.weight, c.weightTotal)
    && (c.isHeader <==> Annotation(ing, CanaryHeaderKey) != "") && c.header == Annotation(ing, CanaryHeaderKey)
    && (c.isHeader ==> c.headerValue == Annotation(ing, CanaryHeaderValueKey))
  }

  lemma {:induction false} ConfigMeans(ing: Ingress)
    requires ValidCanary(ing)
    ensures Says(ing, ConfigOf(ing))
  {
    WeightsMean(ing, WeightOf(ing).value);
    WeightsMean(ing, WeightTotalOf(ing).value);
  }

  /** No int32 is set. */
  ghost predicate SetsNothing(annotation: string, default: int) { forall n :: !Sets(annotation, default, n) }

  lemma {:induction false} WeightMissing(ing: Ingress)
    ensures WeightOf(ing).None? <==> SetsNothing(Annotation(ing, CanaryWeightKey), 0)
    ensures WeightTotalOf(ing).None? <==> SetsNothing(Annotation(ing, CanaryWeightTotalKey), 100)
  {
    forall n {
      WeightsMean(ing, n);
    }
    if WeightOf(ing).Some? {
      assert Sets(Annotation(ing, CanaryWeightKey), 0, WeightOf(ing).value);
    }
    if WeightTotalOf(ing).Some? {
      assert Sets(Annotation(ing, CanaryWeightTotalKey), 100, WeightTotalOf(ing).value);
    }
  }

  /** Some int32 with the property is set. */
  ghost predicate SetsSome(annotation: string, default: int, f: int -> bool) {
    exists n :: Sets(annotation, default, n) && f(n)
  }

  lemma {:induction false} SetsSomeIff(ing: Ingress, f: int -> bool)
    ensures WeightOf(ing).Some? && f(WeightOf(ing).value) <==> SetsSome(Annotation(ing, CanaryWeightKey), 0, f)
    ensures WeightTotalOf(ing).Some? && f(WeightTotalOf(ing).value) <==>
            SetsSome(Annotation(ing, CanaryWeightTotalKey), 100, f)
  {
    forall n {
      WeightsMean(ing, n);
    }
    if WeightOf(ing).Some? {
      assert Sets(Annotation(ing, CanaryWeightKey), 0, WeightOf(ing).value);
    }
    if WeightTotalOf(ing).Some? {
      assert Sets(Annotation(ing, CanaryWeightTotalKey), 100, WeightTotalOf(ing).value);
    }
  }

  lemma {:induction false} ConfigMeansAll(ing: Ingress)
    ensures ValidCanary(ing) <==> SaneWeights(ing)
    ensures ValidCanary(ing) ==> Says(ing, ConfigOf(ing))
    ensures WeightOf(ing).None? <==> SetsNothing(Annotation(ing, CanaryWeightKey), 0)
    ensures WeightTotalOf(ing).None? <==> SetsNothing(Annotation(ing, CanaryWeightTotalKey), 100)
    ensures WeightOf(ing).Some? && WeightOf(ing).value < 0 <==>
            SetsSome(Annotation(ing, CanaryWeightKey), 0, n => n < 0)
    ensures WeightTotalOf(ing).Some? && WeightTotalOf(ing).value <= 0 <==>
            SetsSome(Annotation(ing, CanaryWeightTotalKey), 100, t => t <= 0)
  {
    ValidIff(ing);
    WeightMissing(ing);
    SetsSomeIff(ing, n => n < 0);
    SetsSomeIff(ing, t => t <= 0);
    if ValidCanary(ing) {
      ConfigMeans(ing);
    }
  }

  /** parseCanaryConfig */
  method ParseCanaryConfig(ing: Ingress) returns (r: Result<CanaryConfig, BadAnnotation>)
    ensures r.Ok? <==> SaneWeights(ing)
    ensures r.Ok? <==> ValidCanary(ing)
    ensures r.Ok? ==> ValidCanary(ing) && r.value == ConfigOf(ing) && Says(ing, r.value)
    ensures var w, t := Annotation(ing, CanaryWeightKey), Annotation(ing, CanaryWeightTotalKey);
            && (r == Err(InvalidWeight) <==> SetsNothing(w, 0))
            && (r == Err(NegativeWeight) <==> SetsSome(w, 0, n => n < 0))
            && (r == Err(InvalidWeightTotal) <==>
                !SetsNothing(w, 0) && !SetsSome(w, 0, n => n < 0) && SetsNothing(t, 100))
            && (r == Err(NonPositiveWeightTotal) <==>
                !SetsNothing(w, 0) && !SetsSome(w, 0, n => n < 0) && SetsSome(t, 100, n => n <= 0))
  {
    ConfigMeansAll(ing);
    var config := CanaryConfig(false, false, 0, 100, "", "");
    var weight := Annotation(ing, CanaryWeightKey);
    if weight != "" {
      config := config.(isWeight := true);
      var w := ParseInt32(weight);
      if w.None? {
        return Err(InvalidWeight);
      }
      if w.value < 0 {
        return Err(NegativeWeight);
      }
      config := config.(weight := w.value);
    }
    var total := Annotation(ing, CanaryWeightTotalKey);
    if total != "" {
      var wt := ParseInt32(total);
      if wt.None? {
        return Err(InvalidWeightTotal);
      }
      if wt.value <= 0 {
        return Err(NonPositiveWeightTotal);
      }
      config := config.(weightTotal := wt.value);
    }
    if config.weight > config.weightTotal {
      return Err(WeightExceedsTotal);
    }
    var header := Annotation(ing, CanaryHeaderKey);
    if header != "" {
      config := config.(isHeader := true, header := header);
      var headerValue := Annotation(ing, CanaryHeaderValueKey);
      if headerValue != "" {
        config := config.(headerValue := headerValue);
      }
    }
    return Ok(config);
  }

  // ---- scanning the backends of one rule ----

  datatype CanaryError =
    | RuleIndexExceedsRules(ruleIdx: nat)
    | SecondCanary(ruleIdx: nat)
    | BadCanary(ruleIdx: nat)
    | SecondNonCanary(ruleIdx: nat)
    | CanaryWithoutNonCanary(ruleIdx: nat)

  /** The backends found so far, by index into the rule's backendRefs. */
  datatype Found = Found(
    canary: Option<nat>,
    stable: Option<nat>,
    config: Option<CanaryConfig>,
    errors: seq<CanaryError>)

  predicate IsCanary(s: BackendSource) { s.ingress.Some? && Annotation(s.ingress.value, CanaryKey) == "true" }
  predicate IsStable(s: BackendSource) { s.ingress.Some? && Annotation(s.ingress.value, CanaryKey) != "true" }

  function Scan(ruleIdx: nat, sources: seq<BackendSource>): (f: Found)
    ensures f.canary.Some? ==> f.canary.value < |sources| && IsCanary(sources[f.canary.value])
                               && ValidCanary(sources[f.canary.value].ingress.value)
                               && f.config == Some(ConfigOf(sources[f.canary.value].ingress.value))
    ensures f.stable.Some? ==> f.stable.value < |sources| && IsStable(sources[f.stable.value])
  {
    if sources == [] then Found(None, None, None, [])
    else
      var n := |sources| - 1;
      var f := Scan(ruleIdx, sources[..n]);
      var s := sources[n];
      if s.ingress.None? then f
      else if IsCanary(s) then
        if f.canary.Some? then f.(errors := f.errors + [SecondCanary(ruleIdx)])
        else if !ValidCanary(s.ingress.value) then f.(errors := f.errors + [BadCanary(ruleIdx)])
        else f.(canary := Some(n), config := Some(ConfigOf(s.ingress.value)))
      else if f.stable.Some? then f.(errors := f.errors + [SecondNonCanary(ruleIdx)])
      else f.(stable := Some(n))
  }

  ghost predicate HasCanary(sources: seq<BackendSource>) { exists i | 0 <= i < |sources| :: IsCanary(sources[i]) }
  ghost predicate HasStable(sources: seq<BackendSource>) { exists i | 0 <= i < |sources| :: IsStable(sources[i]) }

  /** At most one canary backend, with annotations that make sense, and at most one other backend. */
  ghost predicate Unambiguous(sources: seq<BackendSource>) {
    && (forall i, j | 0 <= i < j < |sources| :: !(IsCanary(sources[i]) && IsCanary(sources[j])))
    && (forall i, j | 0 <= i < j < |sources| :: !(IsStable(sources[i]) && IsStable(sources[j])))
    && (forall i | 0 <= i < |sources| && IsCanary(sources[i]) :: ValidCanary(sources[i].ingress.value))
  }

  lemma {:induction false} HasSnoc(sources: seq<BackendSource>)
    requires sources != []
    ensures var t, s := sources[..|sources| - 1], sources[|sources| - 1];
            && (HasCanary(sources) <==> HasCanary(t) || IsCanary(s))
            && (HasStable(sources) <==> HasStable(t) || IsStable(s))
  {
    var t := sources[..|sources| - 1];
    if HasCanary(t) {
      var i :| 0 <= i < |t| && IsCanary(t[i]);
      assert IsCanary(sources[i]);
    }
    if i :| 0 <= i < |t| && IsCanary(sources[i]) {
      assert IsCanary(t[i]);
    }
    if HasStable(t) {
      var i :| 0 <= i < |t| && IsStable(t[i]);
      assert IsStable(sources[i]);
    }
    if i :| 0 <= i < |t| && IsStable(sources[i]) {
      assert IsStable(t[i]);
    }
  }

  lemma {:induction false} UnambiguousSnoc(sources: seq<BackendSource>)
    requires sources != []
    ensures var t, s := sources[..|sources| - 1], sources[|sources| - 1];
            Unambiguous(sources) <==>
            && Unambiguous(t)
            && (IsCanary(s) ==> ValidCanary(s.ingress.value) && !HasCanary(t))
            && (IsStable(s) ==> !HasStable(t))
  {
    var t := sources[..|sources| - 1];
    assert forall i | 0 <= i < |t| :: t[i] == sources[i];
  }

  /** The scan's outcome, with what it should say as flags. */
  predicate ScanSays(f: Found, clear: bool, canary: bool, stable: bool) {
    (f.errors == [] <==> clear) && (f.errors == [] ==> (f.canary.Some? <==> canary) && (f.stable.Some? <==> stable))
  }

  /** The scan reports nothing exactly when the backends are unambiguous, and then finds them. A rule with two ordinary
      backends is an error even when no backend is a canary. */
  lemma {:induction false} ScanFinds(ruleIdx: nat, sources: seq<BackendSource>)
    ensures ScanSays(Scan(ruleIdx, sources), Unambiguous(sources), HasCanary(sources), HasStable(sources))
  {
    if sources != [] {
      var t := sources[..|sources| - 1];
      ScanFinds(ruleIdx, t);
      UnambiguousSnoc(sources);
      HasSnoc(sources);
      ScanStep(ruleIdx, sources, Unambiguous(t), HasCanary(t), HasStable(t));
    }
  }

  lemma {:induction false} ScanStep(ruleIdx: nat, sources: seq<BackendSource>, clear: bool, canary: bool, stable: bool)
    requires sources != [] && ScanSays(Scan(ruleIdx, sources[..|sources| - 1]), clear, canary, stable)
    ensures var s := sources[|sources| - 1];
            ScanSays(Scan(ruleIdx, sources),
                     clear && (IsCanary(s) ==> ValidCanary(s.ingress.value) && !canary) && (IsStable(s) ==> !stable),
                     canary || IsCanary(s), stable || IsStable(s))
  {
  }

  lemma {:induction false} ScanOne(ruleIdx: nat, canary: BackendSource)
    requires IsCanary(canary) && ValidCanary(canary.ingress.value)
    ensures Scan(ruleIdx, [canary]) == Found(Some(0), None, Some(ConfigOf(canary.ingress.value)), [])
  {
    var list := [canary];
    assert list[..|list| - 1] == [];
    assert Scan(ruleIdx, []) == Found(None, None, None, []);
  }

  lemma {:induction false} ScanPair(ruleIdx: nat, canary: BackendSource, stable: BackendSource)
    requires IsCanary(canary) && ValidCanary(canary.ingress.value) && IsStable(stable)
    ensures Scan(ruleIdx, [canary, stable]) == Found(Some(0), Some(1), Some(ConfigOf(canary.ingress.value)), [])
  {
    var list := [canary, stable];
    assert list[..|list| - 1] == [canary];
    ScanOne(ruleIdx, canary);
  }

  // ---- expanding one rule ----

  /** A copy of the rule that also demands a header and has a single backend. */
  function HeaderRule(rule: RouteRule, suffix: string, header: string, value: string, ref: BackendRef): RouteRule
    requires rule.name.Some?
  {
    RouteRule(Some(rule.name.value + suffix),
              seq(|rule.matches|, i requires 0 <= i < |rule.matches| =>
                    rule.matches[i].(headers := rule.matches[i].headers + [HeaderMatch(header, value)])),
              [ref])
  }

  function HeaderRules(rule: RouteRule, config: CanaryConfig, canary: BackendRef, stable: BackendRef): seq<RouteRule>
    requires rule.name.Some?
  {
    if !config.isHeader then []
    else if config.headerValue != "" then
      [HeaderRule(rule, "-canary-header", config.header, config.headerValue, canary)]
    else [HeaderRule(rule, "-canary-header-always", config.header, "always", canary),
          HeaderRule(rule, "-canary-header-never", config.header, "never", stable)]
  }

  function Weighted(rule: RouteRule, config: CanaryConfig, canary: nat, stable: nat): RouteRule
    requires canary < |rule.backendRefs| && stable < |rule.backendRefs|
  {
    if !config.isWeight then rule
    else
      var refs := rule.backendRefs[canary := rule.backendRefs[canary].(weight := Some(config.weight))];
      rule.(backendRefs := refs[stable := refs[stable].(weight := Some(config.weightTotal - config.weight))])
  }

  datatype Expansion = Expansion(prepended: seq<RouteRule>, rules: seq<RouteRule>, errors: seq<CanaryError>)

  /** What the loop body does to rule `ruleIdx`. */
  function ExpandRule(rule: RouteRule, ruleIdx: nat, sources: seq<BackendSource>): (e: Expansion)
    requires rule.name.Some? && |sources| <= |rule.backendRefs|
    ensures |e.rules| == 1
  {
    var f := Scan(ruleIdx, sources);
    if f.canary.None? then Expansion([], [rule], f.errors)
    else if f.stable.None? then Expansion([], [rule], f.errors + [CanaryWithoutNonCanary(ruleIdx)])
    else
      Expansion(HeaderRules(rule, f.config.value, rule.backendRefs[f.canary.value], rule.backendRefs[f.stable.value]),
                [Weighted(rule, f.config.value, f.canary.value, f.stable.value)],
                f.errors)
  }

  /** Every source index can be used on its rule, and every rule has a name. */
  ghost predicate Indexable(rules: seq<RouteRule>, sources: seq<seq<BackendSource>>) {
    forall i | 0 <= i < |sources| && i < |rules| :: rules[i].name.Some? && |sources[i]| <= |rules[i].backendRefs|
  }

  /** The expansion of the first `n` source lists: header rules so far, all rules with the first ones updated,
      errors. */
  ghost function Expand(rules: seq<RouteRule>, sources: seq<seq<BackendSource>>, n: nat): (e: Expansion)
    requires Indexable(rules, sources) && n <= |sources|
    ensures |e.rules| == |rules|
    ensures forall i | n <= i < |rules| :: e.rules[i] == rules[i]
  {
    if n == 0 then Expansion([], rules, [])
    else
      var e := Expand(rules, sources, n - 1);
      if n - 1 >= |rules| then e.(errors := e.errors + [RuleIndexExceedsRules(n - 1)])
      else
        var x := ExpandRule(rules[n - 1], n - 1, sources[n - 1]);
        Expansion(e.prepended + x.prepended, e.rules[n - 1 := x.rules[0]], e.errors + x.errors)
  }

  /** A route in the emitter's representation, updated in place by the feature parsers. */
  class HTTPRouteContext {
    var rules: seq<RouteRule>
    const nn: NamespacedName

    constructor (nn: NamespacedName, rules: seq<RouteRule>)
      ensures this.nn == nn && this.rules == rules
    {
      this.nn := nn;
      this.rules := rules;
    }

    /** canaryFeature, for the route of one rule group. */
    method ApplyCanary(sources: seq<seq<BackendSource>>) returns (errors: seq<CanaryError>)
      requires Indexable(rules, sources)
      modifies this
      ensures var e := Expand(old(rules), sources, |sources|);
              rules == e.prepended + e.rules && errors == e.errors
    {
      var newRules: seq<RouteRule> := [];
      errors := [];
      for ruleIdx := 0 to |sources|
        invariant Expansion(newRules, rules, errors) == Expand(old(rules), sources, ruleIdx)
      {
        newRules, rules, errors := CanaryStep(old(rules), sources, ruleIdx, newRules, rules, errors);
      }
      if |newRules| > 0 {
        rules := newRules + rules;
      }
    }
  }

  /** canaryFeature, the loop body. */
  method CanaryStep(ghost first: seq<RouteRule>, sources: seq<seq<BackendSource>>, ruleIdx: nat,
          newRules: seq<RouteRule>, rules: seq<RouteRule>, errors: seq<CanaryError>)
    returns (newRules': seq<RouteRule>, rules': seq<RouteRule>, errors': seq<CanaryError>)
    requires Indexable(first, sources) && ruleIdx < |sources|
    requires Expansion(newRules, rules, errors) == Expand(first, sources, ruleIdx)
    ensures Expansion(newRules', rules', errors') == Expand(first, sources, ruleIdx + 1)
  {
    newRules', rules', errors' := newRules, rules, errors;
    if ruleIdx >= |rules| {
      ExpandBeyond(first, sources, ruleIdx + 1);
      errors' := errors + [RuleIndexExceedsRules(ruleIdx)];
      return;
    }
    ExpandStep(first, sources, ruleIdx + 1);
    var headerRules, rule, errs := CanaryRule(rules[ruleIdx], ruleIdx, sources[ruleIdx]);
    newRules' := newRules + headerRules;
    rules' := rules[ruleIdx := rule];
    errors' := errors + errs;
  }

  /** canaryFeature, what the loop body does to a rule that exists. */
  method CanaryRule(rule: RouteRule, ruleIdx: nat, sources: seq<BackendSource>)
    returns (newRules: seq<RouteRule>, updated: RouteRule, errors: seq<CanaryError>)
    requires rule.name.Some? && |sources| <= |rule.backendRefs|
    ensures Expansion(newRules, [updated], errors) == ExpandRule(rule, ruleIdx, sources)
  {
    newRules, updated := [], rule;
    var f := ScanBackends(ruleIdx, sources);
    errors := f.errors;
    if f.canary.Some? {
      if f.stable.None? {
        errors := errors + [CanaryWithoutNonCanary(ruleIdx)];
        return;
      }
      var config := f.config.value;
      var canary, stable := f.canary.value, f.stable.value;
      if config.isHeader {
        if config.headerValue != "" {
          newRules := [HeaderRule(rule, "-canary-header", config.header, config.headerValue, rule.backendRefs[canary])];
        } else {
          newRules := [HeaderRule(rule, "-canary-header-always", config.header, "always", rule.backendRefs[canary]),
                       HeaderRule(rule, "-canary-header-never", config.header, "never", rule.backendRefs[stable])];
        }
      }
      if config.isWeight {
        var refs := rule.backendRefs;
        refs := refs[canary := refs[canary].(weight := Some(config.weight))];
        refs := refs[stable := refs[stable].(weight := Some(config.weightTotal - config.weight))];
        updated := rule.(backendRefs := refs);
      }
    }
  }

  /** The inner loop of canaryFeature. */
  method ScanBackends(ruleIdx: nat, sources: seq<BackendSource>) returns (f: Found)
    ensures f == Scan(ruleIdx, sources)
  {
    f := Found(None, None, None, []);
    for backendIdx := 0 to |sources|
      invariant f == Scan(ruleIdx, sources[..backendIdx])
    {
      assert sources[..backendIdx + 1][..backendIdx] == sources[..backendIdx];
      var source := sources[backendIdx];
      if source.ingress.None? {
        continue;
      }
      if Annotation(source.ingress.value, CanaryKey) == "true" {
        if f.canary.Some? {
          f := f.(errors := f.errors + [SecondCanary(ruleIdx)]);
          continue;
        }
        var config := ParseCanaryConfig(source.ingress.value);
        if config.Err? {
          f := f.(errors := f.errors + [BadCanary(ruleIdx)]);
          continue;
        }
        f := f.(canary := Some(backendIdx), config := Some(config.value));
      } else {
        if f.stable.Some? {
          f := f.(errors := f.errors + [SecondNonCanary(ruleIdx)]);
          continue;
        }
        f := f.(stable := Some(backendIdx));
      }
    }
    assert sources[..|sources|] == sources;
  }

  // ---- an error-free expansion ----

  /** The condition under which canaryFeature reports no error for a rule. */
  ghost predicate CanaryFits(sources: seq<BackendSource>) {
    Unambiguous(sources) && (HasCanary(sources) ==> HasStable(sources))
  }

  lemma {:induction false} ExpandRuleErrorFree(rule: RouteRule, ruleIdx: nat, sources: seq<BackendSource>)
    requires rule.name.Some? && |sources| <= |rule.backendRefs|
    ensures ExpandRule(rule, ruleIdx, sources).errors == [] <==> CanaryFits(sources)
  {
    ScanFinds(ruleIdx, sources);
  }

  lemma {:induction false} ExpandStep(rules: seq<RouteRule>, sources: seq<seq<BackendSource>>, n: nat)
    requires Indexable(rules, sources) && 0 < n <= |sources| && n <= |rules|
    ensures var e, x := Expand(rules, sources, n - 1), ExpandRule(rules[n - 1], n - 1, sources[n - 1]);
            Expand(rules, sources, n) ==
              Expansion(e.prepended + x.prepended, e.rules[n - 1 := x.rules[0]], e.errors + x.errors)
  {
  }

  lemma {:induction false} ExpandBeyond(rules: seq<RouteRule>, sources: seq<seq<BackendSource>>, n: nat)
    requires Indexable(rules, sources) && |rules| < n <= |sources|
    ensures var e := Expand(rules, sources, n - 1);
            Expand(rules, sources, n) == Expansion(e.prepended, e.rules, e.errors + [RuleIndexExceedsRules(n - 1)])
  {
  }

  ghost predicate AllFit(sources: seq<seq<BackendSource>>, n: nat)
    requires n <= |sources|
  {
    forall i | 0 <= i < n :: CanaryFits(sources[i])
  }

  lemma {:induction false} AllFitStep(sources: seq<seq<BackendSource>>, n: nat)
    requires 0 < n <= |sources|
    ensures AllFit(sources, n) <==> AllFit(sources, n - 1) && CanaryFits(sources[n - 1])
  {
  }

  ghost predicate ErrorFree(rules: seq<RouteRule>, sources: seq<seq<BackendSource>>, n: nat)
    requires Indexable(rules, sources) && n <= |sources|
  {
    Expand(rules, sources, n).errors == []
  }

  lemma {:induction false} ErrorFreeStep(rules: seq<RouteRule>, sources: seq<seq<BackendSource>>, n: nat)
    requires Indexable(rules, sources) && 0 < n <= |sources|
    ensures ErrorFree(rules, sources, n) <==>
            ErrorFree(rules, sources, n - 1) && n <= |rules| && CanaryFits(sources[n - 1])
  {
    if n <= |rules| {
      ExpandStep(rules, sources, n);
      ExpandRuleErrorFree(rules[n - 1], n - 1, sources[n - 1]);
    } else {
      assert |Expand(rules, sources, n).errors| > 0;
    }
  }

  /** canaryFeature reports no error for a route iff it has a rule for every source list and each list fits. */
  lemma {:induction false} ExpandErrorFree(rules: seq<RouteRule>, sources: seq<seq<BackendSource>>, n: nat)
    requires Indexable(rules, sources) && n <= |sources|
    ensures ErrorFree(rules, sources, n) <==> n <= |rules| && AllFit(sources, n)
  {
    ErrorFreeUpTo(rules, sources, n);
    FitUpToMeans(sources, n);
  }

  ghost predicate FitUpTo(sources: seq<seq<BackendSource>>, n: nat)
    requires n <= |sources|
  {
    n == 0 || (FitUpTo(sources, n - 1) && CanaryFits(sources[n - 1]))
  }

  lemma {:induction false} FitUpToMeans(sources: seq<seq<BackendSource>>, n: nat)
    requires n <= |sources|
    ensures FitUpTo(sources, n) <==> AllFit(sources, n)
  {
    if n > 0 {
      FitUpToMeans(sources, n - 1);
      AllFitStep(sources, n);
    }
  }

  lemma {:induction false} ErrorFreeUpTo(rules: seq<RouteRule>, sources: seq<seq<BackendSource>>, n: nat)
    requires Indexable(rules, sources) && n <= |sources|
    ensures ErrorFree(rules, sources, n) <==> n <= |rules| && FitUpTo(sources, n)
  {
    if n > 0 {
      ErrorFreeUpTo(rules, sources, n - 1);
      ErrorFreeStep(rules, sources, n);
    }
  }

  predicate SameButWeights(a: RouteRule, b: RouteRule) {
    && a.name == b.name && a.matches == b.matches && |a.backendRefs| == |b.backendRefs|
    && forall i | 0 <= i < |a.backendRefs| :: a.backendRefs[i].(weight := None) == b.backendRefs[i].(weight := None)
  }

  lemma {:induction false} ExpandRuleKeeps(rule: RouteRule, ruleIdx: nat, sources: seq<BackendSource>)
    requires rule.name.Some? && |sources| <= |rule.backendRefs|
    ensures SameButWeights(ExpandRule(rule, ruleIdx, sources).rules[0], rule)
  {
  }

  /** A step leaves the rules done before and the header rules collected before. */
  lemma {:induction false} ExpandKeeps(rules: seq<RouteRule>, sources: seq<seq<BackendSource>>, n: nat)
    requires Indexable(rules, sources) && 0 < n <= |sources|
    ensures var before, now := Expand(rules, sources, n - 1), Expand(rules, sources, n);
            && (forall i | 0 <= i < n - 1 && i < |rules| :: now.rules[i] == before.rules[i])
            && (forall r | r in before.prepended :: r in now.prepended)
  {
    if n <= |rules| {
      ExpandStep(rules, sources, n);
    } else {
      ExpandBeyond(rules, sources, n);
    }
  }

  lemma {:induction false} ExpandLast(rules: seq<RouteRule>, sources: seq<seq<BackendSource>>, n: nat)
    requires Indexable(rules, sources) && 0 < n <= |sources| && n <= |rules|
    ensures var x := ExpandRule(rules[n - 1], n - 1, sources[n - 1]);
            && Expand(rules, sources, n).rules[n - 1] == x.rules[0]
            && (forall r | r in x.prepended :: r in Expand(rules, sources, n).prepended)
  {
    ExpandStep(rules, sources, n);
  }

  lemma {:induction false} ExpandAt(rules: seq<RouteRule>, sources: seq<seq<BackendSource>>, n: nat, i: nat)
    requires Indexable(rules, sources) && i < n <= |sources| && i < |rules|
    ensures Expand(rules, sources, n).rules[i] == ExpandRule(rules[i], i, sources[i]).rules[0]
    ensures forall r | r in ExpandRule(rules[i], i, sources[i]).prepended :: r in Expand(rules, sources, n).prepended
  {
    if i == n - 1 {
      ExpandLast(rules, sources, n);
    } else {
      ExpandAt(rules, sources, n - 1, i);
      ExpandKeeps(rules, sources, n);
    }
  }

  /** The old rules survive as the suffix, unchanged except for weights: with `n` rules prepended, the source list of
      rule i belongs to rule n + i from now on. */
  lemma {:induction false} CanaryShift(rules: seq<RouteRule>, sources: seq<seq<BackendSource>>, i: nat)
    requires Indexable(rules, sources) && i < |rules|
    ensures var e := Expand(rules, sources, |sources|);
            var final := e.prepended + e.rules;
            |final| == |e.prepended| + |rules| && SameButWeights(final[|e.prepended| + i], rules[i])
  {
    var e := Expand(rules, sources, |sources|);
    assert (e.prepended + e.rules)[|e.prepended| + i] == e.rules[i];
    if i < |sources| {
      ExpandAt(rules, sources, |sources|, i);
      ExpandRuleKeeps(rules[i], i, sources[i]);
    }
  }

  /** The rules are named as the conversion names them: by their index. */
  ghost predicate NumberedRules(rules: seq<RouteRule>) {
    forall i | 0 <= i < |rules| :: rules[i].name.Some? && NumberedName(rules[i].name.value, i)
  }

  /** `h` was made from rule number `k`: its name is that rule's name with a suffix. */
  ghost predicate SuffixedName(h: RouteRule, rule: RouteRule) {
    h.name.Some? && rule.name.Some? && rule.name.value < h.name.value
  }

  /** The header rules of rule `k`. */
  ghost function HeadersOf(rules: seq<RouteRule>, sources: seq<seq<BackendSource>>, k: nat): seq<RouteRule>
    requires Indexable(rules, sources) && k < |sources|
  {
    if k < |rules| then ExpandRule(rules[k], k, sources[k]).prepended else []
  }

  lemma {:induction false} PrependedGrows(rules: seq<RouteRule>, sources: seq<seq<BackendSource>>, n: nat)
    requires Indexable(rules, sources) && n < |sources|
    ensures Expand(rules, sources, n + 1).prepended ==
              Expand(rules, sources, n).prepended + HeadersOf(rules, sources, n)
  {
    if n < |rules| {
      ExpandStep(rules, sources, n + 1);
    } else {
      ExpandBeyond(rules, sources, n + 1);
    }
  }

  /** What is in a list that grew by blocks is in one of the blocks. */
  lemma {:induction false} InSomeBlock(stages: seq<seq<RouteRule>>, blocks: seq<seq<RouteRule>>, n: nat, h: RouteRule)
    returns (k: nat)
    requires |stages| == |blocks| + 1 && stages[0] == []
    requires forall i | 0 <= i < |blocks| :: stages[i + 1] == stages[i] + blocks[i]
    requires n <= |blocks| && h in stages[n]
    ensures k < n && h in blocks[k]
  {
    k := n - 1;
    assert stages[k + 1] == stages[k] + blocks[k];
    if h in stages[k] {
      k := InSomeBlock(stages, blocks, k, h);
    }
  }

  /** The header rules collected after each step, and those each step adds. */
  ghost function Stages(rules: seq<RouteRule>, sources: seq<seq<BackendSource>>): (r: seq<seq<RouteRule>>)
    requires Indexable(rules, sources)
    ensures |r| == |sources| + 1 && forall i | 0 <= i < |r| :: r[i] == Expand(rules, sources, i).prepended
  {
    seq(|sources| + 1, i requires 0 <= i <= |sources| => Expand(rules, sources, i).prepended)
  }

  ghost function Blocks(rules: seq<RouteRule>, sources: seq<seq<BackendSource>>): (r: seq<seq<RouteRule>>)
    requires Indexable(rules, sources)
    ensures |r| == |sources| && forall i | 0 <= i < |r| :: r[i] == HeadersOf(rules, sources, i)
  {
    seq(|sources|, i requires 0 <= i < |sources| => HeadersOf(rules, sources, i))
  }

  lemma {:induction false} StagesGrow(rules: seq<RouteRule>, sources: seq<seq<BackendSource>>)
    requires Indexable(rules, sources)
    ensures Stages(rules, sources)[0] == []
    ensures forall i | 0 <= i < |sources| ::
              Stages(rules, sources)[i + 1] == Stages(rules, sources)[i] + Blocks(rules, sources)[i]
  {
    forall i | 0 <= i < |sources|
      ensures Stages(rules, sources)[i + 1] == Stages(rules, sources)[i] + Blocks(rules, sources)[i]
    {
      PrependedGrows(rules, sources, i);
    }
  }

  lemma {:induction false} PrependedFrom(rules: seq<RouteRule>, sources: seq<seq<BackendSource>>, n: nat, q: nat)
    returns (k: nat)
    requires Indexable(rules, sources) && n <= |sources| && q < |Expand(rules, sources, n).prepended|
    ensures k < n && k < |rules|
    ensures Expand(rules, sources, n).prepended[q] in ExpandRule(rules[k], k, sources[k]).prepended
  {
    StagesGrow(rules, sources);
    k := InSomeBlock(Stages(rules, sources), Blocks(rules, sources), n, Stages(rules, sources)[n][q]);
  }

  lemma {:induction false} HeaderRulesNamed(rule: RouteRule, ruleIdx: nat, sources: seq<BackendSource>, h: RouteRule)
    requires rule.name.Some? && |sources| <= |rule.backendRefs|
    requires h in ExpandRule(rule, ruleIdx, sources).prepended
    ensures SuffixedName(h, rule)
  {
  }

  // ---- the plain rule index after the expansion ----

  /** A canary that asks for header rules: the guard under which rules are prepended. */
  predicate HeaderCanary(s: BackendSource) { IsCanary(s) && Annotation(s.ingress.value, CanaryHeaderKey) != "" }

  ghost predicate ListHasHeaderCanary(sources: seq<BackendSource>) {
    exists j | 0 <= j < |sources| :: HeaderCanary(sources[j])
  }

  ghost predicate HasHeaderCanary(sources: seq<seq<BackendSource>>, n: nat)
    requires n <= |sources|
  {
    exists i | 0 <= i < n :: ListHasHeaderCanary(sources[i])
  }

  lemma {:induction false} HeaderRulesIff(rule: RouteRule, ruleIdx: nat, sources: seq<BackendSource>)
    requires rule.name.Some? && |sources| <= |rule.backendRefs| && CanaryFits(sources)
    ensures ExpandRule(rule, ruleIdx, sources).prepended != [] <==> ListHasHeaderCanary(sources)
  {
    ScanFinds(ruleIdx, sources);
    var f := Scan(ruleIdx, sources);
    if j :| 0 <= j < |sources| && HeaderCanary(sources[j]) {
      assert IsCanary(sources[j]);
      assert f.canary.value == j;
    }
    if ExpandRule(rule, ruleIdx, sources).prepended != [] {
      assert HeaderCanary(sources[f.canary.value]);
    }
  }

  lemma {:induction false} SomeBlockNonEmpty(stages: seq<seq<RouteRule>>, blocks: seq<seq<RouteRule>>, n: nat)
    requires |stages| == |blocks| + 1 && stages[0] == [] && n <= |blocks|
    requires forall i | 0 <= i < |blocks| :: stages[i + 1] == stages[i] + blocks[i]
    ensures stages[n] != [] <==> exists k | 0 <= k < n :: blocks[k] != []
  {
    if n > 0 {
      SomeBlockNonEmpty(stages, blocks, n - 1);
      assert stages[n - 1 + 1] == stages[n - 1] + blocks[n - 1];
    }
  }

  lemma {:induction false} PrependedIff(rules: seq<RouteRule>, sources: seq<seq<BackendSource>>, n: nat)
    requires Indexable(rules, sources) && n <= |sources| && n <= |rules| && AllFit(sources, n)
    ensures Expand(rules, sources, n).prepended != [] <==> HasHeaderCanary(sources, n)
  {
    var stages, blocks := Stages(rules, sources), Blocks(rules, sources);
    StagesGrow(rules, sources);
    SomeBlockNonEmpty(stages, blocks, n);
    forall k | 0 <= k < n ensures blocks[k] != [] <==> ListHasHeaderCanary(sources[k]) {
      HeaderRulesIff(rules[k], k, sources[k]);
    }
  }

  /** What the route of one rule group holds after canaryFeature. */
  ghost function Final(rules: seq<RouteRule>, sources: seq<seq<BackendSource>>): seq<RouteRule>
    requires Indexable(rules, sources)
  {
    var e := Expand(rules, sources, |sources|);
    e.prepended + e.rules
  }

  lemma {:induction false} FinalAt(rules: seq<RouteRule>, sources: seq<seq<BackendSource>>, q: nat)
    requires Indexable(rules, sources) && q < |Final(rules, sources)|
    ensures var e := Expand(rules, sources, |sources|);
            Final(rules, sources)[q] == if q < |e.prepended| then e.prepended[q] else e.rules[q - |e.prepended|]
  {
  }

  /** With rules prepended, no plain index meets the rule it was counted for. */
  lemma {:induction false} ShiftedIndexMisses(rules: seq<RouteRule>, sources: seq<seq<BackendSource>>, i: nat)
    requires Indexable(rules, sources) && NumberedRules(rules) && i < |rules|
    requires Expand(rules, sources, |sources|).prepended != []
    ensures Final(rules, sources)[i].name != rules[i].name
  {
    var m := |Expand(rules, sources, |sources|).prepended|;
    FinalAt(rules, sources, i);
    if i < m {
      HeaderCopyIsOther(rules, sources, i, i);
    } else {
      ShiftedRuleIsOther(rules, sources, i, m);
    }
  }

  lemma {:induction false} HeaderCopyIsOther(rules: seq<RouteRule>, sources: seq<seq<BackendSource>>, q: nat, i: nat)
    requires Indexable(rules, sources) && NumberedRules(rules) && i < |rules|
    requires q < |Expand(rules, sources, |sources|).prepended|
    ensures Expand(rules, sources, |sources|).prepended[q].name != rules[i].name
  {
    var h := Expand(rules, sources, |sources|).prepended[q];
    var k := PrependedFrom(rules, sources, |sources|, q);
    HeaderRulesNamed(rules[k], k, sources[k], h);
    assert NumberedName(h.name.value, k);
    if h.name == rules[i].name {
      NumberIsUnique(rules[i].name.value, k, i);
    }
  }

  lemma {:induction false} ShiftedRuleIsOther(rules: seq<RouteRule>, sources: seq<seq<BackendSource>>, i: nat, m: nat)
    requires Indexable(rules, sources) && NumberedRules(rules) && 0 < m <= i < |rules|
    requires m == |Expand(rules, sources, |sources|).prepended|
    ensures Expand(rules, sources, |sources|).rules[i - m].name != rules[i].name
  {
    CanaryShift(rules, sources, i - m);
    FinalAt(rules, sources, m + (i - m));
    NumbersDiffer(rules, i - m, i);
  }

  lemma {:induction false} NumbersDiffer(rules: seq<RouteRule>, i: nat, j: nat)
    requires NumberedRules(rules) && i < |rules| && j < |rules| && i != j
    ensures rules[i].name != rules[j].name
  {
    if rules[i].name == rules[j].name {
      NumberIsUnique(rules[i].name.value, i, j);
    }
  }

  /** Later parsers index the route with the plain rule index of the sources. After an error-free expansion every such
      index still meets the rule it was counted for iff no source is a canary with a header annotation; and if one is,
      every index meets a rule of another name, so each feature a later parser stores applies to the wrong rule. */
  lemma {:induction false} PlainIndexAligned(rules: seq<RouteRule>, sources: seq<seq<BackendSource>>)
    requires Indexable(rules, sources) && NumberedRules(rules)
    requires Expand(rules, sources, |sources|).errors == []
    ensures |rules| <= |Final(rules, sources)|
    ensures (forall i | 0 <= i < |rules| :: SameButWeights(Final(rules, sources)[i], rules[i])) <==>
            !HasHeaderCanary(sources, |sources|)
    ensures HasHeaderCanary(sources, |sources|) ==>
              forall i | 0 <= i < |rules| :: Final(rules, sources)[i].name != rules[i].name
  {
    var e := Expand(rules, sources, |sources|);
    assert ErrorFree(rules, sources, |sources|);
    ExpandErrorFree(rules, sources, |sources|);
    PrependedIff(rules, sources, |sources|);
    if e.prepended == [] {
      assert Final(rules, sources) == e.rules;
      forall i | 0 <= i < |rules| ensures SameButWeights(Final(rules, sources)[i], rules[i]) {
        CanaryShift(rules, sources, i);
      }
    } else {
      forall i | 0 <= i < |rules| ensures Final(rules, sources)[i].name != rules[i].name {
        ShiftedIndexMisses(rules, sources, i);
      }
      assert Final(rules, sources)[0].name != rules[0].name;
    }
  }

  /** One rule whose path has a header canary and an ordinary backend: index 0 then meets the `always` copy, and the
      rule itself stands at index 2. */
  lemma {:induction false} HeaderCanaryShifts(rule: RouteRule, canary: BackendSource, stable: BackendSource)
    requires rule.name.Some? && |rule.backendRefs| == 2
    requires canary.ingress.Some? && stable.ingress.Some?
    requires canary.ingress.value.annotations == map[CanaryKey := "true", CanaryHeaderKey := "X-Canary"]
    requires stable.ingress.value.annotations == map[]
    ensures Indexable([rule], [[canary, stable]]) && Expand([rule], [[canary, stable]], 1).errors == []
    ensures Final([rule], [[canary, stable]])
            == [HeaderRule(rule, "-canary-header-always", "X-Canary", "always", rule.backendRefs[0]),
                HeaderRule(rule, "-canary-header-never", "X-Canary", "never", rule.backendRefs[1]),
                rule]
  {
    var list := [canary, stable];
    ScanPair(0, canary, stable);
    ExpandStep([rule], [list], 1);
  }

  /** Two ordinary backends for one path make the whole conversion fail, although no Ingress is a canary. */
  lemma {:induction false} TwoStableBackendsFail(rules: seq<RouteRule>, sources: seq<seq<BackendSource>>, i: nat)
    requires Indexable(rules, sources) && i < |sources| && |sources[i]| >= 2
    requires forall j, k | 0 <= j < |sources| && 0 <= k < |sources[j]| :: IsStable(sources[j][k])
    ensures forall j, k | 0 <= j < |sources| && 0 <= k < |sources[j]| :: !IsCanary(sources[j][k])
    ensures Expand(rules, sources, |sources|).errors != []
  {
    assert IsStable(sources[i][0]) && IsStable(sources[i][1]);
    assert !CanaryFits(sources[i]);
    ExpandErrorFree(rules, sources, |sources|);
    assert !ErrorFree(rules, sources, |sources|);
  }
}
