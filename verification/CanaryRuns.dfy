/** canaryFeature over all rule groups: a route is expanded once for every group that bears its name. */
module CanaryRuns {
  import opened Text
  import opened Names
  import opened Kube
  import opened Features
  import opened Grouping
  import opened Paths
  import opened Canary
  import opened CanaryRouting
  import opened Pipeline

  // ---- repeated expansion of one route ----

  /** No run out of `n` on a route indexes out of range. */
  ghost predicate Runnable(rules: seq<RouteRule>, sources: seq<seq<BackendSource>>, n: nat)
    decreases n
  {
    n == 0 || (Indexable(rules, sources) && Runnable(Final(rules, sources), sources, n - 1))
  }

  ghost function AfterRuns(rules: seq<RouteRule>, sources: seq<seq<BackendSource>>, n: nat): seq<RouteRule>
    requires Runnable(rules, sources, n)
    decreases n
  {
    if n == 0 then rules else AfterRuns(Final(rules, sources), sources, n - 1)
  }

  ghost predicate CleanRuns(rules: seq<RouteRule>, sources: seq<seq<BackendSource>>, n: nat)
    requires Runnable(rules, sources, n)
    decreases n
  {
    n == 0 || (Expand(rules, sources, |sources|).errors == [] && CleanRuns(Final(rules, sources), sources, n - 1))
  }

  lemma {:induction false} OneMoreRun(rules: seq<RouteRule>, sources: seq<seq<BackendSource>>, n: nat)
    requires Runnable(rules, sources, n + 1)
    ensures Runnable(rules, sources, n) && Indexable(AfterRuns(rules, sources, n), sources)
    ensures AfterRuns(rules, sources, n + 1) == Final(AfterRuns(rules, sources, n), sources)
    ensures CleanRuns(rules, sources, n + 1) <==>
            CleanRuns(rules, sources, n) && Expand(AfterRuns(rules, sources, n), sources, |sources|).errors == []
    decreases n
  {
    if n > 0 {
      OneMoreRun(Final(rules, sources), sources, n - 1);
    }
  }

  lemma {:induction false} FewerRuns(rules: seq<RouteRule>, sources: seq<seq<BackendSource>>, m: nat, n: nat)
    requires Runnable(rules, sources, n) && m <= n
    ensures Runnable(rules, sources, m)
    decreases m
  {
    if m > 0 {
      FewerRuns(Final(rules, sources), sources, m - 1, n - 1);
    }
  }

  // ---- the loop over groups ----

  type Emitted = map<NamespacedName, seq<RouteRule>>
  type Provided = map<NamespacedName, RouteContext>

  /** How many of the groups with keys in `keys` have a route name. */
  function Namesakes(groups: map<string, RuleGroup>, keys: set<string>, nn: NamespacedName): nat {
    |WithName(groups, keys, nn)|
  }

  function WithName(groups: map<string, RuleGroup>, keys: set<string>, nn: NamespacedName): set<string> {
    set k | k in keys && k in groups && GroupRouteName(groups[k]) == nn
  }

  lemma {:induction false} OneMoreNamesake(groups: map<string, RuleGroup>, keys: set<string>, k: string,
          nn: NamespacedName)
    requires k in groups && k !in keys
    ensures Namesakes(groups, keys + {k}, nn) ==
              Namesakes(groups, keys, nn) + if GroupRouteName(groups[k]) == nn then 1 else 0
  {
    var before, after := WithName(groups, keys, nn), WithName(groups, keys + {k}, nn);
    if GroupRouteName(groups[k]) == nn {
      assert after == before + {k};
    } else {
      assert after == before;
    }
  }

  lemma {:induction false} FewerNamesakes(groups: map<string, RuleGroup>, keys: set<string>, nn: NamespacedName)
    requires keys <= groups.Keys
    ensures Namesakes(groups, keys, nn) <= Namesakes(groups, groups.Keys, nn)
  {
    Smaller(WithName(groups, keys, nn), WithName(groups, groups.Keys, nn));
  }

  lemma {:induction false} Smaller(a: set<string>, b: set<string>)
    requires a <= b
    ensures |a| <= |b|
  {
    assert b == a + (b - a);
  }

  /** The whole feature runs without a panic. */
  ghost predicate AllRunnable(groups: map<string, RuleGroup>, provided: Provided, emitted: Emitted) {
    forall nn | nn in provided && nn in emitted ::
      Runnable(emitted[nn], provided[nn].sources, Namesakes(groups, groups.Keys, nn))
  }

  /** `now` is what `n` runs leave of a route; without sources they leave it alone. */
  ghost predicate RanTo(provided: Provided, rules: seq<RouteRule>, nn: NamespacedName, n: nat, now: seq<RouteRule>) {
    if nn !in provided then now == rules
    else Runnable(rules, provided[nn].sources, n) && now == AfterRuns(rules, provided[nn].sources, n)
  }

  /** The `n` runs of a route report nothing. */
  ghost predicate CleanTo(provided: Provided, emitted: Emitted, nn: NamespacedName, n: nat) {
    nn in provided && nn in emitted && Runnable(emitted[nn], provided[nn].sources, n) ==>
      CleanRuns(emitted[nn], provided[nn].sources, n)
  }

  ghost predicate RunsSoFar(groups: map<string, RuleGroup>, done: set<string>, provided: Provided, emitted: Emitted,
          now: Emitted)
  {
    && now.Keys == emitted.Keys
    && (forall nn | nn in emitted :: RanTo(provided, emitted[nn], nn, Namesakes(groups, done, nn), now[nn]))
  }

  ghost predicate CleanSoFar(groups: map<string, RuleGroup>, done: set<string>, provided: Provided, emitted: Emitted,
          clean: bool)
  {
    clean <==> forall nn :: CleanTo(provided, emitted, nn, Namesakes(groups, done, nn))
  }

  ghost predicate SoFar(groups: map<string, RuleGroup>, done: set<string>, provided: Provided, emitted: Emitted,
          now: Emitted, clean: bool)
  {
    RunsSoFar(groups, done, provided, emitted, now) && CleanSoFar(groups, done, provided, emitted, clean)
  }

  lemma {:induction false} SkipGroup(groups: map<string, RuleGroup>, done: set<string>, provided: Provided,
          emitted: Emitted, now: Emitted, clean: bool, k: string)
    requires SoFar(groups, done, provided, emitted, now, clean) && k in groups && k !in done
    requires GroupRouteName(groups[k]) !in provided || GroupRouteName(groups[k]) !in now
    ensures SoFar(groups, done + {k}, provided, emitted, now, clean)
  {
    forall nn
      ensures nn in emitted ==> RanTo(provided, emitted[nn], nn, Namesakes(groups, done + {k}, nn), now[nn])
      ensures CleanTo(provided, emitted, nn, Namesakes(groups, done + {k}, nn)) <==>
              CleanTo(provided, emitted, nn, Namesakes(groups, done, nn))
    {
      OneMoreNamesake(groups, done, k, nn);
      if nn in emitted {
        assert RanTo(provided, emitted[nn], nn, Namesakes(groups, done, nn), now[nn]);
      }
    }
  }

  lemma {:induction false} OneMoreOfAll(groups: map<string, RuleGroup>, done: set<string>, k: string,
          nn: NamespacedName)
    requires k in groups && k !in done && done <= groups.Keys && GroupRouteName(groups[k]) == nn
    ensures Namesakes(groups, done + {k}, nn) == Namesakes(groups, done, nn) + 1 <= Namesakes(groups, groups.Keys, nn)
  {
    OneMoreNamesake(groups, done, k, nn);
    FewerNamesakes(groups, done + {k}, nn);
  }

  lemma {:induction false} OneRun(provided: Provided, emitted: Emitted, nn: NamespacedName, n: nat, all: nat,
          now: seq<RouteRule>)
    requires nn in provided && nn in emitted && Runnable(emitted[nn], provided[nn].sources, all) && n < all
    requires RanTo(provided, emitted[nn], nn, n, now)
    ensures Indexable(now, provided[nn].sources)
    ensures RanTo(provided, emitted[nn], nn, n + 1, Final(now, provided[nn].sources))
    ensures CleanTo(provided, emitted, nn, n + 1) <==>
            CleanTo(provided, emitted, nn, n)
            && Expand(now, provided[nn].sources, |provided[nn].sources|).errors == []
  {
    FewerRuns(emitted[nn], provided[nn].sources, n + 1, all);
    OneMoreRun(emitted[nn], provided[nn].sources, n);
  }

  lemma {:induction false} RunGroup(groups: map<string, RuleGroup>, done: set<string>, provided: Provided,
          emitted: Emitted, now: Emitted, k: string, nn: NamespacedName, final: seq<RouteRule>)
    requires RunsSoFar(groups, done, provided, emitted, now) && k in groups && k !in done
    requires GroupRouteName(groups[k]) == nn && nn in now
    requires RanTo(provided, emitted[nn], nn, Namesakes(groups, done, nn) + 1, final)
    ensures RunsSoFar(groups, done + {k}, provided, emitted, now[nn := final])
  {
    var next := now[nn := final];
    assert next.Keys == emitted.Keys;
    forall mm | mm in emitted ensures RanTo(provided, emitted[mm], mm, Namesakes(groups, done + {k}, mm), next[mm]) {
      RanAfter(groups, done, provided, emitted[mm], now[mm], k, mm, next[mm]);
    }
  }

  lemma {:induction false} RanAfter(groups: map<string, RuleGroup>, done: set<string>, provided: Provided,
          rules: seq<RouteRule>, before: seq<RouteRule>, k: string, mm: NamespacedName, after: seq<RouteRule>)
    requires k in groups && k !in done
    requires RanTo(provided, rules, mm, Namesakes(groups, done, mm), before)
    requires if GroupRouteName(groups[k]) == mm
             then RanTo(provided, rules, mm, Namesakes(groups, done, mm) + 1, after)
             else after == before
    ensures RanTo(provided, rules, mm, Namesakes(groups, done + {k}, mm), after)
  {
    OneMoreNamesake(groups, done, k, mm);
  }

  lemma {:induction false} CleanAfter(groups: map<string, RuleGroup>, done: set<string>, provided: Provided,
          emitted: Emitted, clean: bool, k: string, nn: NamespacedName, ok: bool)
    requires CleanSoFar(groups, done, provided, emitted, clean)
    requires k in groups && k !in done && GroupRouteName(groups[k]) == nn
    requires CleanTo(provided, emitted, nn, Namesakes(groups, done, nn) + 1) <==>
             CleanTo(provided, emitted, nn, Namesakes(groups, done, nn)) && ok
    ensures CleanSoFar(groups, done + {k}, provided, emitted, clean && ok)
  {
    forall mm
      ensures CleanTo(provided, emitted, mm, Namesakes(groups, done + {k}, mm)) <==>
              CleanTo(provided, emitted, mm, Namesakes(groups, done, mm)) && (mm == nn ==> ok)
    {
      OneMoreNamesake(groups, done, k, mm);
    }
  }

  lemma {:induction false} NoGroupYet(groups: map<string, RuleGroup>, provided: Provided, emitted: Emitted)
    ensures SoFar(groups, {}, provided, emitted, emitted, true)
  {
    forall nn ensures Namesakes(groups, {}, nn) == 0 {
      assert WithName(groups, {}, nn) == {};
    }
    forall nn ensures CleanTo(provided, emitted, nn, 0) {}
    forall nn | nn in emitted ensures RanTo(provided, emitted[nn], nn, 0, emitted[nn]) {}
  }

  lemma {:induction false} OneLess(all: set<string>, todo: set<string>, k: string)
    requires k in todo && todo <= all
    ensures all - (todo - {k}) == (all - todo) + {k}
  {
  }

  lemma {:induction false} NoneLeft(all: set<string>, todo: set<string>)
    requires todo == {}
    ensures all - todo == all && all - all == {}
  {
  }

  /** canaryFeature: the rule groups in any order; a group whose route is missing on either side is skipped. */
  method CanaryFeature(groups: map<string, RuleGroup>, provided: Provided, emitted: Emitted)
    returns (now: Emitted, errors: seq<CanaryError>)
    requires AllRunnable(groups, provided, emitted)
    ensures SoFar(groups, groups.Keys, provided, emitted, now, errors == [])
  {
    now, errors := emitted, [];
    var todo := groups.Keys;
    NoGroupYet(groups, provided, emitted);
    NoneLeft(groups.Keys, {});
    while todo != {}
      invariant todo <= groups.Keys
      invariant SoFar(groups, groups.Keys - todo, provided, emitted, now, errors == [])
      decreases |todo|
    {
      var k := Any(todo);
      now, errors := CanaryOfGroup(groups, groups.Keys - todo, provided, emitted, now, errors, k);
      OneLess(groups.Keys, todo, k);
      todo := todo - {k};
    }
    NoneLeft(groups.Keys, todo);
  }

  /** The body of the loop over groups. */
  method CanaryOfGroup(groups: map<string, RuleGroup>, ghost done: set<string>, provided: Provided,
          ghost emitted: Emitted, now: Emitted, errors: seq<CanaryError>, k: string)
    returns (next: Emitted, errors': seq<CanaryError>)
    requires AllRunnable(groups, provided, emitted) && SoFar(groups, done, provided, emitted, now, errors == [])
    requires k in groups && k !in done && done <= groups.Keys
    ensures SoFar(groups, done + {k}, provided, emitted, next, errors' == [])
  {
    var nn := GroupRouteName(groups[k]);
    if nn !in provided || nn !in now {
      SkipGroup(groups, done, provided, emitted, now, errors == [], k);
      return now, errors;
    }
    ghost var n := Namesakes(groups, done, nn);
    assert RanTo(provided, emitted[nn], nn, n, now[nn]);
    OneMoreOfAll(groups, done, k, nn);
    OneRun(provided, emitted, nn, n, Namesakes(groups, groups.Keys, nn), now[nn]);
    var ctx := new HTTPRouteContext(nn, now[nn]);
    var errs := ctx.ApplyCanary(provided[nn].sources);
    assert ctx.rules == Final(now[nn], provided[nn].sources);
    RunGroup(groups, done, provided, emitted, now, k, nn, ctx.rules);
    CleanAfter(groups, done, provided, emitted, errors == [], k, nn, errs == []);
    next, errors' := now[nn := ctx.rules], errors + errs;
  }

  // ---- which runs are harmless ----

  lemma {:induction false} NoHeaderKeepsShape(rules: seq<RouteRule>, sources: seq<seq<BackendSource>>)
    requires BaseRules(rules, sources) && Indexable(rules, sources) && AllFit(sources, |sources|)
    requires !HasHeaderCanary(sources, |sources|)
    ensures |Final(rules, sources)| == |rules| && Indexable(Final(rules, sources), sources)
    ensures forall i | 0 <= i < |rules| :: Final(rules, sources)[i] == ExpandRule(rules[i], i, sources[i]).rules[0]
  {
    PrependedIff(rules, sources, |sources|);
    assert Expand(rules, sources, |sources|).prepended == [];
    forall i | 0 <= i < |rules|
      ensures Final(rules, sources)[i] == ExpandRule(rules[i], i, sources[i]).rules[0]
      ensures Final(rules, sources)[i].name.Some? && |Final(rules, sources)[i].backendRefs| == |rules[i].backendRefs|
    {
      assert BaseRule(rules[i], sources[i], i);
      FinalAt(rules, sources, i);
      ExpandAt(rules, sources, |sources|, i);
      ExpandRuleKeeps(rules[i], i, sources[i]);
    }
  }

  /** The first source list with two entries meets a rule with one ref once header rules stand in front. */
  lemma {:induction false} ShiftBreaksIndexing(rules: seq<RouteRule>, sources: seq<seq<BackendSource>>, k: nat)
    requires BaseRules(rules, sources) && Indexable(rules, sources) && AllFit(sources, |sources|)
    requires HasHeaderCanary(sources, |sources|)
    requires k < |sources| && |sources[k]| >= 2 && forall i | 0 <= i < k :: |sources[i]| < 2
    ensures !Indexable(Final(rules, sources), sources)
  {
    PrependedIff(rules, sources, |sources|);
    var m := |Expand(rules, sources, |sources|).prepended|;
    FinalAt(rules, sources, k);
    if k < m {
      OneRefCopy(rules, sources, k);
    } else {
      CanaryShift(rules, sources, k - m);
      FinalAt(rules, sources, m + (k - m));
      assert BaseRule(rules[k - m], sources[k - m], k - m) && |sources[k - m]| < 2;
    }
    assert |Final(rules, sources)[k].backendRefs| < |sources[k]|;
  }

  lemma {:induction false} OneRefCopy(rules: seq<RouteRule>, sources: seq<seq<BackendSource>>, q: nat)
    requires Indexable(rules, sources) && q < |Expand(rules, sources, |sources|).prepended|
    ensures |Expand(rules, sources, |sources|).prepended[q].backendRefs| == 1
  {
    var k := PrependedFrom(rules, sources, |sources|, q);
    HeaderRulesHaveOneRef(rules[k], k, sources[k], Expand(rules, sources, |sources|).prepended[q]);
  }

  lemma {:induction false} HeaderRulesHaveOneRef(rule: RouteRule, ruleIdx: nat, sources: seq<BackendSource>,
          h: RouteRule)
    requires rule.name.Some? && |sources| <= |rule.backendRefs|
    requires h in ExpandRule(rule, ruleIdx, sources).prepended
    ensures |h.backendRefs| == 1
  {
  }

  lemma {:induction false} FirstPair(sources: seq<seq<BackendSource>>, i: nat) returns (k: nat)
    requires i < |sources| && |sources[i]| >= 2
    ensures k <= i && |sources[k]| >= 2 && forall j | 0 <= j < k :: |sources[j]| < 2
  {
    k := 0;
    while |sources[k]| < 2
      invariant k <= i && forall j | 0 <= j < k :: |sources[j]| < 2
      decreases i - k
    {
      k := k + 1;
    }
  }

  lemma {:induction false} HeaderCanaryHasPair(sources: seq<BackendSource>)
    requires CanaryFits(sources) && ListHasHeaderCanary(sources)
    ensures |sources| >= 2
  {
    var j :| 0 <= j < |sources| && HeaderCanary(sources[j]);
    assert IsCanary(sources[j]) && HasCanary(sources) && HasStable(sources);
    var l :| 0 <= l < |sources| && IsStable(sources[l]);
    assert j != l;
  }

  /** A second run of canaryFeature stays in range iff no source is a canary with a header annotation. */
  lemma {:induction false} SecondRunIff(rules: seq<RouteRule>, sources: seq<seq<BackendSource>>)
    requires BaseRules(rules, sources) && Indexable(rules, sources) && AllFit(sources, |sources|)
    ensures Indexable(Final(rules, sources), sources) <==> !HasHeaderCanary(sources, |sources|)
  {
    if HasHeaderCanary(sources, |sources|) {
      var i :| 0 <= i < |sources| && ListHasHeaderCanary(sources[i]);
      HeaderCanaryHasPair(sources[i]);
      var k := FirstPair(sources, i);
      ShiftBreaksIndexing(rules, sources, k);
    } else {
      NoHeaderKeepsShape(rules, sources);
    }
  }

  /** Expanding an expanded rule again changes nothing while there is no header annotation. */
  lemma {:induction false} ExpandRuleTwice(rule: RouteRule, ruleIdx: nat, sources: seq<BackendSource>)
    requires rule.name.Some? && |sources| <= |rule.backendRefs|
    ensures var once := ExpandRule(rule, ruleIdx, sources).rules[0];
            && once.name.Some? && |sources| <= |once.backendRefs|
            && ExpandRule(once, ruleIdx, sources).rules[0] == once
  {
  }

  lemma {:induction false} SecondRunIsNoOp(rules: seq<RouteRule>, sources: seq<seq<BackendSource>>)
    requires BaseRules(rules, sources) && Indexable(rules, sources) && AllFit(sources, |sources|)
    requires !HasHeaderCanary(sources, |sources|)
    ensures Indexable(Final(rules, sources), sources) && Final(Final(rules, sources), sources) == Final(rules, sources)
    ensures Expand(Final(rules, sources), sources, |sources|).errors == []
  {
    NoHeaderKeepsShape(rules, sources);
    var final := Final(rules, sources);
    PrependedIff(final, sources, |sources|);
    ExpandErrorFree(final, sources, |sources|);
    assert ErrorFree(final, sources, |sources|);
    forall i | 0 <= i < |final| ensures Expand(final, sources, |sources|).rules[i] == final[i] {
      assert BaseRule(rules[i], sources[i], i);
      ExpandAt(final, sources, |sources|, i);
      ExpandRuleTwice(rules[i], i, sources[i]);
    }
    assert Expand(final, sources, |sources|).rules == final;
    assert Expand(final, sources, |sources|).prepended == [];
  }

  lemma {:induction false} RunsAreNoOps(final: seq<RouteRule>, sources: seq<seq<BackendSource>>, n: nat)
    requires Indexable(final, sources) && Final(final, sources) == final
    requires Expand(final, sources, |sources|).errors == []
    ensures Runnable(final, sources, n) && AfterRuns(final, sources, n) == final && CleanRuns(final, sources, n)
  {
    if n > 0 {
      RunsAreNoOps(final, sources, n - 1);
    }
  }

  /** A converted route whose canaries fit can be expanded any number of times iff it has no header canary, once in any
      case; and whenever it can, it ends as after one run, without error. */
  lemma {:induction false} RunsIff(rules: seq<RouteRule>, sources: seq<seq<BackendSource>>, n: nat)
    requires BaseRules(rules, sources) && Indexable(rules, sources) && AllFit(sources, |sources|)
    ensures Runnable(rules, sources, n) <==> n <= 1 || !HasHeaderCanary(sources, |sources|)
    ensures n >= 1 && Runnable(rules, sources, n) ==>
              AfterRuns(rules, sources, n) == Final(rules, sources) && CleanRuns(rules, sources, n)
  {
    ExpandErrorFree(rules, sources, |sources|);
    assert |rules| == |sources| ==> ErrorFree(rules, sources, |sources|);
    SecondRunIff(rules, sources);
    if n >= 1 {
      assert Runnable(Final(rules, sources), sources, 0);
      if n == 1 {
        assert AfterRuns(Final(rules, sources), sources, 0) == Final(rules, sources);
        assert CleanRuns(Final(rules, sources), sources, 0);
      } else if !HasHeaderCanary(sources, |sources|) {
        SecondRunIsNoOp(rules, sources);
        RunsAreNoOps(Final(rules, sources), sources, n - 1);
      }
    }
  }

  // ---- on the groups ----

  /** Every group's route is expanded exactly once iff the groups' route names are distinct. */
  lemma {:induction false} ExpandedOnceIff(groups: map<string, RuleGroup>)
    ensures (forall k | k in groups :: Namesakes(groups, groups.Keys, GroupRouteName(groups[k])) == 1) <==>
            RouteNamesDistinct(groups)
  {
    forall j, k | j in groups && k in groups && GroupRouteName(groups[j]) == GroupRouteName(groups[k]) && j != k
      ensures Namesakes(groups, groups.Keys, GroupRouteName(groups[k])) >= 2
    {
      Smaller({j, k}, WithName(groups, groups.Keys, GroupRouteName(groups[k])));
    }
    if RouteNamesDistinct(groups) {
      forall k | k in groups ensures Namesakes(groups, groups.Keys, GroupRouteName(groups[k])) == 1 {
        assert WithName(groups, groups.Keys, GroupRouteName(groups[k])) == {k};
      }
    }
  }

  /** Routes as the conversion leaves them, with canaries that fit. */
  ghost predicate ConvertedRoutes(provided: Provided, emitted: Emitted) {
    && provided.Keys == emitted.Keys
    && forall nn | nn in provided ::
         && emitted[nn] == provided[nn].route.rules && BaseRules(emitted[nn], provided[nn].sources)
         && Indexable(emitted[nn], provided[nn].sources) && AllFit(provided[nn].sources, |provided[nn].sources|)
  }

  /** canaryFeature runs to its end iff no route that two groups share has a header canary. `a.b` beside `a-b` with a
      header canary on the shared route makes it index out of range. */
  lemma {:induction false} FeatureRunsIff(groups: map<string, RuleGroup>, provided: Provided, emitted: Emitted)
    requires ConvertedRoutes(provided, emitted)
    ensures AllRunnable(groups, provided, emitted) <==>
            forall nn | nn in provided && Namesakes(groups, groups.Keys, nn) >= 2 ::
              !HasHeaderCanary(provided[nn].sources, |provided[nn].sources|)
  {
    forall nn | nn in provided
      ensures Runnable(emitted[nn], provided[nn].sources, Namesakes(groups, groups.Keys, nn)) <==>
              Namesakes(groups, groups.Keys, nn) <= 1 || !HasHeaderCanary(provided[nn].sources, |provided[nn].sources|)
    {
      RunsIff(emitted[nn], provided[nn].sources, Namesakes(groups, groups.Keys, nn));
    }
  }

  /** What `n` runs leave of a converted route when they stay in range. */
  ghost function Left(rules: seq<RouteRule>, sources: seq<seq<BackendSource>>, n: nat): seq<RouteRule>
    requires Indexable(rules, sources)
  {
    if n == 0 then rules else Final(rules, sources)
  }

  /** And then each route that a group names ends as after one run, without errors, and no other route changes. */
  lemma {:induction false} FeatureLeaves(groups: map<string, RuleGroup>, provided: Provided, emitted: Emitted,
          now: Emitted, clean: bool)
    requires ConvertedRoutes(provided, emitted) && AllRunnable(groups, provided, emitted)
    requires SoFar(groups, groups.Keys, provided, emitted, now, clean)
    ensures clean && now.Keys == emitted.Keys
    ensures forall nn | nn in emitted ::
              now[nn] == Left(emitted[nn], provided[nn].sources, Namesakes(groups, groups.Keys, nn))
  {
    forall nn | nn in emitted
      ensures CleanTo(provided, emitted, nn, Namesakes(groups, groups.Keys, nn))
      ensures now[nn] == Left(emitted[nn], provided[nn].sources, Namesakes(groups, groups.Keys, nn))
    {
      var n := Namesakes(groups, groups.Keys, nn);
      RunsIff(emitted[nn], provided[nn].sources, n);
      assert RanTo(provided, emitted[nn], nn, n, now[nn]);
    }
  }
}
