/** The BackendTrafficPolicy table: several emitters write into one policy object per route and rule. */
module Policies {
  import opened Text
  import opened Kube
  import opened Features

  datatype PolicyTarget = PolicyTarget(route: string, section: Option<string>)
  datatype SourceMatch = SourceMatch(typ: string, value: string)
  datatype LimitRule = LimitRule(requests: nat, unit: TimeUnit, clients: seq<SourceMatch>)
  datatype LocalRateLimit = LocalRateLimit(rules: seq<LimitRule>)
  datatype RateLimitSpec = RateLimitSpec(local: Option<LocalRateLimit>)
  datatype TcpTimeout = TcpTimeout(connectTimeout: Option<string>)
  datatype TimeoutSpec = TimeoutSpec(tcp: Option<TcpTimeout>)
  datatype PolicyValue = PolicyValue(
    target: PolicyTarget,
    rateLimit: Option<RateLimitSpec>,
    timeout: Option<TimeoutSpec>)

  type Table = map<NamespacedName, PolicyValue>

  /** The features written into this table here. */
  type PolicyFeature = f: Feature | f.RateLimit? || f.Timeout? witness Timeout(None)

  function KindOf(f: PolicyFeature): FeatureKey {
    if f.RateLimit? then RateLimitKey else TimeoutKey
  }

  /** A feature entry of a route: for one rule or for all. */
  datatype Entry = Entry(route: NamespacedName, ruleIdx: int, feature: PolicyFeature)

  function PolicyName(route: string, ruleIdx: int): string {
    if ruleIdx == ALL_INDEX then route else route + "-" + DecimalInt(ruleIdx)
  }

  function PolicyKey(route: NamespacedName, ruleIdx: int): NamespacedName {
    NN(route.namespace, PolicyName(route.name, ruleIdx))
  }

  type Routes = map<NamespacedName, HTTPRoute>

  function SectionName(routes: Routes, route: NamespacedName, ruleIdx: int): Option<string>
    requires route in routes && ruleIdx >= ALL_INDEX
  {
    if ruleIdx != ALL_INDEX && ruleIdx < |routes[route].rules| then routes[route].rules[ruleIdx].name else None
  }

  function TargetOf(routes: Routes, route: NamespacedName, ruleIdx: int): PolicyTarget
    requires route in routes && ruleIdx >= ALL_INDEX
  {
    PolicyTarget(route.name, SectionName(routes, route, ruleIdx))
  }

  // ---- what the writes do to the table ----

  /** A limit that counts every client address on its own. */
  function LimitFor(requests: nat, unit: TimeUnit): LimitRule {
    LimitRule(requests, unit, [SourceMatch("Distinct", "0.0.0.0/0")])
  }

  function RulesOf(p: PolicyValue): seq<LimitRule> {
    if p.rateLimit.Some? && p.rateLimit.value.local.Some? then p.rateLimit.value.local.value.rules else []
  }

  function Written(p: PolicyValue, f: PolicyFeature): PolicyValue {
    if f.RateLimit? then
      p.(rateLimit := Some(RateLimitSpec(Some(LocalRateLimit(RulesOf(p) + [LimitFor(f.limit, f.unit)])))))
    else p.(timeout := Some(TimeoutSpec(Some(TcpTimeout(f.duration)))))
  }

  predicate Known(routes: Routes, e: Entry) { e.route in routes && e.ruleIdx >= ALL_INDEX }

  function Apply(routes: Routes, t: Table, e: Entry): Table
    requires Known(routes, e)
  {
    var key := PolicyKey(e.route, e.ruleIdx);
    var found := if key in t then t[key] else PolicyValue(TargetOf(routes, e.route, e.ruleIdx), None, None);
    t[key := Written(found, e.feature)]
  }

  ghost predicate AllKnown(routes: Routes, log: seq<Entry>) { forall i | 0 <= i < |log| :: Known(routes, log[i]) }

  /** The table after the entries of `log` have been emitted in that order. */
  ghost function ApplyAll(routes: Routes, log: seq<Entry>): Table
    requires AllKnown(routes, log)
  {
    if log == [] then map[] else Apply(routes, ApplyAll(routes, log[..|log| - 1]), log[|log| - 1])
  }

  predicate SamePlace(e: Entry, f: Entry) { e.route == f.route && e.ruleIdx == f.ruleIdx }
  predicate SameName(e: Entry, f: Entry) { PolicyKey(e.route, e.ruleIdx) == PolicyKey(f.route, f.ruleIdx) }

  /** No entry is emitted twice: the parsed flags. */
  ghost predicate EachOnce(log: seq<Entry>) {
    forall i, j | 0 <= i < j < |log| && SamePlace(log[i], log[j]) :: KindOf(log[i].feature) != KindOf(log[j].feature)
  }

  /** Different places have policies of different names. */
  ghost predicate NoCollision(log: seq<Entry>) {
    forall e, f | e in log && f in log && SameName(e, f) :: SamePlace(e, f)
  }

  /** The target is the entry's route, and in it the rule the entry is for, if there is one. */
  ghost predicate Aims(routes: Routes, e: Entry, target: PolicyTarget)
    requires Known(routes, e)
  {
    var rules := routes[e.route].rules;
    && target.route == e.route.name
    && (0 <= e.ruleIdx < |rules| ==> target.section == rules[e.ruleIdx].name)
    && (e.ruleIdx == ALL_INDEX || e.ruleIdx >= |rules| ==> target.section == None)
  }

  /** One limit rule, which counts every client address on its own. */
  ghost predicate LimitsTo(p: PolicyValue, requests: nat, unit: TimeUnit) {
    p.rateLimit == Some(RateLimitSpec(Some(LocalRateLimit(
      [LimitRule(requests, unit, [SourceMatch("Distinct", "0.0.0.0/0")])]))))
  }

  /** The policy of an entry targets its route and rule and says what the entry says: one limit rule, one timeout. */
  ghost predicate Disciplined(routes: Routes, e: Entry, t: Table)
    requires Known(routes, e)
  {
    var key := PolicyKey(e.route, e.ruleIdx);
    && key in t && Aims(routes, e, t[key].target)
    && if e.feature.RateLimit? then LimitsTo(t[key], e.feature.limit, e.feature.unit)
       else t[key].timeout == Some(TimeoutSpec(Some(TcpTimeout(e.feature.duration))))
  }

  lemma {:induction false} AimsIff(routes: Routes, e: Entry, target: PolicyTarget)
    requires Known(routes, e)
    ensures Aims(routes, e, target) <==> target == TargetOf(routes, e.route, e.ruleIdx)
  {
  }

  ghost predicate Asked(log: seq<Entry>, key: NamespacedName, kind: FeatureKey) {
    exists e | e in log :: PolicyKey(e.route, e.ruleIdx) == key && KindOf(e.feature) == kind
  }

  /** A table holds exactly what a log asks for. */
  ghost predicate Reflects(routes: Routes, log: seq<Entry>, t: Table)
    requires AllKnown(routes, log)
  {
    && (forall e | e in log :: Known(routes, e) && Disciplined(routes, e, t))
    && (forall key :: key in t <==> Asked(log, key, RateLimitKey) || Asked(log, key, TimeoutKey))
    && (forall key | key in t :: (t[key].rateLimit.Some? <==> Asked(log, key, RateLimitKey))
                                 && (t[key].timeout.Some? <==> Asked(log, key, TimeoutKey)))
  }

  lemma {:induction false} AskedSnoc(log: seq<Entry>, x: Entry, key: NamespacedName, kind: FeatureKey)
    ensures Asked(log + [x], key, kind) <==>
            Asked(log, key, kind) || (PolicyKey(x.route, x.ruleIdx) == key && KindOf(x.feature) == kind)
  {
    if e :| e in log && PolicyKey(e.route, e.ruleIdx) == key && KindOf(e.feature) == kind {
      assert e in log + [x];
    }
    assert x in log + [x];
  }

  lemma {:induction false} WrittenFirst(p: PolicyValue, f: PolicyFeature)
    requires f.RateLimit? && p.rateLimit.None?
    ensures Written(p, f).rateLimit == Some(RateLimitSpec(Some(LocalRateLimit([LimitFor(f.limit, f.unit)]))))
  {
    assert RulesOf(p) + [LimitFor(f.limit, f.unit)] == [LimitFor(f.limit, f.unit)];
  }

  lemma {:induction false} ReflectsSnoc(routes: Routes, log: seq<Entry>, x: Entry, t: Table)
    requires AllKnown(routes, log) && Known(routes, x) && Reflects(routes, log, t)
    requires NoCollision(log + [x]) && EachOnce(log + [x])
    ensures AllKnown(routes, log + [x]) && Reflects(routes, log + [x], Apply(routes, t, x))
  {
    var key := PolicyKey(x.route, x.ruleIdx);
    var both, after := log + [x], Apply(routes, t, x);
    assert x in both;
    forall e | e in log && PolicyKey(e.route, e.ruleIdx) == key
      ensures KindOf(e.feature) != KindOf(x.feature)
      ensures TargetOf(routes, e.route, e.ruleIdx) == TargetOf(routes, x.route, x.ruleIdx)
    {
      assert e in both && SameName(e, x);
      var i :| 0 <= i < |log| && log[i] == e;
      assert both[i] == e && both[|log|] == x;
    }
    assert !Asked(log, key, KindOf(x.feature));
    assert x.feature.RateLimit? && key in t ==> t[key].rateLimit.None?;
    if x.feature.RateLimit? {
      var found := if key in t then t[key] else PolicyValue(TargetOf(routes, x.route, x.ruleIdx), None, None);
      WrittenFirst(found, x.feature);
    }
    forall k ensures k in after <==> Asked(both, k, RateLimitKey) || Asked(both, k, TimeoutKey)
             ensures k in after ==> (after[k].rateLimit.Some? <==> Asked(both, k, RateLimitKey))
                                    && (after[k].timeout.Some? <==> Asked(both, k, TimeoutKey))
    {
      AskedSnoc(log, x, k, RateLimitKey);
      AskedSnoc(log, x, k, TimeoutKey);
    }
    forall e | e in both ensures Known(routes, e) && Disciplined(routes, e, after) {
      if e in log {
        assert Disciplined(routes, e, t);
      }
    }
  }

  lemma {:induction false} LogIsReflected(routes: Routes, log: seq<Entry>)
    requires AllKnown(routes, log) && NoCollision(log) && EachOnce(log)
    ensures Reflects(routes, log, ApplyAll(routes, log))
  {
    if log != [] {
      var t, x := log[..|log| - 1], log[|log| - 1];
      assert log == t + [x];
      LogIsReflected(routes, t);
      ReflectsSnoc(routes, t, x, ApplyAll(routes, t));
    }
  }

  /** Where two names coincide although the places differ: the policy for all rules of a route named like another route
      with a rule number. */
  lemma {:induction false} PolicyNamesCoincideIff(a: NamespacedName, i: int, b: NamespacedName, j: int)
    requires i >= ALL_INDEX && j >= ALL_INDEX
    ensures PolicyKey(a, i) == PolicyKey(b, j) && !(a == b && i == j) <==>
            a.namespace == b.namespace
            && ((i == ALL_INDEX && j >= 0 && a.name == b.name + "-" + Decimal(j))
                || (j == ALL_INDEX && i >= 0 && b.name == a.name + "-" + Decimal(i)))
    ensures PolicyKey(a, i) == PolicyKey(b, j) && !(a == b && i == j) ==> |a.name| != |b.name|
  {
    if PolicyKey(a, i) == PolicyKey(b, j) && i >= 0 && j >= 0 {
      LastDashSplits(a.name, Decimal(i), b.name, Decimal(j));
      DecimalRoundTrip(i);
      DecimalRoundTrip(j);
    }
    if i == ALL_INDEX && j >= 0 && a.name == b.name + "-" + Decimal(j) {
      assert |a.name| > |b.name|;
    }
    if j == ALL_INDEX && i >= 0 && b.name == a.name + "-" + Decimal(i) {
      assert |b.name| > |a.name|;
    }
  }

  /** The policies of a run are all as their entries say exactly when no two places share a policy name. */
  lemma {:induction false} DisciplinedIff(routes: Routes, log: seq<Entry>)
    requires AllKnown(routes, log) && EachOnce(log)
    ensures forall e | e in log :: Known(routes, e)
    ensures (forall e | e in log :: Disciplined(routes, e, ApplyAll(routes, log))) <==> NoCollision(log)
  {
    forall e | e in log ensures Known(routes, e) {
      var i :| 0 <= i < |log| && log[i] == e;
    }
    if NoCollision(log) {
      LogIsReflected(routes, log);
    } else {
      var e, f :| e in log && f in log && SameName(e, f) && !SamePlace(e, f);
      PolicyNamesCoincideIff(e.route, e.ruleIdx, f.route, f.ruleIdx);
      assert !(Disciplined(routes, e, ApplyAll(routes, log)) && Disciplined(routes, f, ApplyAll(routes, log)));
    }
  }

  // ---- the parsed flags ----

  type AllFeatures = map<NamespacedName, map<FeatureKey, FeatureMap>>

  ghost predicate IsPolicyFeature(f: Feature, kind: FeatureKey) {
    (f.RateLimit? && kind == RateLimitKey) || (f.Timeout? && kind == TimeoutKey)
  }

  ghost predicate EntriesOf(m: FeatureMap, kind: FeatureKey) {
    (exists i :: i in m) && forall i | i in m :: i >= ALL_INDEX && IsPolicyFeature(m[i].feature, kind)
  }

  ghost predicate Unparsed(m: FeatureMap) { forall i | i in m :: !m[i].parsed }

  /** All parsed, and merging again would change nothing. */
  ghost predicate Finished(m: FeatureMap, n: nat) {
    (forall i | i in m :: m[i].parsed) && (Collapses(m, n) ==> m.Keys == {ALL_INDEX})
  }

  ghost predicate WellFormed(routes: Routes, fs: AllFeatures) {
    (forall nn | nn in fs :: nn in routes) &&
    forall nn, kind | nn in fs && kind in fs[nn] ::
      EntriesOf(fs[nn][kind], kind)
      && (Unparsed(fs[nn][kind]) || Finished(fs[nn][kind], |routes[nn].rules|))
  }

  /** `e` is a parsed entry of `fs`. */
  ghost predicate IsParsed(fs: AllFeatures, e: Entry) {
    && e.route in fs && KindOf(e.feature) in fs[e.route]
    && e.ruleIdx in fs[e.route][KindOf(e.feature)]
    && fs[e.route][KindOf(e.feature)][e.ruleIdx].parsed
    && fs[e.route][KindOf(e.feature)][e.ruleIdx].feature == e.feature
  }

  /** The log is exactly the parsed entries, each once. */
  ghost predicate Logged(fs: AllFeatures, log: seq<Entry>) {
    EachOnce(log) && forall e :: e in log <==> IsParsed(fs, e)
  }

  /** The entries of one route a pass has emitted. */
  ghost predicate NewsOf(route: NamespacedName, m: FeatureMap, visited: set<int>, news: seq<Entry>) {
    && (forall i, j | 0 <= i < j < |news| :: news[i].ruleIdx != news[j].ruleIdx)
    && forall e :: e in news <==> e.route == route && e.ruleIdx in visited && e.ruleIdx in m
                                  && !m[e.ruleIdx].parsed && m[e.ruleIdx].feature == e.feature
  }

  lemma {:induction false} NewsStep(route: NamespacedName, m: FeatureMap, visited: set<int>, news: seq<Entry>, i: int)
    requires NewsOf(route, m, visited, news) && i in m && i !in visited
    ensures m[i].parsed ==> NewsOf(route, m, visited + {i}, news)
    ensures !m[i].parsed && (m[i].feature.RateLimit? || m[i].feature.Timeout?) ==>
              NewsOf(route, m, visited + {i}, news + [Entry(route, i, m[i].feature)])
  {
    forall k | 0 <= k < |news| ensures news[k].ruleIdx != i {
      assert news[k] in news;
    }
  }

  lemma {:induction false} MergeOfFinished(m: FeatureMap, n: nat, r: FeatureMap)
    requires Finished(m, n) && Merged(m, n, r)
    ensures r == m
  {
  }

  lemma {:induction false} MergedEntriesOf(m: FeatureMap, kind: FeatureKey, n: nat, r: FeatureMap)
    requires EntriesOf(m, kind) && Merged(m, n, r)
    ensures EntriesOf(r, kind)
  {
    if Collapses(m, n) {
      var i :| i in m && r == map[ALL_INDEX := m[i]];
      assert ALL_INDEX in r;
    }
  }

  lemma {:induction false} MergeOfUnparsed(m: FeatureMap, kind: FeatureKey, n: nat, r: FeatureMap)
    requires EntriesOf(m, kind) && Unparsed(m) && Merged(m, n, r)
    ensures EntriesOf(r, kind) && Unparsed(r) && (Collapses(r, n) ==> r.Keys == {ALL_INDEX})
  {
    MergedEntriesOf(m, kind, n, r);
  }

  function AllParsed(m: FeatureMap): FeatureMap { map i | i in m :: m[i].(parsed := true) }

  lemma {:induction false} FinishedAfter(m: FeatureMap, kind: FeatureKey, n: nat)
    requires EntriesOf(m, kind) && (Collapses(m, n) ==> m.Keys == {ALL_INDEX})
    ensures EntriesOf(AllParsed(m), kind) && Finished(AllParsed(m), n)
  {
    var p := AllParsed(m);
    assert p.Keys == m.Keys && |p| == |p.Keys| && |m| == |m.Keys|;
    if AllEqual(p) {
      forall i, j | i in m && j in m ensures Equals(m[i].feature, m[j].feature) {
        assert i in p && j in p;
        assert p[i].feature == m[i].feature && p[j].feature == m[j].feature;
      }
    }
  }

  /** What a pass over one route does to the flags and the log. */
  lemma {:induction false} PassKeepsLog(routes: Routes, fs: AllFeatures, log: seq<Entry>, nn: NamespacedName,
          kind: FeatureKey, merged: FeatureMap, news: seq<Entry>)
    requires WellFormed(routes, fs) && Logged(fs, log) && nn in fs && kind in fs[nn]
    requires nn in routes && Merged(fs[nn][kind], |routes[nn].rules|, merged) && NewsOf(nn, merged, merged.Keys, news)
    ensures var fs' := fs[nn := fs[nn][kind := AllParsed(merged)]];
            && WellFormed(routes, fs') && Logged(fs', log + news)
            && Emitted(routes, fs, log, nn, kind, fs', log + news)
  {
    var m, n := fs[nn][kind], |routes[nn].rules|;
    var fs' := fs[nn := fs[nn][kind := AllParsed(merged)]];
    if Unparsed(m) {
      MergeOfUnparsed(m, kind, n, merged);
      FinishedAfter(merged, kind, n);
      PassKeepsWellFormed(routes, fs, nn, kind, AllParsed(merged));
      NewEntriesLogged(fs, log, nn, kind, merged, news);
      NotBoth(m, kind, n);
    } else {
      MergeOfFinished(m, n, merged);
      forall i | i in m ensures AllParsed(m)[i] == m[i] {}
      assert AllParsed(merged) == m;
      assert fs[nn][kind := m] == fs[nn];
      assert fs' == fs;
      if news != [] {
        FirstIsNews(nn, merged, news);
        assert false;
      }
      assert log + news == log;
    }
  }

  lemma {:induction false} NotBoth(m: FeatureMap, kind: FeatureKey, n: nat)
    requires EntriesOf(m, kind) && Unparsed(m)
    ensures !Finished(m, n)
  {
    var i :| i in m;
    assert !m[i].parsed;
  }

  lemma {:induction false} FirstIsNews(nn: NamespacedName, m: FeatureMap, news: seq<Entry>)
    requires NewsOf(nn, m, m.Keys, news) && news != []
    ensures exists i | i in m :: !m[i].parsed
  {
    assert news[0] in news;
  }

  lemma {:induction false} PassKeepsWellFormed(routes: Routes, fs: AllFeatures, nn: NamespacedName, kind: FeatureKey,
          m: FeatureMap)
    requires WellFormed(routes, fs) && nn in fs && nn in routes
    requires EntriesOf(m, kind) && Finished(m, |routes[nn].rules|)
    ensures WellFormed(routes, fs[nn := fs[nn][kind := m]])
  {
  }

  lemma {:induction false} NewEntriesLogged(fs: AllFeatures, log: seq<Entry>, nn: NamespacedName, kind: FeatureKey,
          merged: FeatureMap, news: seq<Entry>)
    requires Logged(fs, log) && nn in fs && kind in fs[nn] && Unparsed(fs[nn][kind])
    requires EntriesOf(merged, kind) && Unparsed(merged) && NewsOf(nn, merged, merged.Keys, news)
    ensures Logged(fs[nn := fs[nn][kind := AllParsed(merged)]], log + news)
  {
    var fs' := fs[nn := fs[nn][kind := AllParsed(merged)]];
    var both := log + news;
    forall e ensures e in both <==> IsParsed(fs', e) {
      assert e in log <==> IsParsed(fs, e);
      assert e in both <==> e in log || e in news;
    }
    assert forall i | |log| <= i < |both| :: both[i] == news[i - |log|] && both[i] in news;
    forall i, j | 0 <= i < j < |both| && SamePlace(both[i], both[j])
      ensures KindOf(both[i].feature) != KindOf(both[j].feature)
    {
      if i < |log| {
        assert both[i] == log[i] && both[i] in log;
        assert IsParsed(fs, both[i]);
      }
    }
  }

  /** The entries visited so far carry the flag. */
  ghost predicate Flagged(m: FeatureMap, visited: set<int>, after: FeatureMap) {
    && after.Keys == m.Keys
    && (forall i | i in m && i in visited :: after[i] == m[i].(parsed := true))
    && (forall i | i in m && i !in visited :: after[i] == m[i])
    && (visited == m.Keys ==> after == AllParsed(m))
  }

  lemma {:induction false} FlagStep(m: FeatureMap, visited: set<int>, after: FeatureMap, i: int)
    requires Flagged(m, visited, after) && i in m && i !in visited
    ensures after[i] == m[i]
    ensures Flagged(m, visited + {i}, after[i := m[i].(parsed := true)])
    ensures m[i].parsed ==> Flagged(m, visited + {i}, after)
  {
    var next := after[i := m[i].(parsed := true)];
    if visited + {i} == m.Keys {
      forall k | k in m ensures next[k] == AllParsed(m)[k] {}
      assert next == AllParsed(m);
    }
    if m[i].parsed {
      assert next == after;
    }
  }

  ghost predicate Visited(route: NamespacedName, m: FeatureMap, visited: set<int>, after: FeatureMap, news: seq<Entry>)
  {
    NewsOf(route, m, visited, news) && Flagged(m, visited, after)
  }

  /** A pass over one route changes only its entries of that kind, leaves them finished, and does nothing if they
      were. */
  ghost predicate Emitted(routes: Routes, fs: AllFeatures, log: seq<Entry>, route: NamespacedName, kind: FeatureKey,
          fs': AllFeatures, log': seq<Entry>)
  {
    && route in routes && route in fs && fs'.Keys == fs.Keys && fs'[route].Keys == fs[route].Keys
    && (forall nn | nn in fs && nn != route :: fs'[nn] == fs[nn])
    && (forall k | k in fs[route] && k != kind :: fs'[route][k] == fs[route][k])
    && (kind in fs[route] ==> Finished(fs'[route][kind], |routes[route].rules|))
    && (kind !in fs[route] || Finished(fs[route][kind], |routes[route].rules|) ==> fs' == fs && log' == log)
  }

  ghost predicate OnlyKindChanged(before: map<FeatureKey, FeatureMap>, kind: FeatureKey,
          after: map<FeatureKey, FeatureMap>)
  {
    after.Keys == before.Keys && forall k | k in before && k != kind :: after[k] == before[k]
  }

  ghost predicate FinishedRoute(routes: Routes, kind: FeatureKey, fs: AllFeatures, nn: NamespacedName) {
    nn in routes && nn in fs && (kind in fs[nn] ==> Finished(fs[nn][kind], |routes[nn].rules|))
  }

  /** A pass over all routes but those in `todo`: only features of its kind changed, the visited ones are finished, and
      nothing changed if all of them were finished before. */
  ghost predicate PassOver(routes: Routes, kind: FeatureKey, first: AllFeatures, start: seq<Entry>,
          todo: set<NamespacedName>, fs: AllFeatures, log: seq<Entry>)
  {
    && fs.Keys == first.Keys
    && (forall nn | nn in fs :: OnlyKindChanged(first[nn], kind, fs[nn]))
    && (forall nn | nn in fs && nn !in todo :: FinishedRoute(routes, kind, fs, nn))
    && ((forall nn | nn in first :: FinishedRoute(routes, kind, first, nn)) ==> fs == first && log == start)
  }

  lemma {:induction false} PassStart(routes: Routes, kind: FeatureKey, fs: AllFeatures, log: seq<Entry>)
    ensures PassOver(routes, kind, fs, log, fs.Keys, fs, log)
  {
  }

  lemma {:induction false} PassStep(routes: Routes, kind: FeatureKey, first: AllFeatures, start: seq<Entry>,
          todo: set<NamespacedName>, fs: AllFeatures, log: seq<Entry>, route: NamespacedName, fs': AllFeatures,
          log': seq<Entry>)
    requires PassOver(routes, kind, first, start, todo, fs, log) && Emitted(routes, fs, log, route, kind, fs', log')
    ensures PassOver(routes, kind, first, start, todo - {route}, fs', log')
  {
    forall nn | nn in fs' && nn !in todo - {route} ensures FinishedRoute(routes, kind, fs', nn) {
      if nn != route {
        assert FinishedRoute(routes, kind, fs, nn);
      }
    }
    if forall nn | nn in first :: FinishedRoute(routes, kind, first, nn) {
      assert FinishedRoute(routes, kind, first, route);
    }
  }

  // ---- the emitters ----

  class Policy {
    const nn: NamespacedName
    const target: PolicyTarget
    var rateLimit: Option<RateLimitSpec>
    var timeout: Option<TimeoutSpec>

    constructor (nn: NamespacedName, target: PolicyTarget)
      ensures this.nn == nn && this.target == target && rateLimit == None && timeout == None
    {
      this.nn, this.target, rateLimit, timeout := nn, target, None, None;
    }

    function Value(): PolicyValue
      reads this
    {
      PolicyValue(target, rateLimit, timeout)
    }

    /** The writes of EmitRateLimit. */
    method AppendLimit(requests: nat, unit: TimeUnit)
      modifies this
      ensures Value() == Written(old(Value()), RateLimit(requests, unit))
    {
      if rateLimit.None? {
        rateLimit := Some(RateLimitSpec(None));
      }
      if rateLimit.value.local.None? {
        rateLimit := Some(rateLimit.value.(local := Some(LocalRateLimit([]))));
      }
      var rules := rateLimit.value.local.value.rules;
      rules := rules + [LimitRule(requests, unit, [SourceMatch("Distinct", "0.0.0.0/0")])];
      rateLimit := Some(RateLimitSpec(Some(LocalRateLimit(rules))));
    }

    /** The writes of EmitTimeout. */
    method SetConnectTimeout(duration: Option<string>)
      modifies this
      ensures Value() == Written(old(Value()), Timeout(duration))
    {
      if timeout.None? {
        timeout := Some(TimeoutSpec(None));
      }
      timeout := Some(timeout.value.(tcp := Some(TcpTimeout(duration))));
    }

    method Write(feature: PolicyFeature)
      modifies this
      ensures Value() == Written(old(Value()), feature)
    {
      if feature.RateLimit? {
        AppendLimit(feature.limit, feature.unit);
      } else {
        SetConnectTimeout(feature.duration);
      }
    }
  }

  /** The emitter's policy table, with the features it emits and a ghost log of the entries emitted so far. */
  class PolicyEmitter {
    const routes: Routes
    var features: AllFeatures
    var policies: map<NamespacedName, Policy>
    ghost var log: seq<Entry>

    ghost function Contents(): Table
      reads this`policies, policies.Values
    {
      map k | k in policies :: policies[k].Value()
    }

    ghost predicate TableValid()
      reads this`policies, this`log, policies.Values
    {
      && (forall k | k in policies :: policies[k].nn == k)
      && AllKnown(routes, log) && Contents() == ApplyAll(routes, log)
    }

    ghost predicate Valid()
      reads this, policies.Values
    {
      TableValid() && WellFormed(routes, features) && Logged(features, log)
    }

    constructor (routes: Routes, features: AllFeatures)
      requires WellFormed(routes, features)
      requires forall nn, kind | nn in features && kind in features[nn] :: Unparsed(features[nn][kind])
      ensures Valid() && this.routes == routes && this.features == features && log == [] && policies == map[]
    {
      this.routes, this.features, policies, log := routes, features, map[], [];
    }

    /** getOrBuildBackendTrafficPolicy */
    method GetOrBuild(route: NamespacedName, section: Option<string>, ruleIdx: int) returns (policy: Policy)
      requires forall k | k in policies :: policies[k].nn == k
      modifies this`policies
      ensures forall k | k in policies :: policies[k].nn == k
      ensures var key := PolicyKey(route, ruleIdx);
              && key in policies && policies[key] == policy
              && if key in old(policies) then policies == old(policies)
                 else fresh(policy) && policies == old(policies)[key := policy]
                      && policy.Value() == PolicyValue(PolicyTarget(route.name, section), None, None)
    {
      var name := route.name + "-" + DecimalInt(ruleIdx);
      if ruleIdx == ALL_INDEX {
        name := route.name;
      }
      var key := NN(route.namespace, name);
      if key in policies {
        return policies[key];
      }
      policy := new Policy(key, PolicyTarget(route.name, section));
      policies := policies[key := policy];
    }

    method SectionFor(route: NamespacedName, ruleIdx: int) returns (section: Option<string>)
      requires route in routes && ruleIdx >= ALL_INDEX
      ensures section == SectionName(routes, route, ruleIdx)
    {
      section := None;
      if ruleIdx != ALL_INDEX && ruleIdx < |routes[route].rules| {
        section := routes[route].rules[ruleIdx].name;
      }
    }

    /** One unparsed entry. */
    method EmitEntry(route: NamespacedName, ruleIdx: int, feature: PolicyFeature)
      requires (forall k | k in policies :: policies[k].nn == k) && Known(routes, Entry(route, ruleIdx, feature))
      modifies this`policies, policies.Values
      ensures (forall k | k in policies :: policies[k].nn == k) && fresh(policies.Values - old(policies.Values))
      ensures Contents() == Apply(routes, old(Contents()), Entry(route, ruleIdx, feature))
    {
      var section := SectionFor(route, ruleIdx);
      var policy := GetOrBuild(route, section, ruleIdx);
      assert forall k | k in policies && k != policy.nn :: policies[k] != policy;
      policy.Write(feature);
    }

    method LogEntry(route: NamespacedName, ruleIdx: int, feature: PolicyFeature)
      requires TableValid() && Known(routes, Entry(route, ruleIdx, feature))
      modifies this`policies, this`log, policies.Values
      ensures TableValid() && fresh(policies.Values - old(policies.Values))
      ensures log == old(log) + [Entry(route, ruleIdx, feature)]
    {
      EmitEntry(route, ruleIdx, feature);
      log := log + [Entry(route, ruleIdx, feature)];
      assert log[..|log| - 1] == old(log);
    }

    /** The body of the loop over entries: a parsed one is skipped. */
    method VisitEntry(route: NamespacedName, ghost kind: FeatureKey, ghost entries: FeatureMap, ghost visited: set<int>,
            ghost before: seq<Entry>, ghost news: seq<Entry>, after: FeatureMap, idx: int)
      returns (after': FeatureMap, ghost news': seq<Entry>)
      requires TableValid() && route in routes && EntriesOf(entries, kind) && idx in entries && idx !in visited
      requires log == before + news && Visited(route, entries, visited, after, news)
      modifies this`policies, this`log, policies.Values
      ensures TableValid() && fresh(policies.Values - old(policies.Values))
      ensures log == before + news' && Visited(route, entries, visited + {idx}, after', news')
    {
      after', news' := after, news;
      NewsStep(route, entries, visited, news, idx);
      FlagStep(entries, visited, after, idx);
      if !after[idx].parsed {
        LogEntry(route, idx, after[idx].feature);
        news' := news + [Entry(route, idx, after[idx].feature)];
        after' := after[idx := after[idx].(parsed := true)];
      }
    }

    /** The loop over the merged entries of one route, in any order. */
    method EmitEntries(route: NamespacedName, ghost kind: FeatureKey, entries: FeatureMap)
      returns (after: FeatureMap, ghost news: seq<Entry>)
      requires TableValid() && route in routes && EntriesOf(entries, kind)
      modifies this`policies, this`log, policies.Values
      ensures TableValid() && fresh(policies.Values - old(policies.Values))
      ensures log == old(log) + news && NewsOf(route, entries, entries.Keys, news)
      ensures after == AllParsed(entries)
    {
      after, news := entries, [];
      var todo := entries.Keys;
      ghost var visited, before: seq<Entry> := {}, log;
      while todo != {}
        invariant TableValid() && fresh(policies.Values - old(policies.Values))
        invariant todo <= entries.Keys && visited == entries.Keys - todo
        invariant log == before + news && Visited(route, entries, visited, after, news)
        decreases |todo|
      {
        var idx := Any(todo);
        after, news := VisitEntry(route, kind, entries, visited, before, news, after, idx);
        todo, visited := todo - {idx}, visited + {idx};
      }
      assert visited == entries.Keys;
    }

    /** MergeExtensionFeature, then the loop. */
    method EmitMerged(route: NamespacedName, kind: FeatureKey, entries: FeatureMap)
      returns (after: FeatureMap, ghost merged: FeatureMap, ghost news: seq<Entry>)
      requires TableValid() && route in routes && EntriesOf(entries, kind)
      modifies this`policies, this`log, policies.Values
      ensures TableValid() && fresh(policies.Values - old(policies.Values))
      ensures Merged(entries, |routes[route].rules|, merged)
      ensures log == old(log) + news && NewsOf(route, merged, merged.Keys, news)
      ensures after == AllParsed(merged)
    {
      var m := MergeEntries(entries, |routes[route].rules|);
      MergedEntriesOf(entries, kind, |routes[route].rules|, m);
      merged := m;
      after, news := EmitEntries(route, kind, m);
    }

    /** EmitRateLimit or EmitTimeout, by `kind`, for one route. */
    method EmitRoute(route: NamespacedName, kind: FeatureKey)
      requires Valid() && route in features
      modifies this, policies.Values
      ensures Valid() && fresh(policies.Values - old(policies.Values))
      ensures Emitted(routes, old(features), old(log), route, kind, features, log)
    {
      if kind !in features[route] {
        return;
      }
      assert EntriesOf(features[route][kind], kind);
      var after;
      ghost var merged, news;
      after, merged, news := EmitMerged(route, kind, features[route][kind]);
      PassKeepsLog(routes, old(features), old(log), route, kind, merged, news);
      features := features[route := features[route][kind := after]];
    }

    /** The pass of one kind over the routes not in `todo`. */
    ghost predicate PassSoFar(kind: FeatureKey, first: AllFeatures, start: seq<Entry>, todo: set<NamespacedName>)
      reads this, policies.Values
    {
      Valid() && todo <= features.Keys && PassOver(routes, kind, first, start, todo, features, log)
    }

    /** The body of the loop over routes. */
    method EmitNext(route: NamespacedName, kind: FeatureKey, ghost first: AllFeatures, ghost start: seq<Entry>,
            ghost todo: set<NamespacedName>)
      requires PassSoFar(kind, first, start, todo) && route in todo
      modifies this, policies.Values
      ensures fresh(policies.Values - old(policies.Values)) && PassSoFar(kind, first, start, todo - {route})
    {
      EmitRoute(route, kind);
      PassStep(routes, kind, first, start, todo, old(features), old(log), route, features, log);
    }

    /** EmitRateLimit or EmitTimeout, by `kind`: the routes in any order. */
    method Emit(kind: FeatureKey)
      requires Valid()
      modifies this, policies.Values
      ensures Valid() && fresh(policies.Values - old(policies.Values))
      ensures PassOver(routes, kind, old(features), old(log), {}, features, log)
    {
      var todo := features.Keys;
      ghost var first, start: seq<Entry> := features, log;
      PassStart(routes, kind, first, start);
      while todo != {}
        invariant fresh(policies.Values - old(policies.Values)) && PassSoFar(kind, first, start, todo)
        decreases |todo|
      {
        var route := Any(todo);
        EmitNext(route, kind, first, start, todo);
        todo := todo - {route};
      }
    }
  }

  // ---- policy table discipline ----

  /** In every state the emitter can reach, the policies of all parsed entries are as the entries say exactly when no
      two of their places share a policy name; and then the table holds nothing else. */
  lemma {:induction false} PolicyDiscipline(routes: Routes, fs: AllFeatures, log: seq<Entry>)
    requires WellFormed(routes, fs) && Logged(fs, log)
    ensures AllKnown(routes, log) && forall e | IsParsed(fs, e) :: Known(routes, e)
    ensures (forall e | IsParsed(fs, e) :: Disciplined(routes, e, ApplyAll(routes, log))) <==> NoCollision(log)
    ensures NoCollision(log) ==> Reflects(routes, log, ApplyAll(routes, log))
  {
    forall i | 0 <= i < |log| ensures Known(routes, log[i]) {
      assert log[i] in log;
      assert IsParsed(fs, log[i]);
    }
    DisciplinedIff(routes, log);
    if NoCollision(log) {
      LogIsReflected(routes, log);
    }
  }

  /** No collision is possible while no route is named like another of its namespace with a number. */
  lemma {:induction false} NumberFreeNamesDoNotCollide(routes: Routes, fs: AllFeatures, log: seq<Entry>)
    requires WellFormed(routes, fs) && Logged(fs, log)
    requires forall a, b, n: nat | a in fs && b in fs && a.namespace == b.namespace ::
               a.name != b.name + "-" + Decimal(n)
    ensures NoCollision(log)
  {
    forall e, f | e in log && f in log && SameName(e, f) ensures SamePlace(e, f) {
      assert IsParsed(fs, e) && IsParsed(fs, f);
      PolicyNamesCoincideIff(e.route, e.ruleIdx, f.route, f.ruleIdx);
    }
  }

  // ---- the rules a policy applies to ----

  /** All rules have names, and no two have one. */
  ghost predicate RulesNamedApart(route: HTTPRoute) {
    && (forall i | 0 <= i < |route.rules| :: route.rules[i].name.Some?)
    && (forall i, j | 0 <= i < j < |route.rules| :: route.rules[i].name != route.rules[j].name)
  }

  /** A policy without a section applies to every rule of its route, one with a section to the rules of that name. */
  predicate AppliesTo(p: PolicyValue, route: HTTPRoute, i: nat)
    requires i < |route.rules|
  {
    p.target.route == route.nn.name && (p.target.section == None || p.target.section == route.rules[i].name)
  }

  /** In every reachable state without name collisions, on a route whose rules are named apart: the policy of an entry
      for one rule applies to that rule and to no other, and has no section iff the entry is for all rules. */
  lemma {:induction false} PolicyAppliesIff(routes: Routes, fs: AllFeatures, log: seq<Entry>, e: Entry, i: nat)
    requires WellFormed(routes, fs) && Logged(fs, log) && NoCollision(log) && IsParsed(fs, e)
    requires e.route in routes && routes[e.route].nn == e.route && RulesNamedApart(routes[e.route])
    requires e.ruleIdx < |routes[e.route].rules| && i < |routes[e.route].rules|
    ensures AllKnown(routes, log) && PolicyKey(e.route, e.ruleIdx) in ApplyAll(routes, log)
    ensures var p := ApplyAll(routes, log)[PolicyKey(e.route, e.ruleIdx)];
            && (AppliesTo(p, routes[e.route], i) <==> e.ruleIdx == ALL_INDEX || e.ruleIdx == i)
            && (p.target.section == None <==> e.ruleIdx == ALL_INDEX)
  {
    PolicyDiscipline(routes, fs, log);
    var t := ApplyAll(routes, log);
    assert Known(routes, e) && Disciplined(routes, e, t);
    AimedApplies(routes, e, t[PolicyKey(e.route, e.ruleIdx)], i);
  }

  lemma {:induction false} AimedApplies(routes: Routes, e: Entry, p: PolicyValue, i: nat)
    requires Known(routes, e) && Aims(routes, e, p.target)
    requires routes[e.route].nn == e.route && RulesNamedApart(routes[e.route])
    requires e.ruleIdx < |routes[e.route].rules| && i < |routes[e.route].rules|
    ensures AppliesTo(p, routes[e.route], i) <==> e.ruleIdx == ALL_INDEX || e.ruleIdx == i
    ensures p.target.section == None <==> e.ruleIdx == ALL_INDEX
  {
  }
}
