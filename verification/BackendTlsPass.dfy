/** What the passes of the BackendTLS emitter do: over the entries of one route, and over all routes. */
module BackendTlsPass {
  import opened Text
  import opened Kube
  import opened Features
  import opened BackendTls
  import opened BackendTlsRun

  /** A pass leaves the rules of other entries alone, so what they ask for does not change. */
  lemma {:induction false} RequestsAreLocal(a: HTTPRoute, b: HTTPRoute, ruleIdx: int, config: Config, targets: seq<int>)
    requires a.nn == b.nn && |a.rules| == |b.rules| && InRange(a, targets)
    requires forall t | 0 <= t < |targets| :: a.rules[targets[t]] == b.rules[targets[t]]
    ensures InRange(b, targets) && Requests(a, ruleIdx, config, targets) == Requests(b, ruleIdx, config, targets)
  {
    if targets != [] {
      RequestsAreLocal(a, b, ruleIdx, config, targets[..|targets| - 1]);
    }
  }

  lemma {:induction false} NextJob(before: HTTPRoute, jobs: seq<Job>, r: HTTPRoute, job: Job, table: Table)
    requires JobsFit(before, jobs + [job]) && SeparateJobs(jobs + [job]) && JobsFit(before, jobs)
    requires Fits(before, job.ruleIdx)
    requires JobsRedirected(before, jobs, r)
    requires Safe(table, JobRequests(before, jobs)) && Safe(table, RouteRequests(before, job.ruleIdx, job.config))
    ensures Fits(r, job.ruleIdx)
    ensures Safe(Run(table, JobRequests(before, jobs)), RouteRequests(r, job.ruleIdx, job.config))
    ensures Safe(table, JobRequests(before, jobs + [job]))
    ensures Run(table, JobRequests(before, jobs + [job]))
            == Run(Run(table, JobRequests(before, jobs)), RouteRequests(r, job.ruleIdx, job.config))
    ensures forall after :: Redirected(r, job.ruleIdx, after) ==> JobsRedirected(before, jobs + [job], after)
  {
    UntouchedTargets(before, jobs, r, job);
    SameRequests(before, r, job);
    JobRequestsSnoc(before, jobs, job);
    RunConcat(table, JobRequests(before, jobs), RouteRequests(before, job.ruleIdx, job.config));
    RunKeepsKeys(table, JobRequests(before, jobs));
    SafeOnMore(table, Run(table, JobRequests(before, jobs)), RouteRequests(before, job.ruleIdx, job.config));
    SafeConcat(table, JobRequests(before, jobs), RouteRequests(before, job.ruleIdx, job.config));
    forall after | Redirected(r, job.ruleIdx, after) ensures JobsRedirected(before, jobs + [job], after) {
      RedirectedSnoc(before, jobs, r, job, after);
    }
  }

  lemma {:induction false} JobRequestsSnoc(route: HTTPRoute, jobs: seq<Job>, job: Job)
    requires JobsFit(route, jobs + [job]) && JobsFit(route, jobs) && Fits(route, job.ruleIdx)
    ensures JobRequests(route, jobs + [job]) == JobRequests(route, jobs) + RouteRequests(route, job.ruleIdx, job.config)
  {
    assert (jobs + [job])[..|jobs|] == jobs;
  }

  /** The rules an entry targets have not moved yet. */
  lemma {:induction false} UntouchedTargets(before: HTTPRoute, jobs: seq<Job>, r: HTTPRoute, job: Job)
    requires SeparateJobs(jobs + [job]) && JobsRedirected(before, jobs, r)
    ensures forall i | 0 <= i < |before.rules| && Targeted(job.ruleIdx, i) :: r.rules[i] == before.rules[i]
  {
    var both := jobs + [job];
    assert both[|jobs|] == job;
    forall i | 0 <= i < |before.rules| && Targeted(job.ruleIdx, i) ensures r.rules[i] == before.rules[i] {
      assert RuleMoved(before, jobs, i, r.rules[i]);
      forall k | 0 <= k < |jobs| ensures !Targeted(jobs[k].ruleIdx, i) {
        assert both[k] == jobs[k];
      }
    }
  }

  lemma {:induction false} SameRequests(before: HTTPRoute, r: HTTPRoute, job: Job)
    requires before.nn == r.nn && |before.rules| == |r.rules| && Fits(before, job.ruleIdx)
    requires forall i | 0 <= i < |before.rules| && Targeted(job.ruleIdx, i) :: r.rules[i] == before.rules[i]
    ensures Fits(r, job.ruleIdx)
    ensures RouteRequests(r, job.ruleIdx, job.config) == RouteRequests(before, job.ruleIdx, job.config)
  {
    TargetsFit(before, job.ruleIdx);
    var ts := Targets(before, job.ruleIdx);
    forall t | 0 <= t < |ts| ensures before.rules[ts[t]] == r.rules[ts[t]] {
      assert ts[t] in ts;
    }
    RequestsAreLocal(before, r, job.ruleIdx, job.config, ts);
  }

  lemma {:induction false} RedirectedSnoc(before: HTTPRoute, jobs: seq<Job>, r: HTTPRoute, job: Job, after: HTTPRoute)
    requires SeparateJobs(jobs + [job]) && JobsRedirected(before, jobs, r) && Redirected(r, job.ruleIdx, after)
    ensures JobsRedirected(before, jobs + [job], after)
  {
    var both := jobs + [job];
    assert both[|jobs|] == job && forall k | 0 <= k < |jobs| :: both[k] == jobs[k];
    UntouchedTargets(before, jobs, r, job);
    forall i | 0 <= i < |before.rules| ensures RuleMoved(before, both, i, after.rules[i]) {
      assert RuleMoved(before, jobs, i, r.rules[i]);
    }
  }

  /** What the emitter needs of a route's merged entries: entries for rules or one for all rules, and unparsed ones in
      range that panic on no reference, whenever their turn comes. */
  ghost predicate Ready(route: HTTPRoute, entries: FeatureMap, table: Table) {
    && AllBackendTLS(entries)
    && (ALL_INDEX in entries ==> entries.Keys == {ALL_INDEX})
    && (forall i | i in entries && !entries[i].parsed ::
          Fits(route, i) && Safe(table, RouteRequests(route, i, entries[i].feature)))
  }

  ghost predicate AllBackendTLS(entries: FeatureMap) { forall i | i in entries :: entries[i].feature.BackendTLS? }

  /** The jobs after entry `i`: a parsed one is skipped. */
  ghost function NextJobs(entries: FeatureMap, jobs: seq<Job>, i: int): seq<Job>
    requires AllBackendTLS(entries) && i in entries
  {
    if entries[i].parsed then jobs else jobs + [Job(i, entries[i].feature)]
  }

  /** The jobs of a pass are the unparsed entries, each once. */
  ghost predicate JobsOf(entries: FeatureMap, visited: set<int>, jobs: seq<Job>) {
    && SeparateJobs(jobs)
    && (forall k | 0 <= k < |jobs| :: JobOf(entries, visited, jobs[k]))
    && (forall i | i in visited && i in entries && !entries[i].parsed :: HasJob(jobs, i))
  }

  ghost predicate JobOf(entries: FeatureMap, visited: set<int>, job: Job) {
    job.ruleIdx in visited && job.ruleIdx in entries && !entries[job.ruleIdx].parsed
    && entries[job.ruleIdx].feature == job.config
  }

  ghost predicate HasJob(jobs: seq<Job>, i: int) { exists k | 0 <= k < |jobs| :: jobs[k].ruleIdx == i }

  lemma {:induction false} SeparateSnoc(jobs: seq<Job>, job: Job)
    requires SeparateJobs(jobs)
    requires forall k | 0 <= k < |jobs| :: jobs[k].ruleIdx != job.ruleIdx && jobs[k].ruleIdx != ALL_INDEX
    requires jobs != [] ==> job.ruleIdx != ALL_INDEX
    ensures SeparateJobs(jobs + [job])
  {
    var next := jobs + [job];
    forall k, l | 0 <= k < l < |next|
      ensures next[k].ruleIdx != ALL_INDEX && next[l].ruleIdx != ALL_INDEX && next[k].ruleIdx != next[l].ruleIdx
    {
      assert next[k] == jobs[k];
      if l < |jobs| {
        assert next[l] == jobs[l];
      }
    }
  }

  lemma {:induction false} HasJobSnoc(jobs: seq<Job>, job: Job, i: int)
    ensures HasJob(jobs + [job], i) <==> HasJob(jobs, i) || job.ruleIdx == i
  {
    var next := jobs + [job];
    assert next[|jobs|] == job;
    if k :| 0 <= k < |jobs| && jobs[k].ruleIdx == i {
      assert next[k].ruleIdx == i;
    }
  }

  lemma {:induction false} OneMoreJob(route: HTTPRoute, entries: FeatureMap, visited: set<int>, jobs: seq<Job>, i: int,
          table: Table)
    requires Ready(route, entries, table) && JobsOf(entries, visited, jobs) && i in entries && i !in visited
    requires JobsFit(route, jobs) && visited <= entries.Keys
    ensures JobsOf(entries, visited + {i}, NextJobs(entries, jobs, i)) && JobsFit(route, NextJobs(entries, jobs, i))
  {
    if !entries[i].parsed {
      var job := Job(i, entries[i].feature);
      forall k | 0 <= k < |jobs| ensures jobs[k].ruleIdx != i && jobs[k].ruleIdx != ALL_INDEX && i != ALL_INDEX {
        assert JobOf(entries, visited, jobs[k]);
        assert i in entries.Keys && jobs[k].ruleIdx in entries.Keys;
      }
      assert jobs != [] ==> jobs[0].ruleIdx != ALL_INDEX;
      SeparateSnoc(jobs, job);
      AddedJob(route, entries, visited, jobs, job);
    }
  }

  lemma {:induction false} AddedJob(route: HTTPRoute, entries: FeatureMap, visited: set<int>, jobs: seq<Job>, job: Job)
    requires JobsOf(entries, visited, jobs) && JobsFit(route, jobs) && Fits(route, job.ruleIdx)
    requires SeparateJobs(jobs + [job]) && JobOf(entries, visited + {job.ruleIdx}, job)
    ensures JobsOf(entries, visited + {job.ruleIdx}, jobs + [job]) && JobsFit(route, jobs + [job])
  {
    var now, next := visited + {job.ruleIdx}, jobs + [job];
    forall k | 0 <= k < |next| ensures JobOf(entries, now, next[k]) && Fits(route, next[k].ruleIdx) {
      if k < |jobs| {
        assert next[k] == jobs[k] && JobOf(entries, visited, jobs[k]);
      }
    }
    forall v | v in now && v in entries && !entries[v].parsed ensures HasJob(next, v) {
      HasJobSnoc(jobs, job, v);
    }
  }

  /** How far a pass over the entries has come. */
  ghost predicate Progress(route: HTTPRoute, entries: FeatureMap, visited: set<int>, after: FeatureMap, jobs: seq<Job>,
          r: HTTPRoute)
  {
    && visited <= entries.Keys && Marked(entries, visited, after)
    && JobsOf(entries, visited, jobs) && JobsFit(route, jobs) && JobsRedirected(route, jobs, r)
  }

  /** Exactly the entries visited have become parsed. */
  ghost predicate Marked(entries: FeatureMap, visited: set<int>, after: FeatureMap) {
    && after.Keys == entries.Keys
    && forall i | i in entries :: after[i] == if i in visited then entries[i].(parsed := true) else entries[i]
  }

  lemma {:induction false} MarkOne(entries: FeatureMap, visited: set<int>, after: FeatureMap, i: int)
    requires Marked(entries, visited, after) && i in entries
    ensures Marked(entries, visited + {i}, after[i := entries[i].(parsed := true)])
  {
  }

  ghost predicate Asked(route: HTTPRoute, jobs: seq<Job>, before: Table, after: Table) {
    JobsFit(route, jobs) && Safe(before, JobRequests(route, jobs)) && after == Run(before, JobRequests(route, jobs))
  }

  lemma {:induction false} NothingProcessed(route: HTTPRoute, entries: FeatureMap, table: Table)
    ensures Progress(route, entries, {}, entries, [], route) && Asked(route, [], table, table)
  {
    forall i | 0 <= i < |route.rules| ensures RuleMoved(route, [], i, route.rules[i]) {}
  }

  lemma {:induction false} ProgressReady(route: HTTPRoute, entries: FeatureMap, visited: set<int>, after: FeatureMap,
          jobs: seq<Job>, r: HTTPRoute, i: int, table: Table)
    requires Ready(route, entries, table) && Progress(route, entries, visited, after, jobs, r) && i in entries
    requires i !in visited
    ensures JobsFit(route, jobs) && JobsRedirected(route, jobs, r) && after[i] == entries[i]
    ensures JobsFit(route, NextJobs(entries, jobs, i)) && SeparateJobs(NextJobs(entries, jobs, i))
  {
    OneMoreJob(route, entries, visited, jobs, i, table);
  }

  lemma {:induction false} ProgressStep(route: HTTPRoute, entries: FeatureMap, visited: set<int>, after: FeatureMap,
          jobs: seq<Job>, r: HTTPRoute, i: int, jobs': seq<Job>, r': HTTPRoute, table: Table)
    requires Ready(route, entries, table) && Progress(route, entries, visited, after, jobs, r) && i in entries
    requires i !in visited
    requires jobs' == NextJobs(entries, jobs, i) && JobsRedirected(route, jobs', r')
    ensures Progress(route, entries, visited + {i}, after[i := entries[i].(parsed := true)], jobs', r')
  {
    OneMoreJob(route, entries, visited, jobs, i, table);
    MarkOne(entries, visited, after, i);
  }

  lemma {:induction false} SomeUnparsed(entries: FeatureMap, visited: set<int>, jobs: seq<Job>)
    requires JobsOf(entries, visited, jobs) && jobs != []
    ensures exists i | i in entries :: !entries[i].parsed
  {
    var i := jobs[0].ruleIdx;
    assert i in entries && !entries[i].parsed;
  }

  /** Emitting again moves nothing: parsed entries are skipped. */
  lemma {:induction false} ParsedPassIsNoOp(route: HTTPRoute, entries: FeatureMap, after: FeatureMap, jobs: seq<Job>,
          r: HTTPRoute, t: Table)
    requires Progress(route, entries, entries.Keys, after, jobs, r)
    requires forall i | i in entries :: entries[i].parsed
    ensures r == route && after == entries && JobsFit(route, jobs) && Run(t, JobRequests(route, jobs)) == t
  {
    if jobs != [] {
      SomeUnparsed(entries, entries.Keys, jobs);
      assert false;
    }
    forall i | 0 <= i < |route.rules| ensures r.rules[i] == route.rules[i] {
      assert RuleMoved(route, jobs, i, r.rules[i]);
    }
    forall i | i in entries ensures after[i] == entries[i] {
      assert entries[i].(parsed := true) == entries[i];
    }
  }

  /** Ready whatever the merge yields. */
  ghost predicate ReadyMerged(route: HTTPRoute, features: FeatureMap, table: Table) {
    forall merged | Merged(features, |route.rules|, merged) :: Ready(route, merged, table)
  }

  /** A context without entries but with the key would make the merge of a route without rules panic. */
  ghost predicate Emittable(route: HTTPRoute, features: FeatureMap, table: Table) {
    (features == map[] ==> route.rules != []) && ReadyMerged(route, features, table)
  }

  lemma {:induction false} EmittableOnMore(route: HTTPRoute, features: FeatureMap, t: Table, u: Table)
    requires Emittable(route, features, t) && t.Keys <= u.Keys
    ensures Emittable(route, features, u)
  {
    forall merged: FeatureMap | Merged(features, |route.rules|, merged) ensures Ready(route, merged, u) {
      assert Ready(route, merged, t);
      forall i | i in merged && !merged[i].parsed ensures Safe(u, RouteRequests(route, i, merged[i].feature)) {
        SafeOnMore(t, u, RouteRequests(route, i, merged[i].feature));
      }
    }
  }

  // ---- all routes ----

  type Routes = map<NamespacedName, HTTPRoute>

  /** The BackendTLS entries of the contexts that have any, by route. */
  type RouteFeatures = map<NamespacedName, FeatureMap>

  /** Every route is stored under its name, and its context can be emitted whenever its turn comes. */
  ghost predicate AllEmittable(routes: Routes, features: RouteFeatures, table: Table) {
    && (forall nn | nn in routes :: routes[nn].nn == nn)
    && (forall nn | nn in features :: nn in routes && Emittable(routes[nn], features[nn], table))
  }

  /** `v` is a pass over a route that merges its entries and leaves `after`. */
  ghost predicate Passed(route: HTTPRoute, features: FeatureMap, after: FeatureMap, v: Visit) {
    v.before == route &&
    exists merged | Merged(features, |route.rules|, merged) ::
      Progress(route, merged, merged.Keys, after, v.jobs, v.after)
  }

  /** `v` is the pass over one of the routes that are done. */
  ghost predicate VisitOf(first: Routes, given: RouteFeatures, todo: set<NamespacedName>, routes: Routes,
          features: RouteFeatures, v: Visit)
  {
    var nn := v.before.nn;
    && nn in first && nn in given && nn in routes && nn in features && nn !in todo
    && v.after == routes[nn] && Passed(first[nn], given[nn], features[nn], v)
  }

  /** The run so far: one pass over each route with features that is done, and nothing else changed. */
  ghost predicate AllVisited(first: Routes, given: RouteFeatures, todo: set<NamespacedName>, routes: Routes,
          features: RouteFeatures, visits: seq<Visit>)
  {
    && Untouched(first, given, todo, routes, features) && EachVisitOf(first, given, todo, routes, features, visits)
    && OnceEach(visits) && Covers(given, todo, visits)
  }

  ghost predicate Untouched(first: Routes, given: RouteFeatures, todo: set<NamespacedName>, routes: Routes,
          features: RouteFeatures)
  {
    && routes.Keys == first.Keys && features.Keys == given.Keys
    && (forall nn | nn in first && (nn in todo || nn !in given) :: routes[nn] == first[nn])
    && (forall nn | nn in given && nn in todo :: features[nn] == given[nn])
  }

  ghost predicate EachVisitOf(first: Routes, given: RouteFeatures, todo: set<NamespacedName>, routes: Routes,
          features: RouteFeatures, visits: seq<Visit>)
  {
    forall p | 0 <= p < |visits| :: VisitOf(first, given, todo, routes, features, visits[p])
  }

  ghost predicate IsVisited(visits: seq<Visit>, nn: NamespacedName) {
    exists p | 0 <= p < |visits| :: visits[p].before.nn == nn
  }

  /** No route is passed over twice. */
  ghost predicate OnceEach(visits: seq<Visit>) {
    forall p, q | 0 <= p < q < |visits| :: visits[p].before.nn != visits[q].before.nn
  }

  ghost predicate Covers(given: RouteFeatures, todo: set<NamespacedName>, visits: seq<Visit>) {
    forall nn | nn in given && nn !in todo :: IsVisited(visits, nn)
  }

  lemma {:induction false} NothingVisited(first: Routes, given: RouteFeatures, table: Table)
    requires AllEmittable(first, given, table)
    ensures AllVisited(first, given, first.Keys, first, given, []) && Ran(table, [], table)
  {
    assert RunRequests([]) == [];
  }

  ghost predicate Ran(before: Table, visits: seq<Visit>, after: Table) {
    VisitsFit(visits) && Safe(before, RunRequests(visits)) && after == Run(before, RunRequests(visits))
  }

  lemma {:induction false} SkipRoute(first: Routes, given: RouteFeatures, todo: set<NamespacedName>, routes: Routes,
          features: RouteFeatures, visits: seq<Visit>, nn: NamespacedName)
    requires AllVisited(first, given, todo, routes, features, visits) && nn in todo && nn !in given
    ensures AllVisited(first, given, todo - {nn}, routes, features, visits)
  {
    forall p | 0 <= p < |visits| ensures VisitOf(first, given, todo - {nn}, routes, features, visits[p]) {
      assert VisitOf(first, given, todo, routes, features, visits[p]);
    }
  }

  lemma {:induction false} VisitRoute(first: Routes, given: RouteFeatures, todo: set<NamespacedName>, routes: Routes,
          features: RouteFeatures, visits: seq<Visit>, nn: NamespacedName, after: FeatureMap, v: Visit)
    requires AllVisited(first, given, todo, routes, features, visits) && todo <= first.Keys && nn in todo && nn in given
    requires first[nn].nn == nn && Passed(first[nn], given[nn], after, v)
    ensures AllVisited(first, given, todo - {nn}, routes[nn := v.after], features[nn := after], visits + [v])
  {
    var rest, routes', features' := todo - {nn}, routes[nn := v.after], features[nn := after];
    TouchOne(first, given, todo, routes, features, nn, v.after, after);
    forall p | 0 <= p < |visits|
      ensures VisitOf(first, given, rest, routes', features', visits[p]) && visits[p].before.nn != nn
    {
      VisitStays(first, given, todo, routes, features, visits[p], nn, after, v);
    }
    assert VisitOf(first, given, rest, routes', features', v);
    EachSnoc(first, given, rest, routes', features', visits, v);
    OnceEachSnoc(visits, v);
    CoversSnoc(given, todo, visits, nn, v);
  }

  lemma {:induction false} TouchOne(first: Routes, given: RouteFeatures, todo: set<NamespacedName>, routes: Routes,
          features: RouteFeatures, nn: NamespacedName, r: HTTPRoute, after: FeatureMap)
    requires Untouched(first, given, todo, routes, features) && nn in todo && nn in first && nn in given
    ensures Untouched(first, given, todo - {nn}, routes[nn := r], features[nn := after])
  {
  }

  lemma {:induction false} EachSnoc(first: Routes, given: RouteFeatures, todo: set<NamespacedName>, routes: Routes,
          features: RouteFeatures, visits: seq<Visit>, v: Visit)
    requires EachVisitOf(first, given, todo, routes, features, visits)
    requires VisitOf(first, given, todo, routes, features, v)
    ensures EachVisitOf(first, given, todo, routes, features, visits + [v])
  {
  }

  lemma {:induction false} VisitStays(first: Routes, given: RouteFeatures, todo: set<NamespacedName>, routes: Routes,
          features: RouteFeatures, w: Visit, nn: NamespacedName, after: FeatureMap, v: Visit)
    requires VisitOf(first, given, todo, routes, features, w) && nn in todo
    ensures VisitOf(first, given, todo - {nn}, routes[nn := v.after], features[nn := after], w) && w.before.nn != nn
  {
  }

  lemma {:induction false} OnceEachSnoc(visits: seq<Visit>, v: Visit)
    requires OnceEach(visits) && forall p | 0 <= p < |visits| :: visits[p].before.nn != v.before.nn
    ensures OnceEach(visits + [v])
  {
  }

  lemma {:induction false} CoversSnoc(given: RouteFeatures, todo: set<NamespacedName>, visits: seq<Visit>,
          nn: NamespacedName, v: Visit)
    requires Covers(given, todo, visits) && v.before.nn == nn
    ensures Covers(given, todo - {nn}, visits + [v])
  {
    var all := visits + [v];
    assert all[|visits|] == v;
    forall k | k in given && k !in todo - {nn} ensures IsVisited(all, k) {
      if k != nn {
        assert IsVisited(visits, k);
        var p :| 0 <= p < |visits| && visits[p].before.nn == k;
        assert all[p].before.nn == k;
      }
    }
  }

  lemma {:induction false} PassFits(route: HTTPRoute, features: FeatureMap, after: FeatureMap, v: Visit)
    requires Passed(route, features, after, v)
    ensures VisitFits(v)
  {
    var merged :| Merged(features, |route.rules|, merged)
                  && Progress(route, merged, merged.Keys, after, v.jobs, v.after);
    assert JobsOf(merged, merged.Keys, v.jobs);
  }

  lemma {:induction false} RanSnoc(before: Table, visits: seq<Visit>, table: Table, v: Visit, after: Table)
    requires Ran(before, visits, table) && VisitFits(v) && Asked(v.before, v.jobs, table, after)
    ensures Ran(before, visits + [v], after)
  {
    RunRequestsConcat(visits, [v]);
    OneVisit(v);
    RanConcat(before, visits, table, [v], after);
  }

  lemma {:induction false} OneVisit(v: Visit)
    requires VisitFits(v)
    ensures VisitsFit([v]) && RunRequests([v]) == JobRequests(v.before, v.jobs)
  {
    var vs := [v];
    assert vs[..|vs| - 1] == [];
    assert RunRequests(vs[..|vs| - 1]) == [];
  }

  lemma {:induction false} RanConcat(before: Table, a: seq<Visit>, table: Table, b: seq<Visit>, after: Table)
    requires Ran(before, a, table) && Ran(table, b, after)
    ensures Ran(before, a + b, after)
  {
    RunRequestsConcat(a, b);
    RunConcat(before, RunRequests(a), RunRequests(b));
    SafeConcat(before, RunRequests(a), RunRequests(b));
  }

  lemma {:induction false} SafeAt(t: Table, rs: seq<Request>, i: nat)
    requires Safe(t, rs) && i < |rs|
    ensures Safe(t, rs[..i]) && (rs[i].endpoint.Some? || rs[i].key in Run(t, rs[..i]))
  {
    if i < |rs| - 1 {
      SafeAt(t, rs[..|rs| - 1], i);
      assert rs[..|rs| - 1][..i] == rs[..i];
    }
  }

  lemma {:induction false} SafeParts(table: Table, all: seq<Request>, a: seq<Request>, b: seq<Request>)
    requires Safe(table, all) && all == a + b
    ensures Safe(table, a) && Safe(Run(table, a), b)
  {
    SafeConcat(table, a, b);
  }

  lemma {:induction false} SafeLastTarget(route: HTTPRoute, ruleIdx: int, config: Config, targets: seq<int>,
          init: seq<int>, table: Table)
    requires InRange(route, targets) && targets != [] && init == targets[..|targets| - 1]
    requires Safe(table, Requests(route, ruleIdx, config, targets))
    ensures InRange(route, init) && Safe(table, Requests(route, ruleIdx, config, init))
    ensures Safe(Run(table, Requests(route, ruleIdx, config, init)),
                 RefRequests(route.nn, ruleIdx, config, route.rules[targets[|targets| - 1]].backendRefs))
  {
    SafeParts(table, Requests(route, ruleIdx, config, targets), Requests(route, ruleIdx, config, init),
              RefRequests(route.nn, ruleIdx, config, route.rules[targets[|targets| - 1]].backendRefs));
  }

  lemma {:induction false} SafeTargets(route: HTTPRoute, ruleIdx: int, config: Config, targets: seq<int>, t: nat,
          table: Table)
    requires InRange(route, targets) && t < |targets| && Safe(table, Requests(route, ruleIdx, config, targets))
    ensures InRange(route, targets[..t])
    ensures Safe(Run(table, Requests(route, ruleIdx, config, targets[..t])),
                 RefRequests(route.nn, ruleIdx, config, route.rules[targets[t]].backendRefs))
  {
    var init := targets[..|targets| - 1];
    SafeLastTarget(route, ruleIdx, config, targets, init, table);
    if t < |init| {
      SafeTargets(route, ruleIdx, config, init, t, table);
      assert init[..t] == targets[..t];
    }
  }
}
