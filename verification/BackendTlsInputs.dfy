/** The run of the BackendTLS emitter, read off its inputs: which entries the passes process, and when they are
    harmless. */
module BackendTlsInputs {
  import opened Kube
  import opened Features
  import opened BackendTls
  import opened BackendTlsRun
  import opened BackendTlsPass

  /** No entry has been emitted yet. */
  ghost predicate Fresh(features: FeatureMap) {
    forall i | i in features :: features[i].feature.BackendTLS? && !features[i].parsed
  }

  ghost predicate AllFresh(given: RouteFeatures) { forall nn | nn in given :: Fresh(given[nn]) }

  /** The entries a pass processes: the given ones, or one for all rules where they merge. */
  ghost predicate Wants(route: HTTPRoute, features: FeatureMap, job: Job) {
    if Collapses(features, |route.rules|) then
      job.ruleIdx == ALL_INDEX && exists i | i in features :: features[i].feature == job.config
    else job.ruleIdx in features && features[job.ruleIdx].feature == job.config
  }

  ghost predicate EntryOf(routes: Routes, given: RouteFeatures, nn: NamespacedName, job: Job) {
    nn in given && nn in routes && Wants(routes[nn], given[nn], job)
  }

  /** Inside each entry's rules the references to one service agree on its port. */
  ghost predicate PortsFit(routes: Routes, given: RouteFeatures) {
    forall nn, job | EntryOf(routes, given, nn, job) :: PortsAgree(routes[nn], job.ruleIdx)
  }

  /** No two routes use one Backend name for different things. */
  ghost predicate NamesFit(routes: Routes, given: RouteFeatures) {
    forall m, job, n, other | EntryOf(routes, given, m, job) && EntryOf(routes, given, n, other) && m != n ::
      EntriesApart(routes[m], job, routes[n], other)
  }

  /** Nor do an HTTPRoute and a GRPCRoute. */
  ghost predicate NamesFitAcross(http: Routes, httpGiven: RouteFeatures, grpc: Routes, grpcGiven: RouteFeatures) {
    forall m, job, n, other | EntryOf(http, httpGiven, m, job) && EntryOf(grpc, grpcGiven, n, other) ::
      EntriesApart(http[m], job, grpc[n], other)
  }

  lemma {:induction false} SameBackendTLS(a: Feature, b: Feature)
    requires a.BackendTLS? && Equals(a, b)
    ensures a == b
  {
    EqualsMeaning(a, b);
    assert ContentOf(a).texts[0] == ContentOf(b).texts[0] && ContentOf(a).texts[1] == ContentOf(b).texts[1];
  }

  lemma {:induction false} JobIsWanted(route: HTTPRoute, features: FeatureMap, merged: FeatureMap, job: Job)
    requires Merged(features, |route.rules|, merged) && JobOf(merged, merged.Keys, job)
    ensures Wants(route, features, job)
  {
  }

  lemma {:induction false} WantedIsJob(route: HTTPRoute, features: FeatureMap, merged: FeatureMap, jobs: seq<Job>,
          job: Job)
    requires Merged(features, |route.rules|, merged) && JobsOf(merged, merged.Keys, jobs)
    requires Fresh(features) && Wants(route, features, job)
    ensures job in jobs
  {
    if Collapses(features, |route.rules|) {
      var i :| i in features && merged == map[ALL_INDEX := features[i]];
      var j :| j in features && features[j].feature == job.config;
      SameBackendTLS(features[i].feature, features[j].feature);
    }
    assert job.ruleIdx in merged && !merged[job.ruleIdx].parsed && merged[job.ruleIdx].feature == job.config;
    assert HasJob(jobs, job.ruleIdx);
    var k :| 0 <= k < |jobs| && jobs[k].ruleIdx == job.ruleIdx;
    assert JobOf(merged, merged.Keys, jobs[k]);
  }

  /** The jobs of a pass over fresh entries can be read off the entries, whichever entry the merge kept. */
  lemma {:induction false} JobsAreWanted(route: HTTPRoute, features: FeatureMap, after: FeatureMap, v: Visit, job: Job)
    requires Passed(route, features, after, v) && Fresh(features)
    ensures job in v.jobs <==> Wants(route, features, job)
  {
    var merged :| Merged(features, |route.rules|, merged)
                  && Progress(route, merged, merged.Keys, after, v.jobs, v.after);
    if job in v.jobs {
      JobIsWanted(route, features, merged, job);
    }
    if Wants(route, features, job) {
      WantedIsJob(route, features, merged, v.jobs, job);
    }
  }

  // ---- the conditions on a run ----

  /** `visits` is a whole run over the routes. */
  ghost predicate WholeRun(routes: Routes, given: RouteFeatures, visits: seq<Visit>) {
    exists routes', features' :: AllVisited(routes, given, {}, routes', features', visits)
  }

  lemma {:induction false} EntryOfVisit(routes: Routes, given: RouteFeatures, visits: seq<Visit>, p: nat, k: nat)
    requires AllFresh(given) && WholeRun(routes, given, visits) && p < |visits| && k < |visits[p].jobs|
    ensures EntryOf(routes, given, visits[p].before.nn, visits[p].jobs[k])
    ensures visits[p].before == routes[visits[p].before.nn]
  {
    var routes', features' :| AllVisited(routes, given, {}, routes', features', visits);
    assert VisitOf(routes, given, {}, routes', features', visits[p]);
    var nn := visits[p].before.nn;
    JobsAreWanted(routes[nn], given[nn], features'[nn], visits[p], visits[p].jobs[k]);
  }

  lemma {:induction false} VisitOfEntry(routes: Routes, given: RouteFeatures, visits: seq<Visit>, nn: NamespacedName,
          job: Job)
    returns (p: nat, k: nat)
    requires AllFresh(given) && WholeRun(routes, given, visits) && EntryOf(routes, given, nn, job)
    ensures p < |visits| && k < |visits[p].jobs| && visits[p].jobs[k] == job
    ensures visits[p].before.nn == nn && visits[p].before == routes[nn]
  {
    var routes', features' :| AllVisited(routes, given, {}, routes', features', visits);
    assert IsVisited(visits, nn);
    p :| 0 <= p < |visits| && visits[p].before.nn == nn;
    assert VisitOf(routes, given, {}, routes', features', visits[p]);
    JobsAreWanted(routes[nn], given[nn], features'[nn], visits[p], job);
    k :| 0 <= k < |visits[p].jobs| && visits[p].jobs[k] == job;
  }

  lemma {:induction false} PortsFitIff(routes: Routes, given: RouteFeatures, visits: seq<Visit>)
    requires AllFresh(given) && WholeRun(routes, given, visits)
    ensures AllPortsAgree(visits) <==> PortsFit(routes, given)
  {
    if PortsFit(routes, given) {
      forall p, k | 0 <= p < |visits| && 0 <= k < |visits[p].jobs|
        ensures PortsAgree(visits[p].before, visits[p].jobs[k].ruleIdx)
      {
        EntryOfVisit(routes, given, visits, p, k);
      }
    }
    if AllPortsAgree(visits) {
      forall nn, job | EntryOf(routes, given, nn, job) ensures PortsAgree(routes[nn], job.ruleIdx) {
        var p, k := VisitOfEntry(routes, given, visits, nn, job);
      }
    }
  }

  lemma {:induction false} ApartIsSymmetric(a: HTTPRoute, job: Job, b: HTTPRoute, other: Job)
    requires EntriesApart(a, job, b, other)
    ensures EntriesApart(b, other, a, job)
  {
  }

  lemma {:induction false} PairFits(visits: seq<Visit>, p: nat, k: nat, q: nat, l: nat)
    requires RoutesApart(visits) && p < |visits| && q < |visits| && p != q && k < |visits[p].jobs|
    requires l < |visits[q].jobs|
    ensures EntriesApart(visits[p].before, visits[p].jobs[k], visits[q].before, visits[q].jobs[l])
  {
    if p < q {
      assert VisitsApart(visits[p], visits[q]);
    } else {
      assert VisitsApart(visits[q], visits[p]);
      ApartIsSymmetric(visits[q].before, visits[q].jobs[l], visits[p].before, visits[p].jobs[k]);
    }
  }

  lemma {:induction false} NamesFitIff(routes: Routes, given: RouteFeatures, visits: seq<Visit>)
    requires AllFresh(given) && WholeRun(routes, given, visits)
    ensures RoutesApart(visits) <==> NamesFit(routes, given)
  {
    if RoutesApart(visits) {
      forall m, job, n, other | EntryOf(routes, given, m, job) && EntryOf(routes, given, n, other) && m != n
        ensures EntriesApart(routes[m], job, routes[n], other)
      {
        var p, k := VisitOfEntry(routes, given, visits, m, job);
        var q, l := VisitOfEntry(routes, given, visits, n, other);
        PairFits(visits, p, k, q, l);
      }
    }
    if NamesFit(routes, given) {
      forall p, q | 0 <= p < q < |visits| ensures VisitsApart(visits[p], visits[q]) {
        VisitsFitApart(routes, given, visits, p, q);
      }
    }
  }

  lemma {:induction false} VisitsFitApart(routes: Routes, given: RouteFeatures, visits: seq<Visit>, p: nat, q: nat)
    requires AllFresh(given) && WholeRun(routes, given, visits) && NamesFit(routes, given) && p < q < |visits|
    ensures VisitsApart(visits[p], visits[q])
  {
    assert visits[p].before.nn != visits[q].before.nn;
    forall k, l | 0 <= k < |visits[p].jobs| && 0 <= l < |visits[q].jobs|
      ensures EntriesApart(visits[p].before, visits[p].jobs[k], visits[q].before, visits[q].jobs[l])
    {
      EntryOfVisit(routes, given, visits, p, k);
      EntryOfVisit(routes, given, visits, q, l);
    }
  }

  // ---- two runs on one table ----

  ghost predicate RunsApart(a: seq<Visit>, b: seq<Visit>) {
    forall p, q | 0 <= p < |a| && 0 <= q < |b| :: VisitsApart(a[p], b[q])
  }

  lemma {:induction false} ApartAcross(http: Routes, httpGiven: RouteFeatures, a: seq<Visit>, grpc: Routes,
          grpcGiven: RouteFeatures, b: seq<Visit>, p: nat, q: nat)
    requires AllFresh(httpGiven) && WholeRun(http, httpGiven, a) && AllFresh(grpcGiven) && WholeRun(grpc, grpcGiven, b)
    requires NamesFitAcross(http, httpGiven, grpc, grpcGiven) && p < |a| && q < |b|
    ensures VisitsApart(a[p], b[q])
  {
    forall k, l | 0 <= k < |a[p].jobs| && 0 <= l < |b[q].jobs|
      ensures EntriesApart(a[p].before, a[p].jobs[k], b[q].before, b[q].jobs[l])
    {
      EntryOfVisit(http, httpGiven, a, p, k);
      EntryOfVisit(grpc, grpcGiven, b, q, l);
    }
  }

  lemma {:induction false} EntriesAcross(http: Routes, httpGiven: RouteFeatures, a: seq<Visit>, grpc: Routes,
          grpcGiven: RouteFeatures, b: seq<Visit>, m: NamespacedName, job: Job, n: NamespacedName, other: Job)
    requires AllFresh(httpGiven) && WholeRun(http, httpGiven, a) && AllFresh(grpcGiven) && WholeRun(grpc, grpcGiven, b)
    requires RunsApart(a, b) && EntryOf(http, httpGiven, m, job) && EntryOf(grpc, grpcGiven, n, other)
    ensures EntriesApart(http[m], job, grpc[n], other)
  {
    var p, k := VisitOfEntry(http, httpGiven, a, m, job);
    var q, l := VisitOfEntry(grpc, grpcGiven, b, n, other);
    assert VisitsApart(a[p], b[q]);
  }

  lemma {:induction false} AcrossIff(http: Routes, httpGiven: RouteFeatures, a: seq<Visit>, grpc: Routes,
          grpcGiven: RouteFeatures, b: seq<Visit>)
    requires AllFresh(httpGiven) && WholeRun(http, httpGiven, a) && AllFresh(grpcGiven) && WholeRun(grpc, grpcGiven, b)
    ensures RunsApart(a, b) <==> NamesFitAcross(http, httpGiven, grpc, grpcGiven)
  {
    if RunsApart(a, b) {
      forall m, job, n, other | EntryOf(http, httpGiven, m, job) && EntryOf(grpc, grpcGiven, n, other)
        ensures EntriesApart(http[m], job, grpc[n], other)
      {
        EntriesAcross(http, httpGiven, a, grpc, grpcGiven, b, m, job, n, other);
      }
    }
    if NamesFitAcross(http, httpGiven, grpc, grpcGiven) {
      forall p, q | 0 <= p < |a| && 0 <= q < |b| ensures VisitsApart(a[p], b[q]) {
        ApartAcross(http, httpGiven, a, grpc, grpcGiven, b, p, q);
      }
    }
  }

  lemma {:induction false} ConcatFits(a: seq<Visit>, b: seq<Visit>)
    ensures AllPortsAgree(a + b) <==> AllPortsAgree(a) && AllPortsAgree(b)
    ensures RoutesApart(a + b) <==> RoutesApart(a) && RoutesApart(b) && RunsApart(a, b)
  {
    var all := a + b;
    assert forall p | 0 <= p < |a| :: all[p] == a[p];
    assert forall q | 0 <= q < |b| :: all[|a| + q] == b[q];
    ConcatPorts(a, b);
    ConcatApart(a, b);
  }

  lemma {:induction false} ConcatPorts(a: seq<Visit>, b: seq<Visit>)
    ensures AllPortsAgree(a + b) <==> AllPortsAgree(a) && AllPortsAgree(b)
  {
    var all := a + b;
    if AllPortsAgree(all) {
      assert forall p | 0 <= p < |a| :: all[p] == a[p];
      assert forall q | 0 <= q < |b| :: all[|a| + q] == b[q];
    }
  }

  lemma {:induction false} ConcatApart(a: seq<Visit>, b: seq<Visit>)
    ensures RoutesApart(a + b) <==> RoutesApart(a) && RoutesApart(b) && RunsApart(a, b)
  {
    var all := a + b;
    if RoutesApart(all) {
      forall p, q | 0 <= p < q < |a| ensures VisitsApart(a[p], a[q]) {
        assert VisitsApart(all[p], all[q]);
      }
      forall p, q | 0 <= p < q < |b| ensures VisitsApart(b[p], b[q]) {
        assert VisitsApart(all[|a| + p], all[|a| + q]);
      }
      forall p, q | 0 <= p < |a| && 0 <= q < |b| ensures VisitsApart(a[p], b[q]) {
        assert VisitsApart(all[p], all[|a| + q]);
      }
    }
  }

  /** What a caller can read before the emitter runs. */
  ghost predicate InputsFit(http: Routes, httpGiven: RouteFeatures, grpc: Routes, grpcGiven: RouteFeatures) {
    && PortsFit(http, httpGiven) && PortsFit(grpc, grpcGiven)
    && NamesFit(http, httpGiven) && NamesFit(grpc, grpcGiven) && NamesFitAcross(http, httpGiven, grpc, grpcGiven)
  }

  /** Over both runs, ports agree and routes are apart iff the inputs say so. */
  lemma {:induction false} InputsFitIff(http: Routes, httpGiven: RouteFeatures, a: seq<Visit>, grpc: Routes,
          grpcGiven: RouteFeatures, b: seq<Visit>)
    requires AllFresh(httpGiven) && WholeRun(http, httpGiven, a) && AllFresh(grpcGiven) && WholeRun(grpc, grpcGiven, b)
    ensures AllPortsAgree(a + b) && RoutesApart(a + b) <==> InputsFit(http, httpGiven, grpc, grpcGiven)
  {
    ConcatFits(a, b);
    PortsFitIff(http, httpGiven, a);
    PortsFitIff(grpc, grpcGiven, b);
    NamesFitIff(http, httpGiven, a);
    NamesFitIff(grpc, grpcGiven, b);
    AcrossIff(http, httpGiven, a, grpc, grpcGiven, b);
  }
}
