/** The BackendTLS emitter: the passes over the entries of one route and over all routes, on the shared table of
    Backends. */
module BackendTlsEmitter {
  import opened Text
  import opened Kube
  import opened Features
  import opened BackendTls
  import opened BackendTlsRun
  import opened BackendTlsPass
  import opened BackendTlsInputs

  class Backend {
    const nn: NamespacedName
    const endpoint: Endpoint
    var tls: Option<TLSSettings>

    constructor (nn: NamespacedName, endpoint: Endpoint)
      ensures this.nn == nn && this.endpoint == endpoint && tls == None
    {
      this.nn, this.endpoint, tls := nn, endpoint, None;
    }

    /** configureBackendTLS */
    method ConfigureTLS(config: Config)
      modifies this
      ensures tls == Some(Configured(old(tls), nn.namespace, config))
    {
      if tls.None? {
        tls := Some(TLSSettings([], None, None, None));
      }
      tls := Some(tls.value.(caCertificates := [config.certificate]));
      tls := Some(tls.value.(clientCertificate := Some(NN(nn.namespace, config.certificate))));
      if config.sni != "" {
        tls := Some(tls.value.(sni := Some(config.sni)));
      }
      if config.insecureSkipVerify.Some? {
        tls := Some(tls.value.(insecureSkipVerify := config.insecureSkipVerify));
      }
    }
  }

  /** The Backends field of the builder's tables: shared mutable objects by name. */
  class BackendTable {
    var backends: map<NamespacedName, Backend>

    ghost predicate Valid()
      reads this
    {
      forall k | k in backends :: backends[k].nn == k
    }

    ghost function Contents(): Table
      reads this, backends.Values
    {
      map k | k in backends :: BackendValue(Some(backends[k].endpoint), backends[k].tls)
    }

    constructor ()
      ensures Valid() && backends == map[]
    {
      backends := map[];
    }

    /** getOrBuildBackend */
    method GetOrBuild(route: NamespacedName, ruleIdx: int, ref: BackendRef) returns (backend: Backend)
      requires Valid() && (ref.port.Some? || BackendKey(route, ruleIdx, ref.name) in backends)
      modifies this
      ensures Valid()
      ensures var key := BackendKey(route, ruleIdx, ref.name);
              && key in backends && backends[key] == backend
              && if key in old(backends) then backends == old(backends)
                 else && ref.port.Some? && fresh(backend) && backends == old(backends)[key := backend]
                      && ServiceHost(backend.endpoint.hostname, ref.name, route.namespace)
                      && backend.endpoint.port == ref.port.value && backend.tls == None
    {
      var name := route.name + "-" + DecimalInt(ruleIdx) + "-" + ref.name;
      if ruleIdx == ALL_INDEX {
        name := route.name + "-" + ref.name;
      }
      var key := NN(route.namespace, name);
      if key in backends {
        return backends[key];
      }
      HostIsJoined(ref.name, route.namespace);
      backend := new Backend(key, Endpoint(ref.name + "." + route.namespace + ".svc.cluster.local", ref.port.value));
      backends := backends[key := backend];
    }

    method RedirectRef(route: NamespacedName, ruleIdx: int, config: Config, ref: BackendRef) returns (r: BackendRef)
      requires Valid() && (ref.port.Some? || BackendKey(route, ruleIdx, ref.name) in backends)
      modifies this, backends.Values
      ensures Valid() && fresh(backends.Values - old(backends.Values))
      ensures Contents() == Touch(old(Contents()), RequestFor(route, ruleIdx, config, ref))
      ensures r == RedirectedRef(route, ruleIdx, ref)
    {
      HostIsJoined(ref.name, route.namespace);
      var backend := GetOrBuild(route, ruleIdx, ref);
      backend.ConfigureTLS(config);
      assert forall k | k in backends && k != backend.nn :: backends[k] != backend;
      return ref.(group := Some(BACKEND_GROUP), kind := Some(BACKEND_KIND), name := backend.nn.name,
                  namespace := None, port := None);
    }

    /** The body of the loop over refs; `table` is the table before the first. */
    method RedirectNext(route: NamespacedName, ruleIdx: int, config: Config, ghost refs: seq<BackendRef>, ghost i: nat,
            ghost table: Table, ref: BackendRef)
      returns (moved: BackendRef)
      requires Valid() && i < |refs| && ref == refs[i] && Safe(table, RefRequests(route, ruleIdx, config, refs))
      requires Contents() == Run(table, RefRequests(route, ruleIdx, config, refs)[..i])
      modifies this, backends.Values
      ensures Valid() && fresh(backends.Values - old(backends.Values))
      ensures Contents() == Run(table, RefRequests(route, ruleIdx, config, refs)[..i + 1])
      ensures moved == RedirectedRef(route, ruleIdx, refs[i])
    {
      OneMoreRef(route, ruleIdx, config, refs, i, table);
      SafeAt(table, RefRequests(route, ruleIdx, config, refs), i);
      moved := RedirectRef(route, ruleIdx, config, ref);
    }

    method RedirectRule(route: NamespacedName, ruleIdx: int, config: Config, refs: seq<BackendRef>)
      returns (r: seq<BackendRef>)
      requires Valid() && Safe(Contents(), RefRequests(route, ruleIdx, config, refs))
      modifies this, backends.Values
      ensures Valid() && fresh(backends.Values - old(backends.Values))
      ensures Contents() == Run(old(Contents()), RefRequests(route, ruleIdx, config, refs))
      ensures r == RedirectedRefs(route, ruleIdx, refs)
    {
      r := refs;
      ghost var table := Contents();
      for i := 0 to |refs|
        invariant Valid() && fresh(backends.Values - old(backends.Values))
        invariant Contents() == Run(table, RefRequests(route, ruleIdx, config, refs)[..i])
        invariant |r| == |refs|
        invariant forall j | 0 <= j < |refs| ::
                    r[j] == if j < i then RedirectedRef(route, ruleIdx, refs[j]) else refs[j]
      {
        var moved := RedirectNext(route, ruleIdx, config, refs, i, table, r[i]);
        r := r[i := moved];
      }
      assert RefRequests(route, ruleIdx, config, refs)[..|refs|] == RefRequests(route, ruleIdx, config, refs);
    }

    /** The rules in `done` have moved, from `table` to the present table. */
    ghost predicate TargetsSoFar(route: HTTPRoute, config: Config, ruleIdx: int, done: seq<int>, table: Table,
            r: HTTPRoute)
      requires InRange(route, done)
      reads this, backends.Values
    {
      && Valid() && Contents() == Run(table, Requests(route, ruleIdx, config, done))
      && SomeRedirected(route, ruleIdx, done, r)
    }

    /** The body of the loop over targets; `table` is the table before the first. */
    method ProcessTarget(route: HTTPRoute, config: Config, ruleIdx: int, ghost targets: seq<int>, ghost t: nat,
            idx: int, ghost table: Table, r: HTTPRoute)
      returns (r': HTTPRoute)
      requires InRange(route, targets) && AreTargets(route, ruleIdx, targets)
      requires t < |targets| && targets[t] == idx && Safe(table, Requests(route, ruleIdx, config, targets))
      requires TargetsSoFar(route, config, ruleIdx, targets[..t], table, r)
      modifies this, backends.Values
      ensures fresh(backends.Values - old(backends.Values))
      ensures TargetsSoFar(route, config, ruleIdx, targets[..t + 1], table, r')
    {
      OneMoreTarget(route, ruleIdx, config, targets, t, table, r);
      SafeTargets(route, ruleIdx, config, targets, t, table);
      var refs := RedirectRule(route.nn, ruleIdx, config, r.rules[idx].backendRefs);
      r' := r.(rules := r.rules[idx := r.rules[idx].(backendRefs := refs)]);
    }

    method ProcessTargets(route: HTTPRoute, config: Config, ruleIdx: int, targets: seq<int>) returns (r: HTTPRoute)
      requires Valid() && InRange(route, targets) && AreTargets(route, ruleIdx, targets)
      requires Safe(Contents(), Requests(route, ruleIdx, config, targets))
      modifies this, backends.Values
      ensures Valid() && fresh(backends.Values - old(backends.Values))
      ensures Contents() == Run(old(Contents()), Requests(route, ruleIdx, config, targets))
      ensures Redirected(route, ruleIdx, r)
    {
      r := route;
      ghost var table := Contents();
      NoTargetYet(route, ruleIdx);
      for t := 0 to |targets|
        invariant fresh(backends.Values - old(backends.Values))
        invariant TargetsSoFar(route, config, ruleIdx, targets[..t], table, r)
      {
        r := ProcessTarget(route, config, ruleIdx, targets, t, targets[t], table, r);
      }
      assert targets[..|targets|] == targets;
      AllTargetsDone(route, ruleIdx, targets, r);
    }

    /** processBackendTLSForHTTPRoute */
    method ProcessRoute(route: HTTPRoute, config: Config, ruleIdx: int) returns (r: HTTPRoute)
      requires Valid() && Fits(route, ruleIdx) && Safe(Contents(), RouteRequests(route, ruleIdx, config))
      modifies this, backends.Values
      ensures Valid() && fresh(backends.Values - old(backends.Values))
      ensures Contents() == Run(old(Contents()), RouteRequests(route, ruleIdx, config))
      ensures Redirected(route, ruleIdx, r)
    {
      var targets: seq<int> := [];
      if ruleIdx == ALL_INDEX {
        for i := 0 to |route.rules|
          invariant targets == seq(i, k => k)
        {
          targets := targets + [i];
        }
      } else {
        targets := [ruleIdx];
      }
      TargetsFit(route, ruleIdx);
      r := ProcessTargets(route, config, ruleIdx, targets);
    }

    /** The pass over the entries visited, from `table` to the present table. */
    ghost predicate PassSoFar(route: HTTPRoute, entries: FeatureMap, visited: set<int>, table: Table, after: FeatureMap,
            jobs: seq<Job>, r: HTTPRoute)
      reads this, backends.Values
    {
      Valid() && Progress(route, entries, visited, after, jobs, r) && Asked(route, jobs, table, Contents())
    }

    /** The body of the loop in EmitBackendTLS; `table` is the table before the first entry. */
    method EmitEntry(route: HTTPRoute, ghost entries: FeatureMap, ghost visited: set<int>, ghost jobs: seq<Job>,
            ghost table: Table, r: HTTPRoute, after: FeatureMap, idx: int)
      returns (r': HTTPRoute, after': FeatureMap, ghost jobs': seq<Job>)
      requires Ready(route, entries, table) && idx in entries && idx !in visited
      requires PassSoFar(route, entries, visited, table, after, jobs, r)
      modifies this, backends.Values
      ensures fresh(backends.Values - old(backends.Values))
      ensures PassSoFar(route, entries, visited + {idx}, table, after', jobs', r')
    {
      r', after', jobs' := r, after, jobs;
      ProgressReady(route, entries, visited, after, jobs, r, idx, table);
      if !after[idx].parsed {
        var config: Config := after[idx].feature;
        NextJob(route, jobs, r, Job(idx, config), table);
        r' := ProcessRoute(r, config, idx);
        jobs' := jobs + [Job(idx, config)];
      }
      ProgressStep(route, entries, visited, after, jobs, r, idx, jobs', r', table);
      after' := after[idx := after[idx].(parsed := true)];
    }

    /** The loop of EmitBackendTLS over the entries of one route, in any order. */
    method EmitEntries(route: HTTPRoute, entries: FeatureMap)
      returns (r: HTTPRoute, after: FeatureMap, ghost jobs: seq<Job>)
      requires Valid() && Ready(route, entries, Contents())
      modifies this, backends.Values
      ensures Valid() && fresh(backends.Values - old(backends.Values))
      ensures Progress(route, entries, entries.Keys, after, jobs, r)
      ensures Asked(route, jobs, old(Contents()), Contents())
    {
      after, jobs, r := entries, [], route;
      var todo := entries.Keys;
      ghost var visited, table: Table := {}, Contents();
      NothingProcessed(route, entries, table);
      while todo != {}
        invariant fresh(backends.Values - old(backends.Values))
        invariant todo <= entries.Keys && visited == entries.Keys - todo
        invariant PassSoFar(route, entries, visited, table, after, jobs, r)
        decreases |todo|
      {
        var idx := Any(todo);
        r, after, jobs := EmitEntry(route, entries, visited, jobs, table, r, after, idx);
        todo, visited := todo - {idx}, visited + {idx};
      }
      assert visited == entries.Keys;
    }

    /** EmitBackendTLS for one route: merge its entries, then process the unparsed ones. */
    method EmitRoute(route: HTTPRoute, features: FeatureMap)
      returns (r: HTTPRoute, after: FeatureMap, ghost merged: FeatureMap, ghost jobs: seq<Job>)
      requires Valid() && Emittable(route, features, Contents())
      modifies this, backends.Values
      ensures Valid() && fresh(backends.Values - old(backends.Values))
      ensures Merged(features, |route.rules|, merged)
      ensures Progress(route, merged, merged.Keys, after, jobs, r)
      ensures Asked(route, jobs, old(Contents()), Contents())
    {
      var entries := MergeEntries(features, |route.rules|);
      merged := entries;
      r, after, jobs := EmitEntries(route, entries);
    }

    /** The run over the routes not in `todo`, from `table` to the present table. */
    ghost predicate RunSoFar(first: Routes, given: RouteFeatures, todo: set<NamespacedName>, table: Table,
            routes: Routes, features: RouteFeatures, visits: seq<Visit>)
      reads this, backends.Values
    {
      Valid() && AllVisited(first, given, todo, routes, features, visits) && Ran(table, visits, Contents())
    }

    /** The body of the loop over routes; `table` is the table before the first one. */
    method EmitNext(nn: NamespacedName, ghost first: Routes, ghost given: RouteFeatures,
            ghost todo: set<NamespacedName>, ghost table: Table, routes: Routes, features: RouteFeatures,
            ghost visits: seq<Visit>)
      returns (routes': Routes, features': RouteFeatures, ghost visits': seq<Visit>)
      requires AllEmittable(first, given, table) && nn in todo && todo <= first.Keys
      requires RunSoFar(first, given, todo, table, routes, features, visits)
      modifies this, backends.Values
      ensures fresh(backends.Values - old(backends.Values))
      ensures RunSoFar(first, given, todo - {nn}, table, routes', features', visits')
    {
      routes', features', visits' := routes, features, visits;
      if nn !in features {
        SkipRoute(first, given, todo, routes, features, visits, nn);
        return;
      }
      RunKeepsKeys(table, RunRequests(visits));
      EmittableOnMore(first[nn], given[nn], table, Contents());
      var r, after;
      ghost var merged, jobs;
      r, after, merged, jobs := EmitRoute(routes[nn], features[nn]);
      ghost var v := Visit(first[nn], jobs, r);
      assert Passed(first[nn], given[nn], after, v);
      PassFits(first[nn], given[nn], after, v);
      RanSnoc(table, visits, old(Contents()), v, Contents());
      VisitRoute(first, given, todo, routes, features, visits, nn, after, v);
      routes', features', visits' := routes[nn := r], features[nn := after], visits + [v];
    }

    /** One of the two loops of EmitBackendTLS: the routes in any order. */
    method EmitAll(first: Routes, given: RouteFeatures)
      returns (routes: Routes, features: RouteFeatures, ghost visits: seq<Visit>)
      requires Valid() && AllEmittable(first, given, Contents())
      modifies this, backends.Values
      ensures Valid() && fresh(backends.Values - old(backends.Values))
      ensures AllVisited(first, given, {}, routes, features, visits)
      ensures Ran(old(Contents()), visits, Contents())
    {
      routes, features, visits := first, given, [];
      var todo := first.Keys;
      ghost var table := Contents();
      NothingVisited(first, given, table);
      while todo != {}
        invariant fresh(backends.Values - old(backends.Values)) && todo <= first.Keys
        invariant RunSoFar(first, given, todo, table, routes, features, visits)
        decreases |todo|
      {
        var nn := Any(todo);
        routes, features, visits := EmitNext(nn, first, given, todo, table, routes, features, visits);
        todo := todo - {nn};
      }
    }

    /** EmitBackendTLS: all HTTPRoutes, then all GRPCRoutes, on one table. A GRPCRoute may name a service without a port
        if the HTTPRoutes are sure to have made the Backend for it. */
    method EmitBackendTLS(http: Routes, httpFeatures: RouteFeatures, grpc: Routes, grpcFeatures: RouteFeatures)
      returns (http': Routes, httpFeatures': RouteFeatures, ghost httpVisits: seq<Visit>, grpc': Routes,
              grpcFeatures': RouteFeatures, ghost grpcVisits: seq<Visit>)
      requires Valid() && backends == map[]
      requires AllEmittable(http, httpFeatures, map[])
      requires forall visits, table | WholeRun(http, httpFeatures, visits) && Ran(map[], visits, table) ::
                 AllEmittable(grpc, grpcFeatures, table)
      modifies this
      ensures Valid()
      ensures AllVisited(http, httpFeatures, {}, http', httpFeatures', httpVisits)
      ensures AllVisited(grpc, grpcFeatures, {}, grpc', grpcFeatures', grpcVisits)
      ensures VisitsFit(httpVisits + grpcVisits) && Contents() == FinalTable(httpVisits + grpcVisits)
      ensures AllEndpointsKept(httpVisits + grpcVisits) <==>
              AllPortsAgree(httpVisits + grpcVisits) && RoutesApart(httpVisits + grpcVisits)
      ensures AllFresh(httpFeatures) && AllFresh(grpcFeatures) ==>
                (AllEndpointsKept(httpVisits + grpcVisits) <==> InputsFit(http, httpFeatures, grpc, grpcFeatures))
    {
      assert Contents() == map[];
      http', httpFeatures', httpVisits := EmitAll(http, httpFeatures);
      ghost var table := Contents();
      assert WholeRun(http, httpFeatures, httpVisits);
      grpc', grpcFeatures', grpcVisits := EmitAll(grpc, grpcFeatures);
      RanConcat(map[], httpVisits, table, grpcVisits, Contents());
      IndirectionKeepsEndpointsIff(httpVisits + grpcVisits);
      if AllFresh(httpFeatures) && AllFresh(grpcFeatures) {
        assert WholeRun(grpc, grpcFeatures, grpcVisits);
        InputsFitIff(http, httpFeatures, httpVisits, grpc, grpcFeatures, grpcVisits);
      }
    }
  }
}
