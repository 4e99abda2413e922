/** The BackendTLS emitter: backendRefs of a rule are redirected from Services to Backend objects kept in a memo table
    whose key is built from the route, the rule index and the service name, but not the port. */
module BackendTls {
  import opened Text
  import opened Kube
  import opened Features

  type Config = f: Feature | f.BackendTLS? witness BackendTLS("", "", None)

  datatype Endpoint = Endpoint(hostname: string, port: int)
  datatype TLSSettings = TLSSettings(
    caCertificates: seq<string>,
    clientCertificate: Option<NamespacedName>,
    sni: Option<string>,
    insecureSkipVerify: Option<bool>)
  datatype BackendValue = BackendValue(endpoint: Option<Endpoint>, tls: Option<TLSSettings>)

  const BACKEND_GROUP := "gateway.envoyproxy.io"
  const BACKEND_KIND := "Backend"

  function BackendName(route: string, ruleIdx: int, service: string): string {
    if ruleIdx == ALL_INDEX then route + "-" + service else route + "-" + DecimalInt(ruleIdx) + "-" + service
  }

  function BackendKey(route: NamespacedName, ruleIdx: int, service: string): NamespacedName {
    NN(route.namespace, BackendName(route.name, ruleIdx, service))
  }

  /** The endpoint a reference to a Service means. Without a port there is none: building a Backend would panic. */
  function EndpointOf(namespace: string, ref: BackendRef): Option<Endpoint> {
    if ref.port.Some? then Some(Endpoint(ref.name + "." + namespace + ".svc.cluster.local", ref.port.value)) else None
  }

  function Configured(tls: Option<TLSSettings>, namespace: string, config: Config): TLSSettings {
    TLSSettings(
      [config.certificate],
      Some(NN(namespace, config.certificate)),
      if config.sni != "" then Some(config.sni) else if tls.Some? then tls.value.sni else None,
      if config.insecureSkipVerify.Some? then config.insecureSkipVerify
      else if tls.Some? then tls.value.insecureSkipVerify else None)
  }

  // ---- what a run of getOrBuildBackend and configureBackendTLS does to the table ----

  datatype Request = Request(key: NamespacedName, endpoint: Option<Endpoint>, config: Config)
  type Table = map<NamespacedName, BackendValue>

  function Touch(t: Table, r: Request): Table {
    var found := if r.key in t then t[r.key] else BackendValue(r.endpoint, None);
    t[r.key := found.(tls := Some(Configured(found.tls, r.key.namespace, r.config)))]
  }

  function Run(t: Table, rs: seq<Request>): Table {
    if rs == [] then t else Touch(Run(t, rs[..|rs| - 1]), rs[|rs| - 1])
  }

  lemma {:induction false} RunConcat(t: Table, a: seq<Request>, b: seq<Request>)
    ensures Run(t, a + b) == Run(Run(t, a), b)
  {
    if b == [] {
      assert a + b == a;
    } else {
      assert (a + b)[..|a + b| - 1] == a + b[..|b| - 1];
      RunConcat(t, a, b[..|b| - 1]);
    }
  }

  /** No request of the run makes a Backend for a reference without a port. */
  ghost predicate Safe(t: Table, rs: seq<Request>) {
    rs == [] ||
    (Safe(t, rs[..|rs| - 1]) && (rs[|rs| - 1].endpoint.Some? || rs[|rs| - 1].key in Run(t, rs[..|rs| - 1])))
  }

  lemma {:induction false} SafeConcat(t: Table, a: seq<Request>, b: seq<Request>)
    ensures Safe(t, a + b) <==> Safe(t, a) && Safe(Run(t, a), b)
  {
    if b == [] {
      assert a + b == a;
    } else {
      var n := |b| - 1;
      SafeConcat(t, a, b[..n]);
      RunConcat(t, a, b[..n]);
      SafeSnoc(t, a, b);
    }
  }

  lemma {:induction false} SafeSnoc(t: Table, a: seq<Request>, b: seq<Request>)
    requires b != []
    ensures var n := |b| - 1;
            Safe(t, a + b) <==> Safe(t, a + b[..n]) && (b[n].endpoint.Some? || b[n].key in Run(t, a + b[..n]))
  {
    assert (a + b)[..|a + b| - 1] == a + b[..|b| - 1];
  }

  lemma {:induction false} RunKeepsKeys(t: Table, rs: seq<Request>)
    ensures t.Keys <= Run(t, rs).Keys
  {
    if rs != [] {
      RunKeepsKeys(t, rs[..|rs| - 1]);
    }
  }

  /** What is safe on a table is safe on any table with more Backends. */
  lemma {:induction false} SafeOnMore(t: Table, u: Table, rs: seq<Request>)
    requires t.Keys <= u.Keys && Safe(t, rs)
    ensures Safe(u, rs) && Run(t, rs).Keys <= Run(u, rs).Keys
  {
    if rs != [] {
      SafeOnMore(t, u, rs[..|rs| - 1]);
    }
  }

  /** What a request asks of the Backend it is given. */
  function Wanted(r: Request): BackendValue {
    BackendValue(r.endpoint, Some(Configured(None, r.key.namespace, r.config)))
  }

  /** Every request ends up with a Backend that has its endpoint and exactly its settings. */
  ghost predicate Faithful(rs: seq<Request>) {
    forall r | r in rs :: r.key in Run(map[], rs) && Run(map[], rs)[r.key] == Wanted(r)
  }

  /** No two requests share a name but differ in what they ask. */
  ghost predicate NoClash(rs: seq<Request>) {
    forall r, s | r in rs && s in rs && r.key == s.key :: r.endpoint == s.endpoint && r.config == s.config
  }

  lemma {:induction false} RunWithoutClash(rs: seq<Request>)
    requires NoClash(rs)
    ensures forall k :: k in Run(map[], rs) <==> exists r | r in rs :: r.key == k
    ensures forall r | r in rs :: Run(map[], rs)[r.key] == Wanted(r)
  {
    if rs != [] {
      var t, x := rs[..|rs| - 1], rs[|rs| - 1];
      assert rs == t + [x];
      forall r | r in t ensures r in rs {}
      RunWithoutClash(t);
      TouchWithoutClash(Run(map[], t), t, x);
    }
  }

  lemma {:induction false} TouchWithoutClash(before: Table, t: seq<Request>, x: Request)
    requires NoClash(t + [x])
    requires forall k :: k in before <==> exists r | r in t :: r.key == k
    requires forall r | r in t :: before[r.key] == Wanted(r)
    ensures forall k :: k in Touch(before, x) <==> exists r | r in t + [x] :: r.key == k
    ensures forall r | r in t + [x] :: Touch(before, x)[r.key] == Wanted(r)
  {
    var rs, after := t + [x], Touch(before, x);
    assert x in rs && forall r | r in t :: r in rs;
    forall r | r in t && r.key == x.key ensures Wanted(r) == Wanted(x) {
      assert r in rs;
    }
    assert after[x.key] == Wanted(x);
    forall k ensures k in after <==> exists r | r in rs :: r.key == k {
      if k in before {
        var r :| r in t && r.key == k;
        assert r in rs;
      }
    }
  }

  /** A run over any routes, rules and iteration order is faithful exactly when no two requests clash. */
  lemma {:induction false} FaithfulIff(rs: seq<Request>)
    ensures Faithful(rs) <==> NoClash(rs)
  {
    if NoClash(rs) {
      RunWithoutClash(rs);
    }
    if Faithful(rs) {
      forall r, s | r in rs && s in rs && r.key == s.key ensures r.endpoint == s.endpoint && r.config == s.config {
        assert Wanted(r) == Wanted(s);
        var c, d := Configured(None, r.key.namespace, r.config), Configured(None, s.key.namespace, s.config);
        assert c.caCertificates[0] == d.caCertificates[0] && c.sni == d.sni;
      }
    }
  }

  /** So the table does not depend on the order in which routes and rules are visited. */
  lemma {:induction false} OrderIrrelevant(a: seq<Request>, b: seq<Request>)
    requires NoClash(a) && multiset(a) == multiset(b)
    ensures Run(map[], a) == Run(map[], b)
  {
    forall r ensures r in a <==> r in b {
      assert r in a <==> r in multiset(a);
    }
    RunWithoutClash(a);
    RunWithoutClash(b);
  }

  /** In a run on the empty table that neither panics nor clashes, every request names an endpoint. */
  lemma {:induction false} SafeRunHasEndpoints(rs: seq<Request>)
    requires Safe(map[], rs) && NoClash(rs)
    ensures forall r | r in rs :: r.endpoint.Some?
  {
    if rs != [] {
      var t, x := rs[..|rs| - 1], rs[|rs| - 1];
      assert rs == t + [x];
      assert forall r | r in t :: r in rs;
      SafeRunHasEndpoints(t);
      if x.key in Run(map[], t) {
        RunWithoutClash(t);
        var r :| r in t && r.key == x.key;
        assert r in rs && x in rs;
      }
    }
  }

  // ---- the requests of one route ----

  predicate Targeted(ruleIdx: int, i: int) { ruleIdx == ALL_INDEX || i == ruleIdx }

  function RequestFor(route: NamespacedName, ruleIdx: int, config: Config, ref: BackendRef): Request
  {
    Request(BackendKey(route, ruleIdx, ref.name), EndpointOf(route.namespace, ref), config)
  }

  function RefRequests(route: NamespacedName, ruleIdx: int, config: Config, refs: seq<BackendRef>): seq<Request>
  {
    seq(|refs|, j requires 0 <= j < |refs| => RequestFor(route, ruleIdx, config, refs[j]))
  }

  /** A rule index in range: otherwise the emitter panics. */
  predicate Fits(route: HTTPRoute, ruleIdx: int) { ruleIdx == ALL_INDEX || 0 <= ruleIdx < |route.rules| }

  predicate InRange(route: HTTPRoute, targets: seq<int>) {
    forall t | 0 <= t < |targets| :: 0 <= targets[t] < |route.rules|
  }

  function Requests(route: HTTPRoute, ruleIdx: int, config: Config, targets: seq<int>): seq<Request>
    requires InRange(route, targets)
  {
    if targets == [] then []
    else
      Requests(route, ruleIdx, config, targets[..|targets| - 1]) +
      RefRequests(route.nn, ruleIdx, config, route.rules[targets[|targets| - 1]].backendRefs)
  }

  function Targets(route: HTTPRoute, ruleIdx: int): seq<int> {
    if ruleIdx == ALL_INDEX then seq(|route.rules|, i => i) else [ruleIdx]
  }

  ghost predicate AreTargets(route: HTTPRoute, ruleIdx: int, targets: seq<int>) {
    && (forall t, u | 0 <= t < u < |targets| :: targets[t] != targets[u])
    && forall i :: i in targets <==> 0 <= i < |route.rules| && Targeted(ruleIdx, i)
  }

  lemma {:induction false} TargetsFit(route: HTTPRoute, ruleIdx: int)
    requires Fits(route, ruleIdx)
    ensures InRange(route, Targets(route, ruleIdx)) && AreTargets(route, ruleIdx, Targets(route, ruleIdx))
  {
    var ts := Targets(route, ruleIdx);
    forall i ensures i in ts <==> 0 <= i < |route.rules| && Targeted(ruleIdx, i) {
      if ruleIdx == ALL_INDEX && 0 <= i < |route.rules| {
        assert ts[i] == i;
      }
    }
  }

  /** What one call of processBackendTLSForHTTPRoute asks of the table. */
  ghost function RouteRequests(route: HTTPRoute, ruleIdx: int, config: Config): seq<Request>
    requires Fits(route, ruleIdx)
  {
    TargetsFit(route, ruleIdx);
    Requests(route, ruleIdx, config, Targets(route, ruleIdx))
  }

  /** A reference moved to its Backend: only the weight stays. */
  function RedirectedRef(route: NamespacedName, ruleIdx: int, ref: BackendRef): BackendRef {
    BackendRef(Some(BACKEND_GROUP), Some(BACKEND_KIND), BackendName(route.name, ruleIdx, ref.name), None, None,
               ref.weight)
  }

  function RedirectedRefs(route: NamespacedName, ruleIdx: int, refs: seq<BackendRef>): seq<BackendRef> {
    seq(|refs|, j requires 0 <= j < |refs| => RedirectedRef(route, ruleIdx, refs[j]))
  }

  function RedirectedRule(route: NamespacedName, ruleIdx: int, rule: RouteRule): RouteRule {
    rule.(backendRefs := RedirectedRefs(route, ruleIdx, rule.backendRefs))
  }

  ghost predicate SomeRedirected(before: HTTPRoute, ruleIdx: int, moved: seq<int>, after: HTTPRoute) {
    && after.(rules := before.rules) == before && |after.rules| == |before.rules|
    && forall i | 0 <= i < |before.rules| ::
         after.rules[i] == if i in moved then RedirectedRule(before.nn, ruleIdx, before.rules[i]) else before.rules[i]
  }

  /** The route after a rule's, or every rule's, references have moved. */
  ghost predicate Redirected(before: HTTPRoute, ruleIdx: int, after: HTTPRoute) {
    && after.(rules := before.rules) == before && |after.rules| == |before.rules|
    && forall i | 0 <= i < |before.rules| ::
         after.rules[i] ==
         if Targeted(ruleIdx, i) then RedirectedRule(before.nn, ruleIdx, before.rules[i]) else before.rules[i]
  }

  lemma {:induction false} OneMoreRef(route: NamespacedName, ruleIdx: int, config: Config, refs: seq<BackendRef>,
          i: nat, table: Table)
    requires i < |refs|
    ensures var rs := RefRequests(route, ruleIdx, config, refs);
            Run(table, rs[..i + 1]) == Touch(Run(table, rs[..i]), RequestFor(route, ruleIdx, config, refs[i]))
  {
    var rs := RefRequests(route, ruleIdx, config, refs);
    assert rs[..i + 1][..i] == rs[..i];
  }

  lemma {:induction false} NoTargetYet(route: HTTPRoute, ruleIdx: int)
    ensures SomeRedirected(route, ruleIdx, [], route)
  {
  }

  lemma {:induction false} AllTargetsDone(route: HTTPRoute, ruleIdx: int, targets: seq<int>, r: HTTPRoute)
    requires AreTargets(route, ruleIdx, targets) && InRange(route, targets)
    requires SomeRedirected(route, ruleIdx, targets, r)
    ensures Redirected(route, ruleIdx, r)
  {
  }

  lemma {:induction false} OneMoreTarget(route: HTTPRoute, ruleIdx: int, config: Config, targets: seq<int>, t: nat,
          table: Table, r: HTTPRoute)
    requires InRange(route, targets) && AreTargets(route, ruleIdx, targets) && t < |targets|
    requires SomeRedirected(route, ruleIdx, targets[..t], r)
    ensures InRange(route, targets[..t]) && InRange(route, targets[..t + 1])
    ensures var rule := route.rules[targets[t]];
            && Run(table, Requests(route, ruleIdx, config, targets[..t + 1]))
               == Run(Run(table, Requests(route, ruleIdx, config, targets[..t])),
                      RefRequests(route.nn, ruleIdx, config, rule.backendRefs))
            && r.rules[targets[t]] == rule
            && SomeRedirected(route, ruleIdx, targets[..t + 1],
                              r.(rules := r.rules[targets[t] := RedirectedRule(route.nn, ruleIdx, rule)]))
  {
    assert targets[..t + 1][..t] == targets[..t];
    RunConcat(table, Requests(route, ruleIdx, config, targets[..t]),
              RefRequests(route.nn, ruleIdx, config, route.rules[targets[t]].backendRefs));
    assert targets[..t + 1] == targets[..t] + [targets[t]];
    OneMoreRedirected(route, ruleIdx, targets[..t], targets[t], r);
  }

  lemma {:induction false} OneMoreRedirected(route: HTTPRoute, ruleIdx: int, moved: seq<int>, idx: int, r: HTTPRoute)
    requires SomeRedirected(route, ruleIdx, moved, r) && 0 <= idx < |route.rules| && idx !in moved
    ensures r.rules[idx] == route.rules[idx]
    ensures SomeRedirected(route, ruleIdx, moved + [idx],
                           r.(rules := r.rules[idx := RedirectedRule(route.nn, ruleIdx, route.rules[idx])]))
  {
  }

  // ---- the requests of a pass over one route ----

  /** An unparsed feature entry: all rules, or one rule. */
  datatype Job = Job(ruleIdx: int, config: Config)

  ghost predicate JobsFit(route: HTTPRoute, jobs: seq<Job>) {
    forall k | 0 <= k < |jobs| :: Fits(route, jobs[k].ruleIdx)
  }

  /** Either one entry for all rules, or entries for distinct rules: what the feature merge leaves. */
  ghost predicate SeparateJobs(jobs: seq<Job>) {
    forall k, l | 0 <= k < l < |jobs| ::
      jobs[k].ruleIdx != ALL_INDEX && jobs[l].ruleIdx != ALL_INDEX && jobs[k].ruleIdx != jobs[l].ruleIdx
  }

  ghost function JobRequests(route: HTTPRoute, jobs: seq<Job>): seq<Request>
    requires JobsFit(route, jobs)
  {
    if jobs == [] then []
    else
      var job := jobs[|jobs| - 1];
      JobRequests(route, jobs[..|jobs| - 1]) + RouteRequests(route, job.ruleIdx, job.config)
  }

  /** `ref` belongs to a rule that the entry targets. */
  ghost predicate Moved(route: HTTPRoute, ruleIdx: int, ref: BackendRef) {
    exists i | 0 <= i < |route.rules| && Targeted(ruleIdx, i) :: ref in route.rules[i].backendRefs
  }

  /** `r` is asked for on behalf of a reference of a rule that `job` targets. */
  ghost predicate AskedBy(route: HTTPRoute, job: Job, r: Request) {
    exists ref | Moved(route, job.ruleIdx, ref) :: r == RequestFor(route.nn, job.ruleIdx, job.config, ref)
  }

  lemma {:induction false} RefRequestsMembers(route: NamespacedName, ruleIdx: int, config: Config,
          refs: seq<BackendRef>, r: Request)
    ensures r in RefRequests(route, ruleIdx, config, refs) <==>
            exists ref | ref in refs :: r == RequestFor(route, ruleIdx, config, ref)
  {
    var rs := RefRequests(route, ruleIdx, config, refs);
    if r in rs {
      var j :| 0 <= j < |rs| && rs[j] == r;
      assert refs[j] in refs;
    }
    if ref :| ref in refs && r == RequestFor(route, ruleIdx, config, ref) {
      var j :| 0 <= j < |refs| && refs[j] == ref;
      assert rs[j] == r;
    }
  }

  lemma {:induction false} RequestsMembers(route: HTTPRoute, ruleIdx: int, config: Config, targets: seq<int>,
          r: Request)
    requires InRange(route, targets)
    ensures r in Requests(route, ruleIdx, config, targets) <==>
            exists i, ref | i in targets && 0 <= i < |route.rules| && ref in route.rules[i].backendRefs ::
              r == RequestFor(route.nn, ruleIdx, config, ref)
  {
    if targets != [] {
      var t, last := targets[..|targets| - 1], targets[|targets| - 1];
      assert targets == t + [last];
      RequestsMembers(route, ruleIdx, config, t, r);
      RefRequestsMembers(route.nn, ruleIdx, config, route.rules[last].backendRefs, r);
    }
  }

  lemma {:induction false} RouteRequestsMembers(route: HTTPRoute, job: Job, r: Request)
    requires Fits(route, job.ruleIdx)
    ensures r in RouteRequests(route, job.ruleIdx, job.config) <==> AskedBy(route, job, r)
  {
    var ts := Targets(route, job.ruleIdx);
    TargetsFit(route, job.ruleIdx);
    RequestsMembers(route, job.ruleIdx, job.config, ts, r);
    if r in RouteRequests(route, job.ruleIdx, job.config) {
      var i, ref :| i in ts && 0 <= i < |route.rules| && ref in route.rules[i].backendRefs
                    && r == RequestFor(route.nn, job.ruleIdx, job.config, ref);
      assert Moved(route, job.ruleIdx, ref);
    }
  }

  lemma {:induction false} JobRequestsMembers(route: HTTPRoute, jobs: seq<Job>, r: Request)
    requires JobsFit(route, jobs)
    ensures r in JobRequests(route, jobs) <==> exists k | 0 <= k < |jobs| :: AskedBy(route, jobs[k], r)
  {
    if jobs != [] {
      JobRequestsMembers(route, jobs[..|jobs| - 1], r);
      RouteRequestsMembers(route, jobs[|jobs| - 1], r);
      AskedByLast(route, jobs, r);
    }
  }

  lemma {:induction false} AskedByLast(route: HTTPRoute, jobs: seq<Job>, r: Request)
    requires jobs != []
    ensures var t := jobs[..|jobs| - 1];
            (exists k | 0 <= k < |jobs| :: AskedBy(route, jobs[k], r)) <==>
            (exists k | 0 <= k < |t| :: AskedBy(route, t[k], r)) || AskedBy(route, jobs[|jobs| - 1], r)
  {
    var t := jobs[..|jobs| - 1];
    if k :| 0 <= k < |jobs| && AskedBy(route, jobs[k], r) {
      assert k < |t| ==> AskedBy(route, t[k], r);
    }
    if k :| 0 <= k < |t| && AskedBy(route, t[k], r) {
      assert AskedBy(route, jobs[k], r);
    }
  }

  /** Within one route, and one form of name, the key pins down the rule and the service. */
  lemma {:induction false} KeyIsInjective(route: NamespacedName, m: int, a: string, n: int, b: string)
    requires (m == ALL_INDEX && n == ALL_INDEX) || (m >= 0 && n >= 0)
    ensures BackendKey(route, m, a) == BackendKey(route, n, b) <==> m == n && a == b
  {
    var x, y := BackendName(route.name, m, a), BackendName(route.name, n, b);
    if x == y {
      var skip := |route.name| + 1;
      if m == ALL_INDEX {
        assert x[skip..] == a && y[skip..] == b;
      } else {
        assert x[skip..] == Decimal(m) + "-" + a && y[skip..] == Decimal(n) + "-" + b;
        JoinIsInjective(Decimal(m), a, Decimal(n), b, '-');
        DecimalRoundTrip(m);
        DecimalRoundTrip(n);
      }
    }
  }

  /** All references to one service, in the rules of one entry, name one port. */
  ghost predicate PortsAgree(route: HTTPRoute, ruleIdx: int) {
    forall x, y | Moved(route, ruleIdx, x) && Moved(route, ruleIdx, y) && x.name == y.name :: x.port == y.port
  }

  /** A pass over one route is faithful exactly when every entry's references to a service agree on its port. */
  lemma {:induction false} RouteFaithfulIff(route: HTTPRoute, jobs: seq<Job>)
    requires JobsFit(route, jobs) && SeparateJobs(jobs)
    ensures Faithful(JobRequests(route, jobs)) <==> forall k | 0 <= k < |jobs| :: PortsAgree(route, jobs[k].ruleIdx)
  {
    var rs := JobRequests(route, jobs);
    FaithfulIff(rs);
    if forall k | 0 <= k < |jobs| :: PortsAgree(route, jobs[k].ruleIdx) {
      forall r, s | r in rs && s in rs && r.key == s.key ensures r.endpoint == s.endpoint && r.config == s.config {
        SameKeySameRequest(route, jobs, r, s);
      }
    }
    if NoClash(rs) {
      forall k | 0 <= k < |jobs| ensures PortsAgree(route, jobs[k].ruleIdx) {
        forall r | AskedBy(route, jobs[k], r) ensures r in rs {
          JobRequestsMembers(route, jobs, r);
        }
        NoClashMeansPortsAgree(route, jobs[k], rs);
      }
    }
  }

  lemma {:induction false} SameKeySameRequest(route: HTTPRoute, jobs: seq<Job>, r: Request, s: Request)
    requires JobsFit(route, jobs) && SeparateJobs(jobs)
    requires forall k | 0 <= k < |jobs| :: PortsAgree(route, jobs[k].ruleIdx)
    requires r in JobRequests(route, jobs) && s in JobRequests(route, jobs) && r.key == s.key
    ensures r == s
  {
    JobRequestsMembers(route, jobs, r);
    JobRequestsMembers(route, jobs, s);
    var k :| 0 <= k < |jobs| && AskedBy(route, jobs[k], r);
    var l :| 0 <= l < |jobs| && AskedBy(route, jobs[l], s);
    SameEntry(route, jobs, k, l, r, s);
    AskedAgree(route, jobs[k], r, s);
  }

  lemma {:induction false} SameEntry(route: HTTPRoute, jobs: seq<Job>, k: nat, l: nat, r: Request, s: Request)
    requires JobsFit(route, jobs) && SeparateJobs(jobs) && k < |jobs| && l < |jobs|
    requires AskedBy(route, jobs[k], r) && AskedBy(route, jobs[l], s) && r.key == s.key
    ensures k == l
  {
    if k != l {
      var x :| Moved(route, jobs[k].ruleIdx, x) && r == RequestFor(route.nn, jobs[k].ruleIdx, jobs[k].config, x);
      var y :| Moved(route, jobs[l].ruleIdx, y) && s == RequestFor(route.nn, jobs[l].ruleIdx, jobs[l].config, y);
      assert jobs[k].ruleIdx >= 0 && jobs[l].ruleIdx >= 0;
      KeyIsInjective(route.nn, jobs[k].ruleIdx, x.name, jobs[l].ruleIdx, y.name);
    }
  }

  lemma {:induction false} AskedAgree(route: HTTPRoute, job: Job, r: Request, s: Request)
    requires Fits(route, job.ruleIdx) && PortsAgree(route, job.ruleIdx)
    requires AskedBy(route, job, r) && AskedBy(route, job, s) && r.key == s.key
    ensures r == s
  {
    var x :| Moved(route, job.ruleIdx, x) && r == RequestFor(route.nn, job.ruleIdx, job.config, x);
    var y :| Moved(route, job.ruleIdx, y) && s == RequestFor(route.nn, job.ruleIdx, job.config, y);
    KeyIsInjective(route.nn, job.ruleIdx, x.name, job.ruleIdx, y.name);
  }

  lemma {:induction false} NoClashMeansPortsAgree(route: HTTPRoute, job: Job, rs: seq<Request>)
    requires NoClash(rs) && forall r | AskedBy(route, job, r) :: r in rs
    ensures PortsAgree(route, job.ruleIdx)
  {
    forall x, y | Moved(route, job.ruleIdx, x) && Moved(route, job.ruleIdx, y) && x.name == y.name
      ensures x.port == y.port
    {
      var r := RequestFor(route.nn, job.ruleIdx, job.config, x);
      var s := RequestFor(route.nn, job.ruleIdx, job.config, y);
      assert AskedBy(route, job, r) && AskedBy(route, job, s);
      assert r.endpoint == s.endpoint;
    }
  }

  /** The route after a pass. */
  ghost predicate JobsRedirected(before: HTTPRoute, jobs: seq<Job>, after: HTTPRoute) {
    && after.(rules := before.rules) == before && |after.rules| == |before.rules|
    && forall i | 0 <= i < |before.rules| :: RuleMoved(before, jobs, i, after.rules[i])
  }

  ghost predicate RuleMoved(before: HTTPRoute, jobs: seq<Job>, i: nat, rule: RouteRule)
    requires i < |before.rules|
  {
    && (forall k | 0 <= k < |jobs| && Targeted(jobs[k].ruleIdx, i) ::
          rule == RedirectedRule(before.nn, jobs[k].ruleIdx, before.rules[i]))
    && ((forall k | 0 <= k < |jobs| :: !Targeted(jobs[k].ruleIdx, i)) ==> rule == before.rules[i])
  }

  /** The name under which the cluster's DNS knows a Service: its parts, joined by dots. */
  ghost predicate ServiceHost(hostname: string, service: string, namespace: string) {
    hostname == Joined([service, namespace, "svc", "cluster", "local"], '.')
  }

  /** With dot-free names the host is the one that splits into these parts. */
  lemma {:induction false} ServiceHostParts(hostname: string, service: string, namespace: string)
    requires '.' !in service && '.' !in namespace
    ensures ServiceHost(hostname, service, namespace) <==>
            Split(hostname, '.') == [service, namespace, "svc", "cluster", "local"]
  {
    SplitOfJoined([service, namespace, "svc", "cluster", "local"], '.');
    JoinedOfSplit(hostname, '.');
  }

  /** The Backend trusts the certificate, shows it, and has the server name and the insecure flag that the entry
      sets. */
  ghost predicate Secured(tls: Option<TLSSettings>, namespace: string, config: Config) {
    && tls.Some? && tls.value.caCertificates == [config.certificate]
    && tls.value.clientCertificate == Some(NN(namespace, config.certificate))
    && tls.value.sni == (if config.sni == "" then None else Some(config.sni))
    && tls.value.insecureSkipVerify == config.insecureSkipVerify
  }

  /** A moved reference names a Backend of the table that leads to the Service and port it named before, with the
      settings of its entry. */
  ghost predicate Reaches(route: NamespacedName, job: Job, ref: BackendRef, moved: BackendRef, table: Table) {
    && moved.weight == ref.weight && moved.group == Some("gateway.envoyproxy.io") && moved.kind == Some("Backend")
    && moved.namespace == None && moved.port == None
    && NN(route.namespace, moved.name) in table
    && LeadsTo(table[NN(route.namespace, moved.name)], route.namespace, ref, job.config)
  }

  ghost predicate LeadsTo(b: BackendValue, namespace: string, ref: BackendRef, config: Config) {
    && ref.port.Some? && b.endpoint.Some? && b.endpoint.value.port == ref.port.value
    && ServiceHost(b.endpoint.value.hostname, ref.name, namespace) && Secured(b.tls, namespace, config)
  }

  /** What a request asks for is what leads its reference to the Service. */
  lemma {:induction false} LeadsToIff(route: NamespacedName, ruleIdx: int, config: Config, ref: BackendRef,
          b: BackendValue)
    ensures var r := RequestFor(route, ruleIdx, config, ref);
            LeadsTo(b, route.namespace, ref, config) <==> r.endpoint.Some? && b == Wanted(r)
  {
    HostIsJoined(ref.name, route.namespace);
  }

  lemma {:induction false} HostIsJoined(service: string, namespace: string)
    ensures service + "." + namespace + ".svc.cluster.local" ==
            Joined([service, namespace, "svc", "cluster", "local"], '.')
  {
    var parts := [service, namespace, "svc", "cluster", "local"];
    assert parts[1..] == [namespace, "svc", "cluster", "local"] && parts[1..][1..] == ["svc", "cluster", "local"];
    assert parts[1..][1..][1..] == ["cluster", "local"] && parts[1..][1..][1..][1..] == ["local"];
    assert Joined(["svc", "cluster", "local"], '.') == "svc.cluster.local";
    assert ".svc.cluster.local" == "." + "svc.cluster.local";
  }

  ghost predicate EndpointsKept(before: HTTPRoute, jobs: seq<Job>, after: HTTPRoute, table: Table)
    requires JobsRedirected(before, jobs, after)
  {
    forall k, i, j | 0 <= k < |jobs| && 0 <= i < |before.rules| && Targeted(jobs[k].ruleIdx, i)
                     && 0 <= j < |before.rules[i].backendRefs| ::
      j < |after.rules[i].backendRefs|
      && Reaches(before.nn, jobs[k], before.rules[i].backendRefs[j], after.rules[i].backendRefs[j], table)
  }

  /** Every moved reference reaches its endpoint exactly when each request of the route got what it asked for. */
  lemma {:induction false} KeptMeansServed(before: HTTPRoute, jobs: seq<Job>, after: HTTPRoute, table: Table)
    requires JobsFit(before, jobs) && JobsRedirected(before, jobs, after)
    ensures EndpointsKept(before, jobs, after, table) <==>
            forall r | r in JobRequests(before, jobs) :: r.endpoint.Some? && r.key in table && table[r.key] == Wanted(r)
  {
    var rs := JobRequests(before, jobs);
    if forall r | r in rs :: r.endpoint.Some? && r.key in table && table[r.key] == Wanted(r) {
      forall k, i, j | 0 <= k < |jobs| && 0 <= i < |before.rules| && Targeted(jobs[k].ruleIdx, i)
                       && 0 <= j < |before.rules[i].backendRefs|
        ensures j < |after.rules[i].backendRefs|
        ensures Reaches(before.nn, jobs[k], before.rules[i].backendRefs[j], after.rules[i].backendRefs[j], table)
      {
        ServedIsKept(before, jobs, after, table, k, i, j);
      }
    }
    if EndpointsKept(before, jobs, after, table) {
      forall r | r in rs ensures r.endpoint.Some? && r.key in table && table[r.key] == Wanted(r) {
        JobRequestsMembers(before, jobs, r);
        var k :| 0 <= k < |jobs| && AskedBy(before, jobs[k], r);
        KeptAsked(before, jobs, after, table, k, r);
      }
    }
  }

  lemma {:induction false} ServedIsKept(before: HTTPRoute, jobs: seq<Job>, after: HTTPRoute, table: Table, k: nat,
          i: nat, j: nat)
    requires JobsFit(before, jobs) && JobsRedirected(before, jobs, after) && k < |jobs| && i < |before.rules|
    requires Targeted(jobs[k].ruleIdx, i) && j < |before.rules[i].backendRefs|
    requires forall r | r in JobRequests(before, jobs) ::
               r.endpoint.Some? && r.key in table && table[r.key] == Wanted(r)
    ensures j < |after.rules[i].backendRefs|
    ensures Reaches(before.nn, jobs[k], before.rules[i].backendRefs[j], after.rules[i].backendRefs[j], table)
  {
    var ref := before.rules[i].backendRefs[j];
    var r := RequestFor(before.nn, jobs[k].ruleIdx, jobs[k].config, ref);
    assert Moved(before, jobs[k].ruleIdx, ref);
    assert AskedBy(before, jobs[k], r);
    JobRequestsMembers(before, jobs, r);
    assert RuleMoved(before, jobs, i, after.rules[i]);
    LeadsToIff(before.nn, jobs[k].ruleIdx, jobs[k].config, ref, table[r.key]);
  }

  lemma {:induction false} KeptAsked(before: HTTPRoute, jobs: seq<Job>, after: HTTPRoute, table: Table, k: nat,
          r: Request)
    requires JobsRedirected(before, jobs, after) && EndpointsKept(before, jobs, after, table)
    requires k < |jobs| && AskedBy(before, jobs[k], r)
    ensures r.endpoint.Some? && r.key in table && table[r.key] == Wanted(r)
  {
    var ref :| Moved(before, jobs[k].ruleIdx, ref) && r == RequestFor(before.nn, jobs[k].ruleIdx, jobs[k].config, ref);
    var i :| 0 <= i < |before.rules| && Targeted(jobs[k].ruleIdx, i) && ref in before.rules[i].backendRefs;
    var j :| 0 <= j < |before.rules[i].backendRefs| && before.rules[i].backendRefs[j] == ref;
    assert RuleMoved(before, jobs, i, after.rules[i]);
    assert Reaches(before.nn, jobs[k], before.rules[i].backendRefs[j], after.rules[i].backendRefs[j], table);
    LeadsToIff(before.nn, jobs[k].ruleIdx, jobs[k].config, ref, table[r.key]);
  }

  /** Merging per-rule entries into one for all rules is not harmless here: two rules that use different ports of one
      service keep their endpoints with an entry each, and lose one with the merged entry. */
  lemma {:induction false} MergedEntryLosesPort(route: HTTPRoute, config: Config)
    requires TwoPortsOneService(route)
    ensures Faithful(JobRequests(route, [Job(0, config), Job(1, config)]))
    ensures !Faithful(JobRequests(route, [Job(ALL_INDEX, config)]))
  {
    var each, all := [Job(0, config), Job(1, config)], [Job(ALL_INDEX, config)];
    PortsOfTwoRules(route);
    forall k | 0 <= k < |each| ensures PortsAgree(route, each[k].ruleIdx) {
      assert each[k].ruleIdx == k;
    }
    RouteFaithfulIff(route, each);
    RouteFaithfulIff(route, all);
    assert all[0].ruleIdx == ALL_INDEX;
  }

  /** Two rules with one reference each, to one service on two ports. */
  predicate TwoPortsOneService(route: HTTPRoute) {
    && |route.rules| == 2 && |route.rules[0].backendRefs| == |route.rules[1].backendRefs| == 1
    && route.rules[0].backendRefs[0].port.Some? && route.rules[1].backendRefs[0].port.Some?
    && route.rules[0].backendRefs[0].name == route.rules[1].backendRefs[0].name
    && route.rules[0].backendRefs[0].port != route.rules[1].backendRefs[0].port
  }

  lemma {:induction false} PortsOfTwoRules(route: HTTPRoute)
    requires TwoPortsOneService(route)
    ensures PortsAgree(route, 0) && PortsAgree(route, 1) && !PortsAgree(route, ALL_INDEX)
  {
    var x, y := route.rules[0].backendRefs[0], route.rules[1].backendRefs[0];
    assert route.rules[0].backendRefs == [x] && route.rules[1].backendRefs == [y];
    assert Moved(route, ALL_INDEX, x) && Moved(route, ALL_INDEX, y);
  }
}
