/** A whole run of EmitBackendTLS: the entries of many routes, met in any order, share one table of Backends. */
module BackendTlsRun {
  import opened Text
  import opened Names
  import opened Kube
  import opened Features
  import opened BackendTls

  /** A pass over one route: the entries processed, and the route before and after. */
  datatype Visit = Visit(before: HTTPRoute, jobs: seq<Job>, after: HTTPRoute)

  ghost predicate VisitFits(v: Visit) {
    JobsFit(v.before, v.jobs) && SeparateJobs(v.jobs) && JobsRedirected(v.before, v.jobs, v.after)
  }

  ghost predicate VisitsFit(vs: seq<Visit>) { forall p | 0 <= p < |vs| :: VisitFits(vs[p]) }

  ghost function RunRequests(vs: seq<Visit>): seq<Request>
    requires VisitsFit(vs)
  {
    if vs == [] then []
    else RunRequests(vs[..|vs| - 1]) + JobRequests(vs[|vs| - 1].before, vs[|vs| - 1].jobs)
  }

  lemma {:induction false} VisitsFitConcat(a: seq<Visit>, b: seq<Visit>)
    requires VisitsFit(a) && VisitsFit(b)
    ensures VisitsFit(a + b)
  {
  }

  lemma {:induction false} RunRequestsSnoc(vs: seq<Visit>, rest: seq<Visit>, v: Visit)
    requires VisitsFit(vs) && vs == rest + [v]
    ensures VisitFits(v) && VisitsFit(rest) && RunRequests(vs) == RunRequests(rest) + JobRequests(v.before, v.jobs)
  {
    assert vs[..|vs| - 1] == rest && vs[|vs| - 1] == v;
  }

  lemma {:induction false} SplitLast(a: seq<Visit>, b: seq<Visit>)
    requires b != []
    ensures a + b == (a + b[..|b| - 1]) + [b[|b| - 1]]
  {
  }

  lemma {:induction false} RunRequestsConcat(a: seq<Visit>, b: seq<Visit>)
    requires VisitsFit(a) && VisitsFit(b)
    ensures VisitsFit(a + b) && RunRequests(a + b) == RunRequests(a) + RunRequests(b)
  {
    VisitsFitConcat(a, b);
    if b == [] {
      assert a + b == a;
    } else {
      var init, last := b[..|b| - 1], b[|b| - 1];
      RunRequestsConcat(a, init);
      SplitLast(a, b);
      RunRequestsSnoc(a + b, a + init, last);
      assert b == init + [last];
      RunRequestsSnoc(b, init, last);
      Associate(RunRequests(a), RunRequests(init), JobRequests(last.before, last.jobs));
    }
  }

  lemma {:induction false} Associate(a: seq<Request>, b: seq<Request>, c: seq<Request>)
    ensures (a + b) + c == a + (b + c)
  {
  }

  /** The table at the end of a run of the emitter, which starts with an empty one. */
  ghost function FinalTable(vs: seq<Visit>): Table
    requires VisitsFit(vs)
  {
    Run(map[], RunRequests(vs))
  }

  lemma {:induction false} RunRequestsMembers(vs: seq<Visit>, r: Request)
    requires VisitsFit(vs)
    ensures r in RunRequests(vs) <==> SomeAsks(vs, r)
  {
    if vs != [] {
      var n := |vs| - 1;
      assert VisitFits(vs[n]);
      RunRequestsMembers(vs[..n], r);
      AsksSnoc(vs, r);
    }
  }

  ghost predicate SomeAsks(vs: seq<Visit>, r: Request) { SomeOf(vs, v => Asks(v, r)) }

  ghost predicate Asks(v: Visit, r: Request) { VisitFits(v) && r in JobRequests(v.before, v.jobs) }

  lemma {:induction false} AsksSnoc(vs: seq<Visit>, r: Request)
    requires vs != []
    ensures SomeAsks(vs, r) <==> SomeAsks(vs[..|vs| - 1], r) || Asks(vs[|vs| - 1], r)
  {
    SomeOfLast(vs, v => Asks(v, r));
  }

  ghost predicate SomeOf(vs: seq<Visit>, f: Visit -> bool) { exists p | 0 <= p < |vs| :: f(vs[p]) }

  lemma {:induction false} SomeOfLast(vs: seq<Visit>, f: Visit -> bool)
    requires vs != []
    ensures SomeOf(vs, f) <==> SomeOf(vs[..|vs| - 1], f) || f(vs[|vs| - 1])
  {
    var t := vs[..|vs| - 1];
    if p :| 0 <= p < |vs| && f(vs[p]) {
      assert p < |t| ==> f(t[p]);
    }
    if p :| 0 <= p < |t| && f(t[p]) {
      assert f(vs[p]);
    }
  }

  // ---- what keeps two passes apart ----

  /** Two references of two entries that get one Backend name name one port of one service, with one configuration. */
  ghost predicate EntriesApart(a: HTTPRoute, job: Job, b: HTTPRoute, other: Job) {
    forall x, y | Moved(a, job.ruleIdx, x) && Moved(b, other.ruleIdx, y)
                  && BackendKey(a.nn, job.ruleIdx, x.name) == BackendKey(b.nn, other.ruleIdx, y.name) ::
      x.name == y.name && x.port == y.port && job.config == other.config
  }

  ghost predicate VisitsApart(v: Visit, w: Visit) {
    forall k, l | 0 <= k < |v.jobs| && 0 <= l < |w.jobs| :: EntriesApart(v.before, v.jobs[k], w.before, w.jobs[l])
  }

  ghost predicate RoutesApart(vs: seq<Visit>) { forall p, q | 0 <= p < q < |vs| :: VisitsApart(vs[p], vs[q]) }

  ghost predicate AllPortsAgree(vs: seq<Visit>) {
    forall p, k | 0 <= p < |vs| && 0 <= k < |vs[p].jobs| :: PortsAgree(vs[p].before, vs[p].jobs[k].ruleIdx)
  }

  lemma {:induction false} EndpointsDiffer(namespace: string, x: BackendRef, y: BackendRef)
    requires x.port.Some?
    ensures EndpointOf(namespace, x) == EndpointOf(namespace, y) <==> x.name == y.name && x.port == y.port
  {
    if EndpointOf(namespace, x) == EndpointOf(namespace, y) {
      SameSuffix(x.name, y.name, "." + namespace + ".svc.cluster.local");
      HostParts(x.name, namespace);
      HostParts(y.name, namespace);
    }
  }

  lemma {:induction false} SameSuffix(a: string, b: string, suffix: string)
    ensures a + suffix == b + suffix <==> a == b
  {
    if a + suffix == b + suffix {
      assert |a| == |b|;
      assert a == (a + suffix)[..|a|] == (b + suffix)[..|b|] == b;
    }
  }

  lemma {:induction false} HostParts(name: string, namespace: string)
    ensures name + "." + namespace + ".svc.cluster.local" == name + ("." + namespace + ".svc.cluster.local")
  {
  }

  /** Who asked for a request: a reference moved by an entry of some pass. */
  lemma {:induction false} Asker(vs: seq<Visit>, r: Request) returns (p: nat, k: nat, x: BackendRef)
    requires VisitsFit(vs) && r in RunRequests(vs)
    ensures p < |vs| && k < |vs[p].jobs| && Moved(vs[p].before, vs[p].jobs[k].ruleIdx, x)
    ensures r == RequestFor(vs[p].before.nn, vs[p].jobs[k].ruleIdx, vs[p].jobs[k].config, x)
    ensures AskedBy(vs[p].before, vs[p].jobs[k], r)
  {
    RunRequestsMembers(vs, r);
    p :| 0 <= p < |vs| && Asks(vs[p], r);
    var v := vs[p];
    JobRequestsMembers(v.before, v.jobs, r);
    k :| 0 <= k < |v.jobs| && AskedBy(v.before, v.jobs[k], r);
    x :| Moved(v.before, v.jobs[k].ruleIdx, x) && r == RequestFor(v.before.nn, v.jobs[k].ruleIdx, v.jobs[k].config, x);
  }

  lemma {:induction false} AskedInRun(vs: seq<Visit>, p: nat, k: nat, r: Request)
    requires VisitsFit(vs) && p < |vs| && k < |vs[p].jobs| && AskedBy(vs[p].before, vs[p].jobs[k], r)
    ensures r in RunRequests(vs)
  {
    assert VisitFits(vs[p]);
    JobRequestsMembers(vs[p].before, vs[p].jobs, r);
    assert Asks(vs[p], r);
    RunRequestsMembers(vs, r);
  }

  lemma {:induction false} ApartMeansNoClash(vs: seq<Visit>)
    requires VisitsFit(vs) && AllPortsAgree(vs) && RoutesApart(vs)
    ensures NoClash(RunRequests(vs))
  {
    var rs := RunRequests(vs);
    forall r, s | r in rs && s in rs && r.key == s.key ensures r.endpoint == s.endpoint && r.config == s.config {
      SameKeyAgrees(vs, r, s);
    }
  }

  lemma {:induction false} SameKeyAgrees(vs: seq<Visit>, r: Request, s: Request)
    requires VisitsFit(vs) && AllPortsAgree(vs) && RoutesApart(vs)
    requires r in RunRequests(vs) && s in RunRequests(vs) && r.key == s.key
    ensures r.endpoint == s.endpoint && r.config == s.config
  {
    var p, k, x := Asker(vs, r);
    var q, l, y := Asker(vs, s);
    if p == q {
      assert VisitFits(vs[p]);
      SameEntry(vs[p].before, vs[p].jobs, k, l, r, s);
      AskedAgree(vs[p].before, vs[p].jobs[k], r, s);
    } else if p < q {
      ApartAgree(vs[p], vs[q], k, l, x, y);
    } else {
      ApartAgree(vs[q], vs[p], l, k, y, x);
    }
  }

  lemma {:induction false} ApartAgree(v: Visit, w: Visit, k: nat, l: nat, x: BackendRef, y: BackendRef)
    requires VisitsApart(v, w) && k < |v.jobs| && l < |w.jobs|
    requires Moved(v.before, v.jobs[k].ruleIdx, x) && Moved(w.before, w.jobs[l].ruleIdx, y)
    requires BackendKey(v.before.nn, v.jobs[k].ruleIdx, x.name) == BackendKey(w.before.nn, w.jobs[l].ruleIdx, y.name)
    ensures x.name == y.name && x.port == y.port && v.jobs[k].config == w.jobs[l].config
  {
    assert EntriesApart(v.before, v.jobs[k], w.before, w.jobs[l]);
  }

  lemma {:induction false} NoClashMeansApart(vs: seq<Visit>)
    requires VisitsFit(vs) && Safe(map[], RunRequests(vs)) && NoClash(RunRequests(vs))
    ensures AllPortsAgree(vs) && RoutesApart(vs)
  {
    var rs := RunRequests(vs);
    forall p, k | 0 <= p < |vs| && 0 <= k < |vs[p].jobs| ensures PortsAgree(vs[p].before, vs[p].jobs[k].ruleIdx) {
      forall r | AskedBy(vs[p].before, vs[p].jobs[k], r) ensures r in rs {
        AskedInRun(vs, p, k, r);
      }
      NoClashMeansPortsAgree(vs[p].before, vs[p].jobs[k], rs);
    }
    SafeRunHasEndpoints(rs);
    forall p, q | 0 <= p < q < |vs| ensures VisitsApart(vs[p], vs[q]) {
      PairApart(vs, p, q);
    }
  }

  lemma {:induction false} PairApart(vs: seq<Visit>, p: nat, q: nat)
    requires VisitsFit(vs) && NoClash(RunRequests(vs)) && p < q < |vs|
    requires forall r | r in RunRequests(vs) :: r.endpoint.Some?
    ensures VisitsApart(vs[p], vs[q])
  {
    forall k, l | 0 <= k < |vs[p].jobs| && 0 <= l < |vs[q].jobs|
      ensures EntriesApart(vs[p].before, vs[p].jobs[k], vs[q].before, vs[q].jobs[l])
    {
      forall x, y | Moved(vs[p].before, vs[p].jobs[k].ruleIdx, x) && Moved(vs[q].before, vs[q].jobs[l].ruleIdx, y)
                    && BackendKey(vs[p].before.nn, vs[p].jobs[k].ruleIdx, x.name)
                       == BackendKey(vs[q].before.nn, vs[q].jobs[l].ruleIdx, y.name)
        ensures x.name == y.name && x.port == y.port && vs[p].jobs[k].config == vs[q].jobs[l].config
      {
        RefsAgree(vs, p, q, k, l, x, y);
      }
    }
  }

  lemma {:induction false} RefsAgree(vs: seq<Visit>, p: nat, q: nat, k: nat, l: nat, x: BackendRef, y: BackendRef)
    requires VisitsFit(vs) && NoClash(RunRequests(vs)) && forall r | r in RunRequests(vs) :: r.endpoint.Some?
    requires p < |vs| && q < |vs| && k < |vs[p].jobs| && l < |vs[q].jobs|
    requires Moved(vs[p].before, vs[p].jobs[k].ruleIdx, x) && Moved(vs[q].before, vs[q].jobs[l].ruleIdx, y)
    requires BackendKey(vs[p].before.nn, vs[p].jobs[k].ruleIdx, x.name)
             == BackendKey(vs[q].before.nn, vs[q].jobs[l].ruleIdx, y.name)
    ensures x.name == y.name && x.port == y.port && vs[p].jobs[k].config == vs[q].jobs[l].config
  {
    var job, other := vs[p].jobs[k], vs[q].jobs[l];
    var r := RequestFor(vs[p].before.nn, job.ruleIdx, job.config, x);
    var s := RequestFor(vs[q].before.nn, other.ruleIdx, other.config, y);
    assert AskedBy(vs[p].before, job, r) && AskedBy(vs[q].before, other, s);
    AskedInRun(vs, p, k, r);
    AskedInRun(vs, q, l, s);
    assert r.endpoint.Some? && r.endpoint == s.endpoint && r.config == s.config;
    EndpointsDiffer(vs[p].before.nn.namespace, x, y);
  }

  // ---- the theorem ----

  /** Every moved reference of every route names, in the final table, a Backend with the service host and port it named
      before and exactly the settings of its entry. */
  ghost predicate AllEndpointsKept(vs: seq<Visit>)
    requires VisitsFit(vs)
  {
    forall p | 0 <= p < |vs| :: VisitFits(vs[p]) && EndpointsKept(vs[p].before, vs[p].jobs, vs[p].after, FinalTable(vs))
  }

  lemma {:induction false} KeptMeansFaithful(vs: seq<Visit>)
    requires VisitsFit(vs)
    ensures AllEndpointsKept(vs) <==> Faithful(RunRequests(vs)) && forall r | r in RunRequests(vs) :: r.endpoint.Some?
  {
    var rs, table := RunRequests(vs), FinalTable(vs);
    forall p | 0 <= p < |vs|
      ensures VisitFits(vs[p])
      ensures EndpointsKept(vs[p].before, vs[p].jobs, vs[p].after, table) <==>
              forall r | r in JobRequests(vs[p].before, vs[p].jobs) ::
                r.endpoint.Some? && r.key in table && table[r.key] == Wanted(r)
    {
      KeptMeansServed(vs[p].before, vs[p].jobs, vs[p].after, table);
    }
    if AllEndpointsKept(vs) {
      forall r | r in rs ensures r.endpoint.Some? && r.key in table && table[r.key] == Wanted(r) {
        RunRequestsMembers(vs, r);
        var p :| 0 <= p < |vs| && Asks(vs[p], r);
      }
    }
    if Faithful(rs) && forall r | r in rs :: r.endpoint.Some? {
      forall p, r | 0 <= p < |vs| && r in JobRequests(vs[p].before, vs[p].jobs) ensures r in rs {
        assert Asks(vs[p], r);
        RunRequestsMembers(vs, r);
      }
    }
  }

  /** BackendTLS keeps endpoints over a whole run, for every order of routes and entries, exactly when inside each
      entry's rules the references to one service agree on its port, and no two routes use one Backend name for
      different things. */
  lemma {:induction false} IndirectionKeepsEndpointsIff(vs: seq<Visit>)
    requires VisitsFit(vs) && Safe(map[], RunRequests(vs))
    ensures AllEndpointsKept(vs) <==> AllPortsAgree(vs) && RoutesApart(vs)
  {
    KeptMeansFaithful(vs);
    FaithfulIff(RunRequests(vs));
    if AllPortsAgree(vs) && RoutesApart(vs) {
      ApartMeansNoClash(vs);
      SafeRunHasEndpoints(RunRequests(vs));
    }
    if NoClash(RunRequests(vs)) {
      NoClashMeansApart(vs);
    }
  }

  // ---- when names of two routes meet ----

  /** A Backend name is this and the service. */
  function BackendPrefix(route: string, ruleIdx: int): string {
    if ruleIdx == ALL_INDEX then route + "-" else route + "-" + DecimalInt(ruleIdx) + "-"
  }

  /** `p + x` and `q + y` are one text. */
  ghost predicate Overlap(p: string, x: string, q: string, y: string) {
    (exists d: string :: q == p + d && x == d + y) || (exists d: string :: p == q + d && y == d + x)
  }

  lemma {:induction false} OverlapMeansEqual(p: string, x: string, q: string, y: string)
    ensures p + x == q + y <==> Overlap(p, x, q, y)
  {
    if p + x == q + y {
      var s := p + x;
      if |p| <= |q| {
        var d := q[|p|..];
        assert q == s[..|q|] && p == s[..|p|] && q == p + d;
        assert x == s[|p|..] && y == s[|q|..];
        assert x == d + y;
      } else {
        var d := p[|q|..];
        assert p == s[..|p|] && q == s[..|q|] && p == q + d;
        assert x == s[|p|..] && y == s[|q|..];
        assert y == d + x;
      }
    }
    if d: string :| q == p + d && x == d + y {
      assert p + (d + y) == (p + d) + y;
    }
    if d: string :| p == q + d && y == d + x {
      assert q + (d + x) == (q + d) + x;
    }
  }

  /** Two Backend names are one exactly when the routes share a namespace and the longer name part runs into the other's
      service. For one service that leaves a route for all rules named like another with a rule number. */
  lemma {:induction false} BackendNamesCoincideIff(a: NamespacedName, i: int, x: string, b: NamespacedName, j: int,
          y: string)
    requires i >= ALL_INDEX && j >= ALL_INDEX
    ensures BackendKey(a, i, x) == BackendKey(b, j, y) <==>
            a.namespace == b.namespace && Overlap(BackendPrefix(a.name, i), x, BackendPrefix(b.name, j), y)
    ensures x == y && !(a == b && i == j) ==>
              (BackendKey(a, i, x) == BackendKey(b, j, y) <==>
               a.namespace == b.namespace
               && ((i == ALL_INDEX && j >= 0 && a.name == b.name + "-" + Decimal(j))
                   || (j == ALL_INDEX && i >= 0 && b.name == a.name + "-" + Decimal(i))))
  {
    var p, q := BackendPrefix(a.name, i), BackendPrefix(b.name, j);
    assert BackendName(a.name, i, x) == p + x && BackendName(b.name, j, y) == q + y;
    OverlapMeansEqual(p, x, q, y);
    if x == y {
      SameSuffix(p, q, x);
      SamePrefixIff(a.name, i, b.name, j);
    }
  }

  lemma {:induction false} SamePrefixIff(a: string, i: int, b: string, j: int)
    requires i >= ALL_INDEX && j >= ALL_INDEX
    ensures BackendPrefix(a, i) == BackendPrefix(b, j) <==>
            (a == b && i == j)
            || (i == ALL_INDEX && j >= 0 && a == b + "-" + Decimal(j))
            || (j == ALL_INDEX && i >= 0 && b == a + "-" + Decimal(i))
  {
    var x := if i == ALL_INDEX then a else a + "-" + Decimal(i);
    var y := if j == ALL_INDEX then b else b + "-" + Decimal(j);
    assert BackendPrefix(a, i) == x + "-" && BackendPrefix(b, j) == y + "-";
    SameSuffix(x, y, "-");
    if i >= 0 && j >= 0 && x == y {
      LastDashSplits(a, Decimal(i), b, Decimal(j));
      DecimalRoundTrip(i);
      DecimalRoundTrip(j);
    }
  }

  /** So routes are apart while the name part of no entry is a prefix of another's in the same namespace. */
  lemma {:induction false} PrefixFreeRoutesAreApart(vs: seq<Visit>)
    requires forall p, k | 0 <= p < |vs| && 0 <= k < |vs[p].jobs| :: vs[p].jobs[k].ruleIdx >= ALL_INDEX
    requires forall p, q, k, l | 0 <= p < q < |vs| && 0 <= k < |vs[p].jobs| && 0 <= l < |vs[q].jobs| ::
               PrefixFree(vs[p].before.nn, vs[p].jobs[k].ruleIdx, vs[q].before.nn, vs[q].jobs[l].ruleIdx)
    ensures RoutesApart(vs)
  {
    forall p, q, k, l | 0 <= p < q < |vs| && 0 <= k < |vs[p].jobs| && 0 <= l < |vs[q].jobs|
      ensures EntriesApart(vs[p].before, vs[p].jobs[k], vs[q].before, vs[q].jobs[l])
    {
      var a, i, b, j := vs[p].before.nn, vs[p].jobs[k].ruleIdx, vs[q].before.nn, vs[q].jobs[l].ruleIdx;
      assert PrefixFree(a, i, b, j);
      forall x: BackendRef, y: BackendRef ensures BackendKey(a, i, x.name) != BackendKey(b, j, y.name) {
        BackendNamesCoincideIff(a, i, x.name, b, j, y.name);
      }
    }
  }

  /** Neither name part is a prefix of the other, or the namespaces differ. */
  predicate PrefixFree(a: NamespacedName, i: int, b: NamespacedName, j: int) {
    a.namespace != b.namespace
    || (!(BackendPrefix(a.name, i) <= BackendPrefix(b.name, j))
        && !(BackendPrefix(b.name, j) <= BackendPrefix(a.name, i)))
  }

  /** Two routes of one Ingress collide: `web` with hosts `a` and `a-0` gives routes `web-a` and `web-a-0`. When rule 0
      of the first and all rules of the second use one service on two ports, one of them loses its port. */
  lemma {:induction false} RoutesCanCollide(v: Visit, w: Visit, x: BackendRef, y: BackendRef)
    requires v.before.nn.name == RouteName("web", "a") && w.before.nn.name == RouteName("web", "a-0")
    requires v.before.nn.namespace == w.before.nn.namespace && v.jobs != [] && w.jobs != []
    requires v.jobs[0].ruleIdx == 0 && w.jobs[0].ruleIdx == ALL_INDEX
    requires Moved(v.before, 0, x) && Moved(w.before, ALL_INDEX, y) && x.name == y.name && x.port != y.port
    requires VisitsFit([v, w]) && Safe(map[], RunRequests([v, w]))
    ensures v.before.nn.name == "web-a" && w.before.nn.name == "web-a-0"
    ensures !AllEndpointsKept([v, w])
  {
    WebNames();
    assert Decimal(0) == "0";
    assert "web-a" + "-" + "0" == "web-a-0";
    BackendNamesCoincideIff(v.before.nn, 0, x.name, w.before.nn, ALL_INDEX, y.name);
    assert !EntriesApart(v.before, v.jobs[0], w.before, w.jobs[0]);
    assert !VisitsApart(v, w);
    assert [v, w][0] == v && [v, w][1] == w;
    IndirectionKeepsEndpointsIff([v, w]);
  }

  lemma {:induction false} WebNames()
    ensures RouteName("web", "a") == "web-a" && RouteName("web", "a-0") == "web-a-0"
  {
    assert "a"[1..] == "" && "a-0"[1..] == "-0" && "-0"[1..] == "0" && "0"[1..] == "";
    assert Collapse("a") == "a" && Collapse("0") == "0" && Collapse("-0") == "-0" && Collapse("a-0") == "a-0";
    assert TrimLeft("a") == "a" && TrimLeft("a-0") == "a-0";
  }
}
