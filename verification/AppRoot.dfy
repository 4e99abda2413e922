/** The app-root annotation: a redirect of `/`, on the rule that matches exactly that path or on one made for it. */
module AppRoot {
  import opened Text
  import opened Names
  import opened Kube
  import opened Paths
  import opened Canary
  import opened Emission
  import opened Resolution
  import opened CanaryRouting

  /** RedirectFeatureIR; `ssl` holds the force flag of an SSL redirect. */
  datatype Redirect = Redirect(url: string, statusCode: int, ssl: Option<bool>)

  predicate IsRootExact(m: RouteMatch) { m.path == PathMatch(Exact, "/") }

  ghost predicate HasRootExact(rule: RouteRule) { exists m :: m in rule.matches && IsRootExact(m) }

  const ROOT_RULE := RouteRule(Some(APP_ROOT_RULE), [RouteMatch(PathMatch(Exact, "/"), [])], [])

  // ---- the rule that gets the redirect ----

  /** `target` is the first rule that matches exactly `/`, or the end of the list if there is none; -1 without rules. */
  ghost predicate IsTarget(rules: seq<RouteRule>, target: int) {
    if rules == [] then target == -1
    else
      && 0 <= target <= |rules|
      && (forall i | 0 <= i < target :: !HasRootExact(rules[i]))
      && (target < |rules| ==> HasRootExact(rules[target]))
  }

  /** The rules with the target in them: one is appended if no rule matches exactly `/` and there are rules. */
  function WithTarget(rules: seq<RouteRule>, target: int): seq<RouteRule> {
    if rules != [] && target == |rules| then rules + [ROOT_RULE] else rules
  }

  method FindRootRule(ctx: HTTPRouteContext) returns (idx: int)
    ensures -1 <= idx < |ctx.rules|
    ensures idx == -1 ==> forall i | 0 <= i < |ctx.rules| :: !HasRootExact(ctx.rules[i])
    ensures idx != -1 ==> HasRootExact(ctx.rules[idx]) && forall i | 0 <= i < idx :: !HasRootExact(ctx.rules[i])
  {
    idx := -1;
    for i := 0 to |ctx.rules|
      invariant idx == -1 && forall h | 0 <= h < i :: !HasRootExact(ctx.rules[h])
    {
      var matches := ctx.rules[i].matches;
      for j := 0 to |matches|
        invariant forall k | 0 <= k < j :: !IsRootExact(matches[k])
      {
        if IsRootExact(matches[j]) {
          assert matches[j] in ctx.rules[i].matches;
          idx := i;
          break;
        }
      }
      if idx != -1 {
        break;
      }
    }
  }

  // ---- the URL ----

  ghost predicate HasTlsFor(ing: Ingress, hostname: string) { exists t :: t in ing.tls && hostname in t.hosts }

  ghost function RedirectUrl(ing: Ingress, hostname: string, path: string): string {
    if hostname == "" then "" else (if HasTlsFor(ing, hostname) then "https" else "http") + "://" + hostname + path
  }

  /** The URL leads to the path on the host, over HTTPS iff a TLS entry of the Ingress lists the host. */
  ghost predicate LeadsToHost(url: string, ing: Ingress, hostname: string, path: string) {
    if hostname == "" then url == ""
    else if HasTlsFor(ing, hostname) then url == "https://" + hostname + path
    else url == "http://" + hostname + path
  }

  lemma {:induction false} UrlMeans(ing: Ingress, hostname: string, path: string)
    ensures LeadsToHost(RedirectUrl(ing, hostname, path), ing, hostname, path)
  {
    assert "https" + "://" == "https://" && "http" + "://" == "http://";
  }

  /** constructRedirectURL */
  method ConstructRedirectURL(ing: Ingress, hostname: string, path: string) returns (url: string)
    ensures url == RedirectUrl(ing, hostname, path)
  {
    if hostname == "" {
      return "";
    }
    var scheme := "http";
    for i := 0 to |ing.tls|
      invariant scheme == "http" && forall h | 0 <= h < i :: hostname !in ing.tls[h].hosts
    {
      var hosts := ing.tls[i].hosts;
      for j := 0 to |hosts|
        invariant scheme == "http" && forall k | 0 <= k < j :: hosts[k] != hostname
      {
        if hosts[j] == hostname {
          assert ing.tls[i] in ing.tls;
          scheme := "https";
          break;
        }
      }
      if scheme == "https" {
        break;
      }
    }
    return scheme + "://" + hostname + path;
  }

  // ---- the whole step ----

  /** processAppRootRedirect: nothing on a route without hostnames; otherwise the redirect entry of the target rule,
      kept or made, gets the URL and status 302, and no other entry or rule changes. */
  method ProcessAppRoot(ctx: HTTPRouteContext, hostnames: seq<string>, redirects: map<int, Redirect>, ing: Ingress,
          appRoot: string)
    returns (redirects': map<int, Redirect>, target: int)
    modifies ctx
    ensures hostnames == [] ==> ctx.rules == old(ctx.rules) && redirects' == redirects
    ensures hostnames != [] ==>
              && IsTarget(old(ctx.rules), target) && ctx.rules == WithTarget(old(ctx.rules), target)
              && redirects' == redirects[target :=
                   (if target in redirects then redirects[target] else Redirect("", 0, None))
                     .(url := RedirectUrl(ing, hostnames[0], appRoot), statusCode := 302)]
              && LeadsToHost(redirects'[target].url, ing, hostnames[0], appRoot)
  {
    redirects', target := redirects, -1;
    if |hostnames| == 0 {
      return;
    }
    target := FindRootRule(ctx);
    if target == -1 && |ctx.rules| > 0 {
      ctx.rules := ctx.rules + [ROOT_RULE];
      target := |ctx.rules| - 1;
    }
    if target !in redirects' {
      redirects' := redirects'[target := Redirect("", 0, None)];
    }
    var url := ConstructRedirectURL(ing, hostnames[0], appRoot);
    UrlMeans(ing, hostnames[0], appRoot);
    redirects' := redirects'[target := redirects'[target].(url := url, statusCode := 302)];
  }

  /** The appended rule's name is none of the others'. */
  lemma {:induction false} AppRootNameDistinct(rules: seq<RouteRule>, sources: seq<seq<BackendSource>>)
    requires Indexable(rules, sources) && NumberedRules(rules)
    ensures DistinctNames(Final(rules, sources) + [ROOT_RULE])
  {
    var e := Expand(rules, sources, |sources|);
    ExpandedNamesDistinct(rules, sources);
    forall i | 0 <= i < |e.prepended + e.rules| ensures (e.prepended + e.rules)[i].name != ROOT_RULE.name {
      if i < |e.prepended| {
        var k := PrependedFrom(rules, sources, |sources|, i);
        HeaderRulesNamed(rules[k], k, sources[k], e.prepended[i]);
        AppRootIsNotNumbered(k);
      } else {
        CanaryShift(rules, sources, i - |e.prepended|);
        AppRootIsNotNumbered(i - |e.prepended|);
      }
    }
    DistinctConcat(e.prepended + e.rules, [ROOT_RULE]);
  }

  // ---- whether the redirect meets every request for `/` ----

  /** No exact match of `/` also asks for a header. */
  ghost predicate PlainRoot(rules: seq<RouteRule>) {
    forall i, m | 0 <= i < |rules| && m in rules[i].matches && IsRootExact(m) :: m.headers == []
  }

  ghost predicate OneHeaderAtMost(rules: seq<RouteRule>) {
    forall i, m | 0 <= i < |rules| && m in rules[i].matches && IsRootExact(m) :: |m.headers| <= 1
  }

  /** Every request for `/` is served by the rule that has the redirect. */
  ghost predicate TargetServesRoot(rules: seq<RouteRule>, target: nat) {
    forall req: Request | req.path == "/" :: IsWinner(WithTarget(rules, target), req, target)
  }

  lemma {:induction false} TargetOfPlainRoot(rules: seq<RouteRule>, target: nat, req: Request)
    requires rules != [] && IsTarget(rules, target) && req.path == "/" && PlainRoot(rules)
    ensures IsWinner(WithTarget(rules, target), req, target)
  {
    var all := WithTarget(rules, target);
    assert target < |rules| ==> all == rules;
    if target == |rules| {
      assert all[target] == ROOT_RULE && ROOT_RULE.matches[0] in all[target].matches;
      assert IsRootExact(ROOT_RULE.matches[0]);
    }
    var m :| m in all[target].matches && IsRootExact(m);
    assert Matches(m, req);
    forall j, n | 0 <= j < |all| && n in all[j].matches && Matches(n, req)
      ensures !Outranks(n, m) && (!Outranks(m, n) ==> target <= j)
    {
      if j < target {
        assert all[j] == rules[j] && !HasRootExact(rules[j]);
      }
      RootExactIsTop(n, m, req);
    }
    assert IsBest(all, req, target, m);
  }

  lemma {:induction false} RootExactIsTop(n: RouteMatch, m: RouteMatch, req: Request)
    requires req.path == "/" && Matches(n, req) && IsRootExact(m) && m.headers == []
    requires IsRootExact(n) ==> n.headers == []
    ensures !Outranks(n, m) && (!IsRootExact(n) ==> Outranks(m, n))
  {
  }

  /** A request for `/` that carries just what a match asks for. */
  function RootRequest(m: RouteMatch): Request
    requires |m.headers| <= 1
  {
    Request("/", if m.headers == [] then map[] else map[ToLower(m.headers[0].name) := m.headers[0].value])
  }

  /** When a match of `/` asks for a header, some request for `/` escapes the redirect: one without headers if the
      target asks for one, else one with the header of the match that does. */
  lemma {:induction false} EscapingRequest(rules: seq<RouteRule>, target: nat, i: nat, n: RouteMatch)
    returns (req: Request)
    requires SingleMatches(rules) && IsTarget(rules, target) && OneHeaderAtMost(rules)
    requires i < |rules| && n in rules[i].matches && IsRootExact(n) && n.headers != []
    ensures req.path == "/" && !IsWinner(WithTarget(rules, target), req, target)
  {
    assert HasRootExact(rules[i]);
    assert target < |rules| && WithTarget(rules, target) == rules;
    var m := rules[target].matches[0];
    assert m in rules[target].matches && IsRootExact(m);
    if m.headers != [] {
      req := Request("/", map[]);
      assert !HeaderMatches(m.headers[0], req);
    } else {
      req := RootRequest(n);
      assert Matches(n, req) && Outranks(n, m);
    }
  }

  /** The app-root redirect meets every request for `/` iff no rule that matches exactly `/` also asks for a header. */
  lemma {:induction false} TargetServesRootIff(rules: seq<RouteRule>, target: nat)
    requires rules != [] && SingleMatches(rules) && IsTarget(rules, target) && OneHeaderAtMost(rules)
    ensures TargetServesRoot(rules, target) <==> PlainRoot(rules)
  {
    if PlainRoot(rules) {
      forall req: Request | req.path == "/" ensures IsWinner(WithTarget(rules, target), req, target) {
        TargetOfPlainRoot(rules, target, req);
      }
    } else {
      var i, n :| 0 <= i < |rules| && n in rules[i].matches && IsRootExact(n) && n.headers != [];
      var req := EscapingRequest(rules, target, i, n);
    }
  }

  // ---- the same, on the sources of a converted route ----

  /** A rule for exactly `/` has a source that is a canary with a header annotation. */
  ghost predicate HeaderCanaryOnRoot(rules: seq<RouteRule>, sources: seq<seq<BackendSource>>)
    requires BaseRules(rules, sources)
  {
    exists i | 0 <= i < |rules| :: RootHeaderCanary(rules[i], sources[i])
  }

  ghost predicate RootHeaderCanary(rule: RouteRule, sources: seq<BackendSource>) {
    |rule.matches| == 1 && IsRootExact(rule.matches[0]) && ListHasHeaderCanary(sources)
  }

  /** A rule of the expanded route that came from rule `i`: the rule itself, or a copy that asks for one header. */
  ghost predicate ComesFrom(rules: seq<RouteRule>, sources: seq<seq<BackendSource>>, i: nat, r: RouteRule)
    requires BaseRules(rules, sources)
  {
    && i < |rules| && |r.matches| == 1 && |rules[i].matches| == 1 && r.matches[0].path == rules[i].matches[0].path
    && |r.matches[0].headers| <= 1 && (r.matches[0].headers != [] ==> ListHasHeaderCanary(sources[i]))
  }

  lemma {:induction false} CopyShape(rule: RouteRule, i: nat, sources: seq<BackendSource>, h: RouteRule)
    requires BaseRule(rule, sources, i) && CanaryFits(sources) && h in ExpandRule(rule, i, sources).prepended
    ensures |h.matches| == 1 && |h.matches[0].headers| == 1 && h.matches[0].path == rule.matches[0].path
    ensures ListHasHeaderCanary(sources)
  {
    HeaderRulesIff(rule, i, sources);
  }

  lemma {:induction false} FinalComesFrom(rules: seq<RouteRule>, sources: seq<seq<BackendSource>>, q: nat)
    returns (i: nat)
    requires BaseRules(rules, sources) && Indexable(rules, sources) && AllFit(sources, |sources|)
    requires q < |Final(rules, sources)|
    ensures ComesFrom(rules, sources, i, Final(rules, sources)[q])
  {
    var e := Expand(rules, sources, |sources|);
    FinalAt(rules, sources, q);
    if q < |e.prepended| {
      i := PrependedFrom(rules, sources, |sources|, q);
      assert BaseRule(rules[i], sources[i], i) && CanaryFits(sources[i]);
      CopyShape(rules[i], i, sources[i], e.prepended[q]);
    } else {
      i := q - |e.prepended|;
      CanaryShift(rules, sources, i);
      assert BaseRule(rules[i], sources[i], i);
    }
  }

  lemma {:induction false} CopyIsInFinal(rules: seq<RouteRule>, sources: seq<seq<BackendSource>>, i: nat)
    returns (h: RouteRule)
    requires BaseRules(rules, sources) && Indexable(rules, sources) && AllFit(sources, |sources|)
    requires i < |rules| && ListHasHeaderCanary(sources[i])
    ensures h in Final(rules, sources) && |h.matches| == 1 && h.matches[0].headers != []
    ensures |rules[i].matches| == 1 && h.matches[0].path == rules[i].matches[0].path
  {
    assert BaseRule(rules[i], sources[i], i) && CanaryFits(sources[i]);
    HeaderRulesIff(rules[i], i, sources[i]);
    h := ExpandRule(rules[i], i, sources[i]).prepended[0];
    CopyShape(rules[i], i, sources[i], h);
    ExpandAt(rules, sources, |sources|, i);
    assert h in Expand(rules, sources, |sources|).prepended;
  }

  /** One match, with a header only if `some` source is a header canary of a rule for exactly `/`, as far as `/`
      goes. */
  predicate RootShaped(r: RouteRule, some: bool) {
    && |r.matches| == 1 && |r.matches[0].headers| <= 1
    && (IsRootExact(r.matches[0]) && r.matches[0].headers != [] ==> some)
  }

  lemma {:induction false} FinalShapeAt(rules: seq<RouteRule>, sources: seq<seq<BackendSource>>, r: RouteRule)
    requires BaseRules(rules, sources) && Indexable(rules, sources) && AllFit(sources, |sources|)
    requires r in Final(rules, sources)
    ensures RootShaped(r, HeaderCanaryOnRoot(rules, sources))
  {
    var q :| 0 <= q < |Final(rules, sources)| && Final(rules, sources)[q] == r;
    var i := FinalComesFrom(rules, sources, q);
    if IsRootExact(r.matches[0]) && r.matches[0].headers != [] {
      assert RootHeaderCanary(rules[i], sources[i]);
    }
  }

  lemma {:induction false} RootShape(rules: seq<RouteRule>, some: bool)
    requires forall r | r in rules :: RootShaped(r, some)
    requires some ==>
               exists r :: r in rules && |r.matches| == 1 && IsRootExact(r.matches[0]) && r.matches[0].headers != []
    ensures SingleMatches(rules) && OneHeaderAtMost(rules) && (PlainRoot(rules) <==> !some)
  {
    forall q | 0 <= q < |rules| ensures RootShaped(rules[q], some) {}
    if some {
      var r :| r in rules && |r.matches| == 1 && IsRootExact(r.matches[0]) && r.matches[0].headers != [];
      var q :| 0 <= q < |rules| && rules[q] == r;
      assert rules[q].matches[0] in rules[q].matches;
    }
  }

  lemma {:induction false} HeaderCopyOfRoot(rules: seq<RouteRule>, sources: seq<seq<BackendSource>>)
    requires BaseRules(rules, sources) && Indexable(rules, sources) && AllFit(sources, |sources|)
    requires HeaderCanaryOnRoot(rules, sources)
    ensures exists r :: r in Final(rules, sources) && |r.matches| == 1 && IsRootExact(r.matches[0])
                        && r.matches[0].headers != []
  {
    var i :| 0 <= i < |rules| && RootHeaderCanary(rules[i], sources[i]);
    var h := CopyIsInFinal(rules, sources, i);
  }

  lemma {:induction false} FinalRootShape(rules: seq<RouteRule>, sources: seq<seq<BackendSource>>)
    requires BaseRules(rules, sources) && Indexable(rules, sources) && AllFit(sources, |sources|)
    ensures SingleMatches(Final(rules, sources)) && OneHeaderAtMost(Final(rules, sources))
    ensures PlainRoot(Final(rules, sources)) <==> !HeaderCanaryOnRoot(rules, sources)
  {
    forall r | r in Final(rules, sources) ensures RootShaped(r, HeaderCanaryOnRoot(rules, sources)) {
      FinalShapeAt(rules, sources, r);
    }
    if HeaderCanaryOnRoot(rules, sources) {
      HeaderCopyOfRoot(rules, sources);
    }
    RootShape(Final(rules, sources), HeaderCanaryOnRoot(rules, sources));
  }

  /** For a converted route after an error-free canary expansion: every request for `/` meets the app-root redirect iff
      no source of a rule for exactly `/` is a canary with a header annotation. */
  lemma {:induction false} RedirectMeetsRootIff(rules: seq<RouteRule>, sources: seq<seq<BackendSource>>, target: nat)
    requires BaseRules(rules, sources) && rules != [] && Indexable(rules, sources)
    requires Expand(rules, sources, |sources|).errors == [] && IsTarget(Final(rules, sources), target)
    ensures TargetServesRoot(Final(rules, sources), target) <==> !HeaderCanaryOnRoot(rules, sources)
  {
    ExpandErrorFree(rules, sources, |sources|);
    assert ErrorFree(rules, sources, |sources|);
    FinalRootShape(rules, sources);
    TargetServesRootIff(Final(rules, sources), target);
  }

  /** The header copy of a canary rule for exactly `/` comes first, so it is taken for the target: a request for `/`
      without headers is served by the rule itself, two places further on, which has no redirect. */
  lemma {:induction false} HeaderCanaryTakesTarget(rule: RouteRule, canary: BackendSource, stable: BackendSource,
          target: nat)
    requires rule.name.Some? && rule.matches == [RouteMatch(PathMatch(Exact, "/"), [])] && |rule.backendRefs| == 2
    requires canary.ingress.Some? && stable.ingress.Some?
    requires canary.ingress.value.annotations == map[CanaryKey := "true", CanaryHeaderKey := "X-Canary"]
    requires stable.ingress.value.annotations == map[]
    requires Indexable([rule], [[canary, stable]]) && IsTarget(Final([rule], [[canary, stable]]), target)
    ensures var final := Final([rule], [[canary, stable]]);
            && target == 0 && |final| == 3 && final[0].name == Some(rule.name.value + "-canary-header-always")
            && final[2] == rule && WithTarget(final, target) == final
            && !IsWinner(final, Request("/", map[]), target) && IsWinner(final, Request("/", map[]), 2)
  {
    HeaderCanaryShifts(rule, canary, stable);
    var always := HeaderRule(rule, "-canary-header-always", "X-Canary", "always", rule.backendRefs[0]);
    var never := HeaderRule(rule, "-canary-header-never", "X-Canary", "never", rule.backendRefs[1]);
    assert always.matches[0] in always.matches && IsRootExact(always.matches[0]);
    assert HasRootExact(Final([rule], [[canary, stable]])[0]);
    ThirdServesRoot(always, never, rule, Request("/", map[]));
  }

  lemma {:induction false} ThirdServesRoot(a: RouteRule, b: RouteRule, c: RouteRule, req: Request)
    requires |a.matches| == 1 && |a.matches[0].headers| == 1 && |b.matches| == 1 && |b.matches[0].headers| == 1
    requires |c.matches| == 1 && c.matches[0].headers == [] && PathMatches(c.matches[0].path, req.path)
    requires req.headers == map[]
    ensures !IsWinner([a, b, c], req, 0) && IsWinner([a, b, c], req, 2)
  {
    assert !HeaderMatches(a.matches[0].headers[0], req) && !HeaderMatches(b.matches[0].headers[0], req);
    var own := c.matches[0];
    assert own in c.matches && Matches(own, req);
    assert IsBest([a, b, c], req, 2, own);
  }
}
