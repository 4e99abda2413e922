/** One rule group becomes one HTTPRoute: its paths are grouped by match, and every path yields one backendRef
    with its source. */
module Paths {
  import opened Text
  import opened Names
  import opened Kube
  import opened Collect
  import opened Grouping
  import opened Dedup
  import opened Resolution
  import opened IngressSpec

  datatype Result<+T, +E> = Ok(value: T) | Err(error: E)

  /** The conversion errors; the field paths the source attaches to them are left out. */
  datatype ConvError =
    | PathTypeRequired
    | ImplementationSpecificUnsupported
    | PortNotFound(service: string, portName: string)
    | BadGatewayKey(key: string)

  /** What a conversion reads besides the Ingresses: service ports, and the provider's own path translation. */
  datatype Env = Env(servicePorts: ServicePorts, implSpecific: Option<string -> PathMatch>)

  datatype SourcedPath = SourcedPath(ingress: Ingress, host: string, path: IngressPath)

  function PathsOfRule(r: SourcedRule): (ps: seq<SourcedPath>)
    ensures |ps| == |r.rule.paths|
    ensures forall i | 0 <= i < |ps| :: ps[i] == SourcedPath(r.ingress, r.rule.host, r.rule.paths[i])
  {
    seq(|r.rule.paths|, i requires 0 <= i < |r.rule.paths| => SourcedPath(r.ingress, r.rule.host, r.rule.paths[i]))
  }

  /** The flattened paths of a list of rules. */
  function PathsOf(rules: seq<SourcedRule>): seq<SourcedPath> {
    if rules == [] then [] else PathsOf(rules[..|rules| - 1]) + PathsOfRule(rules[|rules| - 1])
  }

  /** getPathMatchKey */
  function PathMatchKey(p: SourcedPath): string {
    (match p.path.pathType case None => "" case Some(t) => PathTypeName(t)) + "/" + p.path.path
  }

  /** Equal match keys mean equal path types and equal paths. */
  lemma {:induction false} PathMatchKeyIsExact(p: SourcedPath, q: SourcedPath)
    ensures PathMatchKey(p) == PathMatchKey(q) <==> p.path.pathType == q.path.pathType && p.path.path == q.path.path
  {
    var a := match p.path.pathType case None => "" case Some(t) => PathTypeName(t);
    var b := match q.path.pathType case None => "" case Some(t) => PathTypeName(t);
    assert '/' !in a && '/' !in b;
    if PathMatchKey(p) == PathMatchKey(q) {
      JoinIsInjective(a, p.path.path, b, q.path.path, '/');
      assert "Prefix"[0] != "Exact"[0] && "Exact"[0] != "ImplementationSpecific"[0];
      assert "Prefix"[0] != "ImplementationSpecific"[0];
    }
  }

  /** groupIngressPathsByMatchKey */
  method GroupIngressPathsByMatchKey(rules: seq<SourcedRule>)
    returns (keys: seq<string>, data: map<string, seq<SourcedPath>>)
    ensures keys == Firsts(PathsOf(rules), PathMatchKey)
    ensures data == map k | k in keys :: Select(PathsOf(rules), PathMatchKey, k)
  {
    keys, data := [], map[];
    ghost var seen: seq<SourcedPath> := [];
    for i := 0 to |rules|
      invariant seen == PathsOf(rules[..i])
      invariant GroupedSoFar(seen, keys, data)
    {
      ghost var before := seen;
      for j := 0 to |rules[i].rule.paths|
        invariant seen == before + PathsOfRule(rules[i])[..j]
        invariant GroupedSoFar(seen, keys, data)
      {
        var ip := SourcedPath(rules[i].ingress, rules[i].rule.host, rules[i].rule.paths[j]);
        var pmKey := PathMatchKey(ip);
        GroupOneMore(seen, ip, keys, data);
        if pmKey !in data {
          keys := keys + [pmKey];
          data := data[pmKey := [ip]];
        } else {
          data := data[pmKey := data[pmKey] + [ip]];
        }
        seen := seen + [ip];
        SeenOneMore(before, PathsOfRule(rules[i]), j, ip);
      }
      assert PathsOfRule(rules[i])[..|rules[i].rule.paths|] == PathsOfRule(rules[i]);
      assert rules[..i + 1][..i] == rules[..i];
    }
    assert rules[..|rules|] == rules;
  }

  lemma {:induction false} SeenOneMore(before: seq<SourcedPath>, paths: seq<SourcedPath>, j: nat, ip: SourcedPath)
    requires j < |paths| && paths[j] == ip
    ensures before + paths[..j] + [ip] == before + paths[..j + 1]
  {
  }

  ghost predicate GroupedSoFar(seen: seq<SourcedPath>, keys: seq<string>, data: map<string, seq<SourcedPath>>) {
    && keys == Firsts(seen, PathMatchKey)
    && data == map k | k in keys :: Select(seen, PathMatchKey, k)
  }

  lemma {:induction false} GroupOneMore(seen: seq<SourcedPath>, ip: SourcedPath, keys: seq<string>,
          data: map<string, seq<SourcedPath>>)
    requires GroupedSoFar(seen, keys, data)
    ensures var k := PathMatchKey(ip);
            if k in data then GroupedSoFar(seen + [ip], keys, data[k := data[k] + [ip]])
            else GroupedSoFar(seen + [ip], keys + [k], data[k := [ip]])
  {
    FirstsSnoc(seen, ip, PathMatchKey);
    forall j
      ensures Select(seen + [ip], PathMatchKey, j) ==
              if j == PathMatchKey(ip) then Select(seen, PathMatchKey, j) + [ip] else Select(seen, PathMatchKey, j)
    {
      SelectSnoc(seen, ip, PathMatchKey, j);
    }
    GroupsOfMore(seen, ip, seen + [ip], keys, data);
  }

  lemma {:induction false} GroupsOfMore(seen: seq<SourcedPath>, ip: SourcedPath, more: seq<SourcedPath>,
          keys: seq<string>, data: map<string, seq<SourcedPath>>)
    requires GroupedSoFar(seen, keys, data)
    requires Firsts(more, PathMatchKey) == if PathMatchKey(ip) in keys then keys else keys + [PathMatchKey(ip)]
    requires forall j ::
               Select(more, PathMatchKey, j) ==
               if j == PathMatchKey(ip) then Select(seen, PathMatchKey, j) + [ip] else Select(seen, PathMatchKey, j)
    ensures var k := PathMatchKey(ip);
            if k in data then GroupedSoFar(more, keys, data[k := data[k] + [ip]])
            else GroupedSoFar(more, keys + [k], data[k := [ip]])
  {
    var k := PathMatchKey(ip);
    if k in keys {
      GroupMapIs(more, keys, data[k := data[k] + [ip]]);
    } else {
      SelectAbsent(seen, PathMatchKey, k);
      GroupStarts(Select(seen, PathMatchKey, k), ip);
      GroupMapIs(more, keys + [k], data[k := [ip]]);
    }
  }

  lemma {:induction false} GroupStarts(none: seq<SourcedPath>, ip: SourcedPath)
    requires none == []
    ensures none + [ip] == [ip]
  {
  }

  lemma {:induction false} GroupMapIs(seen: seq<SourcedPath>, keys: seq<string>, data: map<string, seq<SourcedPath>>)
    requires keys == Firsts(seen, PathMatchKey) && (forall k :: k in data <==> k in keys)
    requires forall k | k in data :: data[k] == Select(seen, PathMatchKey, k)
    ensures GroupedSoFar(seen, keys, data)
  {
  }

  /** What the grouping is for: distinct keys in first-occurrence order, each group the stable filter of the flattened
      paths by (type, path), and the groups together a permutation of all paths. */
  lemma {:induction false} MatchGroups(rules: seq<SourcedRule>, p: SourcedPath)
    ensures var paths := PathsOf(rules);
            var keys := Firsts(paths, PathMatchKey);
            && Distinct(keys)
            && multiset(Gather(paths, PathMatchKey, keys)) == multiset(paths)
            && (p in paths ==> PathMatchKey(p) in keys)
            && forall q :: q in Select(paths, PathMatchKey, PathMatchKey(p)) <==>
                           q in paths && q.path.pathType == p.path.pathType && q.path.path == p.path.path
  {
    var paths := PathsOf(rules);
    FirstsFacts(paths, PathMatchKey);
    GroupsPartition(paths, PathMatchKey, Firsts(paths, PathMatchKey));
    SelectMembers(paths, PathMatchKey, PathMatchKey(p));
    forall q ensures PathMatchKey(q) == PathMatchKey(p) <==>
                     q.path.pathType == p.path.pathType && q.path.path == p.path.path {
      PathMatchKeyIsExact(q, p);
    }
  }

  // ---- translation of one path ----

  /** toHTTPRouteMatch */
  function ToRouteMatch(p: IngressPath, env: Env): Result<PathMatch, ConvError> {
    match p.pathType
    case None => Err(PathTypeRequired)
    case Some(PrefixPath) => Ok(PathMatch(PathPrefix, p.path))
    case Some(ExactPath) => Ok(PathMatch(Exact, p.path))
    case Some(ImplementationSpecificPath) =>
      if env.implSpecific.Some? then Ok(env.implSpecific.value(p.path)) else Err(ImplementationSpecificUnsupported)
  }

  /** implementationSpecificHTTPPathTypeMatch: the only translation a provider supplies. */
  const NGINX_PATHS: Option<string -> PathMatch> := Some((path: string) => PathMatch(PathPrefix, path))

  /** With it, two paths get one match exactly when they are equal and both, or neither, are of type Exact: Prefix and
      ImplementationSpecific become the same. */
  lemma {:induction false} NginxMatchesAgreeIff(p: IngressPath, q: IngressPath, env: Env)
    requires env.implSpecific == NGINX_PATHS
    ensures ToRouteMatch(p, env).Ok? <==> p.pathType.Some?
    ensures ToRouteMatch(p, env).Ok? && ToRouteMatch(q, env).Ok? ==>
              (ToRouteMatch(p, env) == ToRouteMatch(q, env) <==>
               p.path == q.path && (p.pathType == Some(ExactPath) <==> q.pathType == Some(ExactPath)))
  {
  }

  /** A translated match accepts what the path accepts and takes the same precedence. */
  lemma {:induction false} RouteMatchMeans(p: IngressPath, q: IngressPath, env: Env, path: string)
    ensures ToRouteMatch(p, env).Ok? <==> Understood(p, env.implSpecific)
    ensures ToRouteMatch(p, env).Ok? ==>
              (PathMatches(ToRouteMatch(p, env).value, path) <==> AcceptsPath(p, env.implSpecific, path))
    ensures ToRouteMatch(p, env).Ok? && ToRouteMatch(q, env).Ok? ==>
              (PathOutranks(ToRouteMatch(q, env).value, ToRouteMatch(p, env).value) <==>
               Precedes(q, p, env.implSpecific))
  {
    MatchMeans(p, env);
    MatchMeans(q, env);
    if Understood(p, env.implSpecific) {
      AskedMatchAccepts(p, env.implSpecific, path);
    }
  }

  lemma {:induction false} MatchMeans(p: IngressPath, env: Env)
    ensures ToRouteMatch(p, env).Ok? <==> Understood(p, env.implSpecific)
    ensures ToRouteMatch(p, env).Ok? ==> ToRouteMatch(p, env).value == MatchAsked(p, env.implSpecific)
  {
  }

  lemma {:induction false} AskedMatchAccepts(p: IngressPath, own: Option<string -> PathMatch>, path: string)
    requires Understood(p, own)
    ensures PathMatches(MatchAsked(p, own), path) <==> AcceptsPath(p, own, path)
  {
    BelowIff(PrefixBody(PathText(p, own)), path);
  }

  /** With the one translation a provider supplies: Prefix and ImplementationSpecific paths accept what lies below them,
      the path itself with or without its last slash included; an Exact path accepts itself and precedes all others. */
  lemma {:induction false} NginxPathMeans(p: IngressPath, q: IngressPath, env: Env, path: string)
    requires env.implSpecific == NGINX_PATHS && p.pathType.Some? && q.pathType.Some?
    ensures ToRouteMatch(p, env).Ok? && ToRouteMatch(q, env).Ok?
    ensures var m := ToRouteMatch(p, env).value;
            PathMatches(m, path) <==>
            if p.pathType == Some(ExactPath) then path == p.path
            else path == p.path || path + "/" == p.path || Below(p.path, path)
    ensures p.pathType == Some(ExactPath) && q.pathType != Some(ExactPath) ==>
              PathOutranks(ToRouteMatch(p, env).value, ToRouteMatch(q, env).value)
  {
    RouteMatchMeans(p, q, env, path);
    BelowIff(PrefixBody(p.path), path);
  }

  /** ToBackendRef */
  function ToBackendRef(namespace: string, ib: IngressBackend, ports: ServicePorts): Result<BackendRef, ConvError> {
    match ib
    case ServiceBackend(service, port) =>
      if port.name == "" then Ok(BackendRef(None, None, service, None, Some(port.number), None))
      else
        var key := NN(namespace, service);
        if key in ports && port.name in ports[key]
        then Ok(BackendRef(None, None, service, None, Some(ports[key][port.name]), None))
        else Err(PortNotFound(service, port.name))
    case ResourceBackend(apiGroup, kind, resource) =>
      Ok(BackendRef(apiGroup, Some(kind), resource, None, None, None))
  }

  /** The ref names the backend the Ingress names, and carries no weight. */
  lemma {:induction false} BackendRefMeans(namespace: string, ib: IngressBackend, ports: ServicePorts, k: RefKey)
    ensures ToBackendRef(namespace, ib, ports).Ok? <==> Resolvable(namespace, ib, ports)
    ensures ToBackendRef(namespace, ib, ports).Ok? ==>
              && ToBackendRef(namespace, ib, ports).value == RefAsked(namespace, ib, ports)
              && (RefersTo(ToBackendRef(namespace, ib, ports).value, k) <==> k == BackendAsked(namespace, ib, ports))
  {
  }

  /** The backendRefs of a group: one per path that resolves, in order. */
  function RefsOf(namespace: string, paths: seq<SourcedPath>, env: Env): seq<BackendRef> {
    if paths == [] then []
    else
      var ref := ToBackendRef(namespace, paths[|paths| - 1].path.backend, env.servicePorts);
      RefsOf(namespace, paths[..|paths| - 1], env) + (if ref.Ok? then [ref.value] else [])
  }

  function SourceOf(p: SourcedPath): BackendSource { BackendSource(Some(p.ingress), Some(p.path), None) }

  function SourcesOf(namespace: string, paths: seq<SourcedPath>, env: Env): seq<BackendSource> {
    if paths == [] then []
    else
      var p := paths[|paths| - 1];
      SourcesOf(namespace, paths[..|paths| - 1], env)
      + (if ToBackendRef(namespace, p.path.backend, env.servicePorts).Ok? then [SourceOf(p)] else [])
  }

  function RefErrors(namespace: string, paths: seq<SourcedPath>, env: Env): seq<ConvError> {
    if paths == [] then []
    else
      var ref := ToBackendRef(namespace, paths[|paths| - 1].path.backend, env.servicePorts);
      RefErrors(namespace, paths[..|paths| - 1], env) + (if ref.Err? then [ref.error] else [])
  }

  /** configureBackendRef */
  method ConfigureBackendRef(namespace: string, paths: seq<SourcedPath>, env: Env)
    returns (backendRefs: seq<BackendRef>, sources: seq<BackendSource>, errors: seq<ConvError>)
    ensures backendRefs == RefsOf(namespace, paths, env)
    ensures sources == SourcesOf(namespace, paths, env)
    ensures errors == RefErrors(namespace, paths, env)
  {
    backendRefs, sources, errors := [], [], [];
    for i := 0 to |paths|
      invariant backendRefs == RefsOf(namespace, paths[..i], env)
      invariant sources == SourcesOf(namespace, paths[..i], env)
      invariant errors == RefErrors(namespace, paths[..i], env)
    {
      assert paths[..i + 1][..i] == paths[..i];
      match ToBackendRef(namespace, paths[i].path.backend, env.servicePorts) {
        case Err(e) => errors := errors + [e];
        case Ok(ref) =>
          backendRefs := backendRefs + [ref];
          sources := sources + [SourceOf(paths[i])];
      }
    }
    assert paths[..|paths|] == paths;
  }

  // ---- the route of a group ----

  datatype Built = Built(rules: seq<RouteRule>, sources: seq<seq<BackendSource>>, errors: seq<ConvError>)

  ghost predicate NonEmptyGroups(groups: seq<seq<SourcedPath>>) { forall i | 0 <= i < |groups| :: groups[i] != [] }

  ghost function BuildRules(namespace: string, groups: seq<seq<SourcedPath>>, env: Env): Built
    requires NonEmptyGroups(groups)
  {
    if groups == [] then Built([], [], [])
    else
      var b := BuildRules(namespace, groups[..|groups| - 1], env);
      var g := groups[|groups| - 1];
      var m := ToRouteMatch(g[0].path, env);
      if m.Err? then b.(errors := b.errors + [m.error])
      else
        Built(b.rules + [RuleOf(namespace, g, |groups| - 1, m.value, env)],
              b.sources + [SourcesOf(namespace, g, env)],
              b.errors + RefErrors(namespace, g, env))
  }

  function RuleOf(namespace: string, g: seq<SourcedPath>, ruleIdx: nat, m: PathMatch, env: Env): RouteRule
    requires g != [] && ToRouteMatch(g[0].path, env).Ok?
  {
    RouteRule(Some(RuleName(g[0].path.pathType.value, g[0].path.path, ruleIdx)),
              [RouteMatch(m, [])],
              RefsOf(namespace, g, env))
  }

  ghost function MatchGroupsOf(rules: seq<SourcedRule>): (gs: seq<seq<SourcedPath>>)
    ensures NonEmptyGroups(gs) && |gs| == |Firsts(PathsOf(rules), PathMatchKey)|
    ensures forall i | 0 <= i < |gs| ::
              gs[i] == Select(PathsOf(rules), PathMatchKey, Firsts(PathsOf(rules), PathMatchKey)[i])
  {
    var paths := PathsOf(rules);
    var keys := Firsts(paths, PathMatchKey);
    KeyedGroupsNonEmpty(paths);
    seq(|keys|, i requires 0 <= i < |keys| => Select(paths, PathMatchKey, keys[i]))
  }

  lemma {:induction false} KeyedGroupsNonEmpty(paths: seq<SourcedPath>)
    ensures forall i | 0 <= i < |Firsts(paths, PathMatchKey)| ::
              Select(paths, PathMatchKey, Firsts(paths, PathMatchKey)[i]) != []
  {
    var keys := Firsts(paths, PathMatchKey);
    forall i | 0 <= i < |keys| ensures Select(paths, PathMatchKey, keys[i]) != [] {
      FirstsFacts(paths, PathMatchKey);
      SelectMembers(paths, PathMatchKey, keys[i]);
      assert keys[i] in keys;
      var j :| 0 <= j < |paths| && PathMatchKey(paths[j]) == keys[i];
      assert paths[j] in Select(paths, PathMatchKey, keys[i]);
    }
  }

  datatype RouteContext = RouteContext(route: HTTPRoute, sources: seq<seq<BackendSource>>)

  ghost function BuiltOf(rg: RuleGroup, env: Env): Built {
    BuildRules(rg.namespace, MatchGroupsOf(rg.rules), env)
  }

  ghost function RouteOf(rg: RuleGroup, env: Env): RouteContext {
    var b := BuiltOf(rg, env);
    RouteContext(
      HTTPRoute(NN(rg.namespace, RouteName(rg.name, rg.host)),
                if rg.ingressClass != "" then [rg.ingressClass] else [],
                if rg.host != "" then [rg.host] else [],
                b.rules),
      b.sources)
  }

  /** The body of the loop over match groups. */
  method AppendRule(namespace: string, paths: seq<SourcedPath>, ruleIdx: nat, env: Env,
          ghost groups: seq<seq<SourcedPath>>, rules: seq<RouteRule>, sources: seq<seq<BackendSource>>,
          errors: seq<ConvError>)
    returns (rules': seq<RouteRule>, sources': seq<seq<BackendSource>>, errors': seq<ConvError>)
    requires NonEmptyGroups(groups) && ruleIdx < |groups| && paths == groups[ruleIdx]
    requires Built(rules, sources, errors) == BuildRules(namespace, groups[..ruleIdx], env)
    ensures Built(rules', sources', errors') == BuildRules(namespace, groups[..ruleIdx + 1], env)
  {
    rules', sources', errors' := rules, sources, errors;
    assert groups[..ruleIdx + 1][..ruleIdx] == groups[..ruleIdx];
    var m := ToRouteMatch(paths[0].path, env);
    if m.Err? {
      errors' := errors + [m.error];
      return;
    }
    var ruleName := RuleName(paths[0].path.pathType.value, paths[0].path.path, ruleIdx);
    var backendRefs, refSources, errs := ConfigureBackendRef(namespace, paths, env);
    errors' := errors + errs;
    rules' := rules + [RouteRule(Some(ruleName), [RouteMatch(m.value, [])], backendRefs)];
    sources' := sources + [refSources];
  }

  /** toHTTPRoute */
  method ToHTTPRoute(rg: RuleGroup, env: Env) returns (ctx: RouteContext, errors: seq<ConvError>)
    ensures ctx == RouteOf(rg, env)
    ensures errors == BuiltOf(rg, env).errors
  {
    var keys, data := GroupIngressPathsByMatchKey(rg.rules);
    ghost var groups := MatchGroupsOf(rg.rules);
    var rules: seq<RouteRule> := [];
    var sources: seq<seq<BackendSource>> := [];
    errors := [];
    for ruleIdx := 0 to |keys|
      invariant Built(rules, sources, errors) == BuildRules(rg.namespace, groups[..ruleIdx], env)
    {
      assert data[keys[ruleIdx]] == groups[ruleIdx];
      rules, sources, errors :=
        AppendRule(rg.namespace, data[keys[ruleIdx]], ruleIdx, env, groups, rules, sources, errors);
    }
    assert groups[..|groups|] == groups;
    ctx := RouteContext(
      HTTPRoute(NN(rg.namespace, RouteName(rg.name, rg.host)),
                if rg.ingressClass != "" then [rg.ingressClass] else [],
                if rg.host != "" then [rg.host] else [],
                rules),
      sources);
  }

  // ---- alignment ----

  /** Source `s` is where `ref` came from, and `rule` carries the translation of its path. */
  ghost predicate SourceFits(namespace: string, s: BackendSource, ref: BackendRef, rule: RouteRule, env: Env) {
    && s.ingress.Some? && s.path.Some?
    && ToBackendRef(namespace, s.path.value.backend, env.servicePorts) == Ok(ref)
    && ToRouteMatch(s.path.value, env).Ok?
    && rule.matches == [RouteMatch(ToRouteMatch(s.path.value, env).value, [])]
  }

  ghost predicate Aligned(namespace: string, rules: seq<RouteRule>, sources: seq<seq<BackendSource>>, env: Env) {
    && |rules| == |sources|
    && forall i | 0 <= i < |rules| :: RuleAligned(namespace, rules[i], sources[i], env)
  }

  ghost predicate RuleAligned(namespace: string, rule: RouteRule, sources: seq<BackendSource>, env: Env) {
    && |sources| == |rule.backendRefs|
    && forall j | 0 <= j < |sources| :: SourceFits(namespace, sources[j], rule.backendRefs[j], rule, env)
  }

  lemma {:induction false} SameMatch(namespace: string, g: seq<SourcedPath>, rule: RouteRule, env: Env)
    requires forall i | 0 <= i < |g| :: ToRouteMatch(g[i].path, env).Ok? &&
                                        rule.matches == [RouteMatch(ToRouteMatch(g[i].path, env).value, [])]
    ensures RuleAligned(namespace, rule.(backendRefs := RefsOf(namespace, g, env)), SourcesOf(namespace, g, env), env)
  {
    if g != [] {
      SameMatch(namespace, g[..|g| - 1], rule, env);
    }
  }

  ghost predicate Uniform(g: seq<SourcedPath>) {
    forall i | 0 <= i < |g| :: g[i].path.pathType == g[0].path.pathType && g[i].path.path == g[0].path.path
  }

  lemma {:induction false} BuildRulesAligned(namespace: string, groups: seq<seq<SourcedPath>>, env: Env)
    requires NonEmptyGroups(groups) && forall i | 0 <= i < |groups| :: Uniform(groups[i])
    ensures var b := BuildRules(namespace, groups, env); Aligned(namespace, b.rules, b.sources, env)
  {
    if groups != [] {
      BuildRulesAligned(namespace, groups[..|groups| - 1], env);
      var g := groups[|groups| - 1];
      assert Uniform(g);
      var m := ToRouteMatch(g[0].path, env);
      if m.Ok? {
        forall i | 0 <= i < |g| ensures ToRouteMatch(g[i].path, env) == m {}
        SameMatch(namespace, g, RuleOf(namespace, g, |groups| - 1, m.value, env), env);
      }
    }
  }

  lemma {:induction false} GroupsAreUniform(rules: seq<SourcedRule>)
    ensures forall i | 0 <= i < |MatchGroupsOf(rules)| :: Uniform(MatchGroupsOf(rules)[i])
  {
    var gs: seq<seq<SourcedPath>> := MatchGroupsOf(rules);
    var paths := PathsOf(rules);
    var keys := Firsts(paths, PathMatchKey);
    forall i, j | 0 <= i < |gs| && 0 <= j < |gs[i]|
      ensures gs[i][j].path.pathType == gs[i][0].path.pathType && gs[i][j].path.path == gs[i][0].path.path
    {
      SelectMembers(paths, PathMatchKey, keys[i]);
      assert gs[i][j] in gs[i] && gs[i][0] in gs[i];
      PathMatchKeyIsExact(gs[i][j], gs[i][0]);
    }
  }

  /** RuleBackendSources[i][j] is always the source of Rules[i].BackendRefs[j], errors or not. */
  lemma {:induction false} RouteIsAligned(rg: RuleGroup, env: Env)
    ensures var ctx := RouteOf(rg, env); Aligned(rg.namespace, ctx.route.rules, ctx.sources, env)
  {
    GroupsAreUniform(rg.rules);
    BuildRulesAligned(rg.namespace, MatchGroupsOf(rg.rules), env);
  }
}
