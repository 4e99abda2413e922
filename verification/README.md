# Verification model of ingress2eg

ingress2eg translates Kubernetes Ingresses, with their nginx annotations, into Gateway API and Envoy Gateway
resources. This project models the middle of that pipeline in Dafny and proves that it keeps the meaning of its input,
or states exactly when it does.

| stage | file | main results |
|---|---|---|
| what an Ingress asks for | `IngressSpec.dfy` | `DecimalWeightShare`, and the terms of the other results |
| storage and grouping | `Grouping.dfy`, `Collect.dfy`, `Sorting.dfy` | `GroupsDeterministic`, `ListingsAgree` |
| paths and routes | `Paths.dfy` | `MatchGroups`, `RouteIsAligned` |
| `ToIR` | `Converter.dfy`, `Tally.dfy`, `Translation.dfy`, `Correctness.dfy`, `Determinism.dfy`, `Pipeline.dfy` | `TranslationCompleteIff`, `ConversionDeterministic` |
| Gateways and listeners | `Determinism.dfy`, `Listeners.dfy` | `GatewayFitsGroup`, `HttpsListenerIff`, `ListenerNamesUniqueIff`, `DefaultParentIff` |
| canary expansion | `Canary.dfy`, `CanaryRuns.dfy` | `ExpandErrorFree`, `PlainIndexAligned`, `FeatureRunsIff` |
| app-root redirect | `AppRoot.dfy` | `TargetServesRootIff`, `RedirectMeetsRootIff` |
| de-duplication and sorting | `Dedup.dfy`, `Emission.dfy`, `Stability.dfy` | `DedupKeepsWeightIff`, `RouteOutputStableIff` |
| request resolution | `Resolution.dfy`, `CanaryRouting.dfy` | `CanaryRoutingMeaning`, `CanaryRoutingTotal`, `RouteDedupKeepsShares` |
| Ingresses to served requests | `EndToEnd.dfy`, `Coverage.dfy` | `RequestsServedAsAsked`, `EveryPathServedIff` |
| features and their merge | `Features.dfy` | `EqualsMeaning`, `MergeOnRuleIndices` |
| BackendTLS indirection | `BackendTls.dfy`, `BackendTlsRun.dfy`, `BackendTlsPass.dfy`, `BackendTlsInputs.dfy`, `BackendTlsEmitter.dfy` | `EmitBackendTLS`, `IndirectionKeepsEndpointsIff`, `BackendNamesCoincideIff` |
| traffic policy table | `Policies.dfy` | `PolicyDiscipline`, `PolicyEmitter.Emit` |
| TLS passthrough | `Passthrough.dfy`, `PassthroughFeature.dfy`, `PassthroughListeners.dfy` | `RunInvariant`, `SslPassthrough`, `HttpsStaysIff`, `OwnListenerIff` |
| names and text | `Text.dfy`, `Names.dfy`, `Rewrite.dfy` | `ConversionKeepsMeaningIff`, `NameFromHostIdempotent` |

`Kube.dfy` holds the Ingress and Gateway API values, cut down to the fields this code reads or writes.

## How the source is modelled

- `IngressSpec.dfy` says what an Ingress asks for in terms of its own fields, annotation texts and request texts, without
  the functions that model the code: which requests a path accepts and which path precedes another, which backend it
  names, how a canary shares a request's traffic, and which class counts. The main results are stated in these terms.
- Code that updates state is a method or a class: the aggregator, `OrderedIngressMap`, the route contexts, the Gateway
  table, the Backend and policy tables with their shared objects. Each is proved against a function or predicate of its
  inputs; the properties are lemmas about that specification.
- A Go map range is a loop over a set that takes an arbitrary element each time, so results hold for every iteration
  order. `sort.Slice` is any permutation in which no element is smaller than an earlier one (`Sorting.IsSort`).
- Every induction is written out: the lemmas carry `{:induction false}`, so none rests on automatic induction.
- `fmt`'s `%d`, `strconv.ParseInt` with 32 bits, `strings.Split`, and each fixed regular expression are small explicit
  scanners. int32 addition wraps around (`Dedup.Wrap`).
- Rule precedence is the one the Gateway API v1 specification gives for the `matches` field of `HTTPRouteRule`: Exact,
  then the longest path, then the most header matches, then list order. A missing backendRef weight counts as 1.
- A route whose refs or rules the source would index out of range, a nil rule `HTTP` and an unknown path type make the
  program panic; these are preconditions (`Canary.Indexable`, `BackendTls.Fits`) or ruled out by the types. So does a
  Backend made for a reference without a port; `BackendTls.Safe` says that no request of a run makes one. So does a
  passthrough route of an Ingress without a class (`PassthroughListeners.ParentsGivenIff`). The feature
  merge dereferences nil for an empty entry on a context without rules or listeners; its contract excludes that case.

## Where the code and its words differ

The model follows the code. In each case a lemma gives the exact condition.

- Route names are not unique: hosts `a.b` and `a-b` of one Ingress give one name, and a path is lost
  (`Pipeline.CollisionLosesRoute`, `Pipeline.TranslationCompleteIff`).
- "A valid DNS label name" (`pkg/i2gw/providers/common/utils.go:112`) fails for paths such as `/-` or `/*` and for long ones
  (`Names.RuleNameIsDnsLabel`, `Names.SymbolPathsGiveNoLabel`).
- "Stable output" of the sorting (`pkg/i2gw/emitters/envoygateway/envoygateway.go:107`,
  `pkg/i2gw/emitters/envoygateway/envoygateway.go:182`) fails for a rule with two backends of one namespace and name,
  such as a canary and an ordinary Ingress on two ports of one service (`Stability.RouteOutputStableIff`,
  `Stability.TwoPortsUnstable`).
- "At most one non-canary backend is allowed per rule when using canary" is also enforced without any canary
  (`Canary.ExpandErrorFree`, `Canary.TwoStableBackendsFail`).
- A canary with only a header leaves both backends unweighted in the fall-through rule, so half of the undecided requests
  reach the canary (`CanaryRouting.HeaderOnlyCanaryLeaks`).
- The de-duplication key has a namespace that is never filled in. Every backend keeps its share of the traffic; only the
  total weight drops, from two to one, when canary and ordinary backend are one and unweighted
  (`CanaryRouting.RouteDedupKeepsShares`).
- A listener is made per rule group but applies per hostname: a hostname gets an HTTPS listener iff some TLS group of
  the Gateway wants it, and listener names repeat when two groups want hostnames of one sanitised form
  (`Listeners.HttpsListenerIff`, `Listeners.ListenerNamesUniqueIff`, `Listeners.TlsHostMeetsPlainHost`).
- A default-backend route names a Gateway that exists only if some rule group has its namespace and class
  (`Listeners.DefaultParentIff`).
- Backend names leave out the port, so two ports of one service share one Backend; merging per-rule entries into one
  for the route can turn a correct translation into a wrong one (`BackendTls.MergedEntryLosesPort`). All routes share
  one table, and names of two routes can be one: Ingress `web` with hosts `a` and `a-0`
  (`BackendTlsRun.BackendNamesCoincideIff`, `BackendTlsRun.RoutesCanCollide`).
- `canaryFeature` runs first and later parsers count rules from the sources. Under a header canary every such index meets
  a rule of another name, so a feature that a later parser stores under index i applies to a different rule than the one
  it was read for (`Canary.PlainIndexAligned`, `Canary.HeaderCanaryShifts`).
- The app-root redirect is for requests to `/`. It meets all of them iff no source of a rule for exactly `/` is a canary
  with a header annotation; otherwise the header copy of that rule takes it (`AppRoot.RedirectMeetsRootIff`,
  `AppRoot.HeaderCanaryTakesTarget`).
- `canaryFeature` expands a route once for every rule group with its name. When two groups share a name, as `a.b` and
  `a-b` of one Ingress do, and the route has a header canary, the second run indexes out of range
  (`CanaryRuns.ExpandedOnceIff`, `CanaryRuns.FeatureRunsIff`).
- Two paths of a host can translate to matches of which one takes everything: a Prefix path beside an
  ImplementationSpecific one of the same value, or `/foo` beside `/foo/`. Every rule serves some request iff there are
  no such two; of two rules with one match the one whose name sorts first takes all (`Coverage.EveryPathServedIff`,
  `Coverage.FirstNameTakesAll`).
- The passthrough "replaces any existing HTTPS listener" (`pkg/i2gw/providers/ingressnginx/ssl-passthrough.go:140`) for
  the route's host. A passthrough group for all hosts whose listener is for its one TLS host keeps that listener, and a
  passthrough route takes the listener of any other TLS group that wanted its host
  (`PassthroughListeners.HttpsStaysIff`, `PassthroughListeners.OwnListenerIff`,
  `PassthroughListeners.PassthroughTakesListener`).
- The rewrite-target conversion leaves backslashes alone, which Envoy reads as escapes
  (`Rewrite.ConversionKeepsMeaningIff`).
- TLS listener names are sanitised host names, so two hostnames can share one (`Passthrough.NamesIdentifyListenersIff`).

## Model

| member | source | states |
|---|---|---|
| Grouping.OrderedIngressMap.FromMap | pkg/i2gw/providers/ingressnginx/storage.go:54-64 | the stored objects are the given map; the names are its keys in some order sorted by name alone |
| Grouping.OrderedIngressMap.List | pkg/i2gw/providers/ingressnginx/storage.go:46-52 | the stored Ingresses in the order of the names |
| Grouping.ListingsAgree | pkg/i2gw/providers/ingressnginx/storage.go:46-64 | any two orders the name sort allows list the same Ingresses in the same order inside every namespace |
| Grouping.IngressAggregator.AddIngressRule | pkg/i2gw/providers/common/converter.go:185-204 | after any run of calls the rule groups are those of the rules added, each carrying the identity of its first rule and the TLS entries and rules of all its members in order |
| Grouping.IngressAggregator.AddIngress | pkg/i2gw/providers/common/converter.go:169-183 | adds the Ingress's rules in order, and its default backend if it has one |
| Grouping.IngressAggregator.AddAll | pkg/i2gw/providers/common/converter.go:42-50 | a fresh aggregator ends with the groups of all rules and all default backends, in reading order |
| Grouping.GetRuleGroups | pkg/i2gw/providers/common/utils.go:61-92 | the separate grouping the feature parsers use equals the aggregator's: same keys, names, hosts, TLS lists and rule lists |
| Grouping.KeyDetermines | pkg/i2gw/providers/common/converter.go:185-190 | equal group keys mean equal namespace, class and host when namespaces and classes hold no slash |
| Grouping.GroupsDeterministic | pkg/i2gw/providers/common/converter.go:185-204 | two input orders that agree inside every namespace give equal rule groups |
| Paths.PathMatchKeyIsExact | pkg/i2gw/providers/common/converter.go:431-437 | match keys are equal iff path type and path are |
| Paths.GroupIngressPathsByMatchKey | pkg/i2gw/providers/common/utils.go:185-209 | the keys are the first occurrences in order; the map holds, for exactly those keys, the stable filter of the flattened paths |
| Paths.MatchGroups | pkg/i2gw/providers/common/utils.go:185-209 | keys are distinct, every path is in the group of its type and path and in no other, and the groups together are a permutation of all paths |
| Collect.FirstsOrder | pkg/i2gw/providers/common/utils.go:192-207 | keys stand in the order of their first occurrences |
| Paths.NginxMatchesAgreeIff | pkg/i2gw/providers/ingressnginx/implementation_specific.go:7-12 | two paths translate to one match iff they are equal and both or neither are Exact; a path fails iff it has no type |
| Paths.RouteMatchMeans | pkg/i2gw/providers/common/converter.go:439-471 | a path translates iff it has a type the provider understands; its match then accepts a request iff the path does, Exact as itself and Prefix element by element below it up to one trailing slash, and takes precedence as the path does |
| Paths.NginxPathMeans | pkg/i2gw/providers/ingressnginx/implementation_specific.go:7-12 | with the nginx translation: Prefix and ImplementationSpecific paths accept themselves, themselves without the last slash, and what lies below them; an Exact path accepts itself only and precedes all others |
| Paths.BackendRefMeans | pkg/i2gw/providers/common/utils.go:147-178 | an Ingress backend resolves iff it is an object, has a port number, or has a known port name; the ref then names that service and port, or that object with its group and kind, and carries no weight |
| Paths.ConfigureBackendRef | pkg/i2gw/providers/common/converter.go:407-429 | one backendRef and one source per path that resolves, in order, and one error for each other path |
| Paths.ToHTTPRoute | pkg/i2gw/providers/common/converter.go:348-405 | the route of a group, its sources and its errors, as a function of the group; what its matches and refs mean is `RouteMatchMeans` and `BackendRefMeans` |
| Paths.RouteIsAligned | pkg/i2gw/providers/common/converter.go:374-429 | source (i, j) is always the path that backendRef j of rule i came from, with its match, and all lengths agree, errors or not |
| EndToEnd.RulesNamed | pkg/i2gw/providers/common/converter.go:374-401 | the rules of a converted route are named after the type and path of their paths and numbered in order |
| Converter.GroupsToRoutes | pkg/i2gw/providers/common/converter.go:216-250 | routes and errors of the groups in key order, and the listeners each Gateway key wants |
| Converter.DefaultsToRoutes | pkg/i2gw/providers/common/converter.go:252-293 | one route per default backend, empty with an error if its port does not resolve |
| Converter.ToGateways | pkg/i2gw/providers/common/converter.go:295-343 | in any map order: one Gateway per key that splits into two parts, an error iff some key does not |
| Converter.MakeGateway | pkg/i2gw/providers/common/converter.go:296-338 | a Gateway with the key's namespace and class and its listeners in order, or nothing for a key that does not split |
| Converter.ToIR | pkg/i2gw/providers/common/converter.go:41-86 | succeeds iff no group, default backend or Gateway key fails; then the routes and Gateways are those of the groups, each under its own name; otherwise the errors begin with those of groups and default backends |
| Correctness.ConversionSucceedsIff | pkg/i2gw/providers/common/converter.go:41-86 | with slash-free namespaces and classes, conversion succeeds iff every path is understood and names a backend that resolves, and every default backend resolves |
| Translation.GroupTranslation | pkg/i2gw/providers/common/converter.go:348-429 | a group converts iff each of its paths is understood and names a backend that resolves; reading its route back then gives exactly the namespace, class, host, match, backend and source each path asks for, as a multiset |
| Translation.MapAgainstList | pkg/i2gw/providers/common/converter.go:60-67 | the emitted map says no more than the built routes, and as much iff no route with backends is overwritten |
| Correctness.TranslationCorrect | pkg/i2gw/providers/common/converter.go:41-86 | read back as a multiset of namespace, class, host, match, backend and source, the emitted routes never say more than the Ingresses ask for |
| Pipeline.TranslationCompleteIff | pkg/i2gw/providers/common/converter.go:60-67 | they say exactly what is asked for iff no group with a path and no default backend shares its route name with a later one |
| Pipeline.CollisionLosesRoute | pkg/i2gw/providers/common/utils.go:94-110 | one Ingress with hosts `a.b` and `a-b` is not translated in full |
| Determinism.ConversionDeterministic | pkg/i2gw/providers/common/converter.go:41-86 | two input orders that agree inside every namespace fail together or give equal routes and Gateways |
| Determinism.StorageOrderIsIrrelevant | pkg/i2gw/providers/ingressnginx/storage.go:54-64 | whichever order the name sort picks, the conversion of the stored Ingresses is the same |
| Determinism.GatewayFitsGroup | pkg/i2gw/providers/common/converter.go:226-250 | a group's rules come from Ingresses of its namespace and class; its parent Gateway, named after and of that class, listens on port 80 over HTTP for the group's host, or for the only host of its only TLS entry, and on port 443 over HTTPS with the secrets of all its TLS entries in order if it has any; the listeners are called after the hostname |
| Determinism.ClassMeans | pkg/i2gw/providers/common/utils.go:33-45 | the class in the spec counts, and the annotation only if there is none or it is empty |
| Determinism.GroupMeans | pkg/i2gw/providers/common/converter.go:185-204 | a group holds exactly the rules of its namespace, class and host, is named after the first one's Ingress, and has the TLS entries of their Ingresses in reading order |
| Determinism.PathsMean | pkg/i2gw/providers/common/utils.go:185-209 | the paths read are exactly those of the Ingresses' rules, each with its Ingress and host |
| Determinism.ReadingOrder | pkg/i2gw/providers/common/converter.go:169-204 | the Ingresses' rules, the rules' paths and the TLS entries of the rules' Ingresses are read one after the other in order |
| Determinism.DefaultsMean | pkg/i2gw/providers/common/converter.go:169-183 | the default backends read are exactly those of the Ingresses, with their names, namespaces and classes |
| Determinism.WantedMeans | pkg/i2gw/providers/common/converter.go:226-245 | the listeners made of a group have the hostname, ports, protocols, secrets and names that its hosts and TLS entries ask for |
| Listeners.HttpsListenerIff | pkg/i2gw/providers/common/converter.go:226-250 | a Gateway has an HTTPS listener for a group's hostname iff some group with TLS, of the same namespace and class, wants that hostname |
| Listeners.ListenerNamesUniqueIff | pkg/i2gw/providers/common/converter.go:316-336 | the listener names of a Gateway are distinct iff no two groups of its namespace and class want hostnames of one sanitised form |
| Listeners.TlsHostMeetsPlainHost | pkg/i2gw/providers/common/converter.go:226-236 | a group for all hosts with one TLS host `x` beside a group for `x` without TLS: `x` has an HTTPS listener, and two listeners share a name |
| Listeners.DefaultParentIff | pkg/i2gw/providers/common/converter.go:252-269 | the Gateway a default-backend route names exists iff some rule group has its namespace and class |
| Determinism.GatewayListenerCount | pkg/i2gw/providers/common/converter.go:295-338 | a Gateway has one HTTP listener per group of its key, one HTTPS listener per group with TLS, and no other |
| Determinism.EveryGroupFindsItsRoute | pkg/i2gw/providers/common/utils.go:61-92 | after a successful conversion every group of `GetRuleGroups` finds a route under its name |
| Canary.ParseInt32OfDecimal | pkg/i2gw/providers/ingressnginx/canary.go:64-75 | every int32 parses back from its decimal form and nothing larger does |
| Canary.ParseInt32Iff | pkg/i2gw/providers/ingressnginx/canary.go:64-75 | a text parses to n iff it writes n in decimal, after zeros and a sign or not, and n fits an int32 |
| Canary.ParseCanaryConfig | pkg/i2gw/providers/ingressnginx/canary.go:55-98 | succeeds iff the annotation texts write a weight w and a total t with 0 <= w <= t and 0 < t in int32, 0 and 100 when absent; the result then holds w, t, the header name and its value; otherwise it names the first failing check |
| Canary.ConfigMeans | pkg/i2gw/providers/ingressnginx/canary.go:55-98 | the configuration of valid annotations says what their texts say |
| IngressSpec.DecimalWeightShare | pkg/i2gw/providers/ingressnginx/canary.go:62-86 | with `canary-weight` w in decimal and a total t, or none for 100, a request that no header decides gives the canary the share w/t |
| Canary.ScanFinds | pkg/i2gw/providers/ingressnginx/canary.go:140-182 | the scan reports no error iff there is at most one canary, its annotations are valid, and at most one other backend; then it finds both if present |
| Canary.CanaryRule | pkg/i2gw/providers/ingressnginx/canary.go:184-256 | the loop body yields the rule's header rules, the rule with split weights, and its errors |
| Canary.HTTPRouteContext.ApplyCanary | pkg/i2gw/providers/ingressnginx/canary.go:121-262 | for one group's route: the rules become all header rules in order followed by the updated rules; the errors are those of the expansion |
| Canary.ExpandErrorFree | pkg/i2gw/providers/ingressnginx/canary.go:124-193 | no error iff every source list has a rule, at most one valid canary and one other backend, and no canary alone |
| Canary.CanaryShift | pkg/i2gw/providers/ingressnginx/canary.go:259-262 | with n rules prepended, old rule i is rule n + i, unchanged except for weights |
| Canary.PlainIndexAligned | pkg/i2gw/providers/ingressnginx/canary.go:195-262 | after an error-free expansion every plain rule index meets its rule iff no source is a canary with a header annotation; if one is, every index meets a rule of another name |
| Canary.HeaderCanaryShifts | pkg/i2gw/providers/ingressnginx/canary.go:195-262 | one header canary beside an ordinary backend: the route becomes the `always` copy, the `never` copy and the rule itself, so index 0 meets a copy and the rule stands at index 2 |
| Canary.TwoStableBackendsFail | pkg/i2gw/providers/ingressnginx/canary.go:171-180 | two ordinary backends in one rule are an error although no source is a canary |
| CanaryRuns.CanaryFeature | pkg/i2gw/providers/ingressnginx/canary.go:100-279 | over all groups in any order: every route ends as after as many expansions as groups bear its name, other routes are left alone, and there is no error iff no expansion had one |
| CanaryRuns.ExpandedOnceIff | pkg/i2gw/providers/ingressnginx/canary.go:104-116 | every group's route is expanded once iff no two groups share a route name |
| CanaryRuns.SecondRunIff | pkg/i2gw/providers/ingressnginx/canary.go:184-262 | a converted route whose canaries fit can be expanded a second time without indexing out of range iff no source is a canary with a header annotation |
| CanaryRuns.RunsIff | pkg/i2gw/providers/ingressnginx/canary.go:104-262 | it can be expanded n times iff n is at most one or there is no header canary, and then ends as after one expansion, without error |
| CanaryRuns.FeatureRunsIff | pkg/i2gw/providers/ingressnginx/canary.go:104-262 | the feature runs to its end iff no route that two groups share has a header canary |
| CanaryRuns.FeatureLeaves | pkg/i2gw/providers/ingressnginx/canary.go:104-274 | and then every route that a group names ends as after one expansion, every other as it was, without error |
| Dedup.RemoveBackendRefsDuplicates | pkg/i2gw/emitters/utils/utils.go:38-77 | in any order: one ref per backend named, none lost; each differs from the first ref of its backend in the weight only, which is the wrapped sum of the backend's weights, or none if the first had none |
| Dedup.KeyMeans | pkg/i2gw/emitters/utils/utils.go:46-62 | two refs are merged iff name, port, group and kind are equal, where no port is 0, no group is the empty and the core group, and no kind is Service |
| Dedup.DedupMeans | pkg/i2gw/emitters/utils/utils.go:46-77 | after de-duplication no two refs name one backend, every backend named has a ref, and no other is there |
| Dedup.DedupKeyWeight | pkg/i2gw/emitters/utils/utils.go:64-70 | what a key weighs after de-duplication |
| Dedup.DedupKeepsWeightIff | pkg/i2gw/emitters/utils/utils.go:64-70 | for non-negative weights with sums in int32, a key keeps its weight iff it does not mix in unweighted refs |
| Dedup.DedupConserves | pkg/i2gw/emitters/utils/utils.go:38-77 | if no key mixes, each key and the whole rule keep their weight |
| Emission.EmittedRoute.RemoveDuplicates | pkg/i2gw/emitters/utils/utils.go:99-101 | every rule keeps its name and matches; its refs are de-duplicated |
| Emission.EmittedRoute.Sort | pkg/i2gw/emitters/envoygateway/envoygateway.go:118-157 | the rules are a sorted permutation, each with its refs in a sorted permutation |
| Emission.EmittedInOrder | pkg/i2gw/emitters/envoygateway/envoygateway.go:118-201 | in a sorted route unnamed rules come first, then canary header rules, then the others, each kind by ascending name; refs ascend by namespace and name |
| Emission.EmittedFrom | pkg/i2gw/emitters/envoygateway/envoygateway.go:118-157 | every emitted rule is a de-duplicated rule of the route and no rule is missing |
| Emission.RuleBeforeIsStrictWeak | pkg/i2gw/emitters/envoygateway/envoygateway.go:122-150 | the rule comparator is a strict weak order |
| Emission.HeaderRulesFirst | pkg/i2gw/emitters/envoygateway/envoygateway.go:137-146 | rules named as canary header rules come before all other named rules |
| Emission.HeaderNamesContain | pkg/i2gw/providers/ingressnginx/canary.go:195-235 | every header rule is named as one |
| Emission.ExpandedNamesDistinct | pkg/i2gw/providers/ingressnginx/canary.go:195-262 | rule names stay pairwise distinct through canary expansion |
| AppRoot.ProcessAppRoot | pkg/i2gw/providers/ingressnginx/redirect.go:184-242 | nothing without hostnames; otherwise the first rule that matches exactly `/`, or one appended if there is none and the route has rules, or index -1 without rules, gets a 302 redirect to the annotated path, kept or made, and nothing else changes |
| AppRoot.ConstructRedirectURL | pkg/i2gw/providers/ingressnginx/redirect.go:247-270 | scheme, hostname and path; empty without hostname |
| AppRoot.UrlMeans | pkg/i2gw/providers/ingressnginx/redirect.go:247-270 | the URL is `https://`, host and path iff a TLS entry of the Ingress lists the host, and `http://`, host and path otherwise |
| AppRoot.TargetServesRootIff | pkg/i2gw/providers/ingressnginx/redirect.go:194-227 | on any rules with one match each and at most one header per match: the rule that gets the redirect serves every request for `/` iff no exact match of `/` asks for a header |
| AppRoot.RedirectMeetsRootIff | pkg/i2gw/providers/ingressnginx/redirect.go:184-227 | after an error-free canary expansion of a converted route, every request for `/` meets the redirect iff no source of a rule for exactly `/` is a canary with a header annotation |
| AppRoot.HeaderCanaryTakesTarget | pkg/i2gw/providers/ingressnginx/redirect.go:194-206 | under a header canary for exactly `/` the redirect goes to the `always` copy at index 0, and a request for `/` without headers is served by the rule at index 2, which has none |
| AppRoot.AppRootNameDistinct | pkg/i2gw/providers/ingressnginx/redirect.go:209-227 | the appended rule keeps rule names distinct |
| Stability.RefOrderStableIff | pkg/i2gw/emitters/envoygateway/envoygateway.go:182-200 | a rule's emitted refs are the same for every map iteration and sort iff any two of its refs with different keys, each the first of its key, differ in namespace or name |
| Stability.RouteOutputStableIff | pkg/i2gw/emitters/envoygateway/envoygateway.go:107-156 | with distinct rule names, a route is emitted as one rule list, for every map iteration and sort, iff that holds for each of its rules |
| Stability.ExpandedOutputStableIff | pkg/i2gw/emitters/envoygateway/envoygateway.go:107-156 | the same for any converted route after canary expansion |
| Stability.TwoPortsUnstable | pkg/i2gw/emitters/envoygateway/envoygateway.go:182-200 | a canary and an ordinary Ingress on two ports of one service: no error, and a rule whose refs cannot be told apart |
| Resolution.PathsNeverTie | pkg/i2gw/emitters/envoygateway/envoygateway.go:118-157 | two different path matches that accept one path never tie in precedence |
| Resolution.WinnerExists | pkg/i2gw/emitters/envoygateway/envoygateway.go:118-157 | some rule serves a request iff some rule matches it |
| CanaryRouting.NoTies | pkg/i2gw/emitters/envoygateway/envoygateway.go:118-157 | no two expanded rules tie on a request, so reordering cannot change which one serves it |
| CanaryRouting.WeightedKeys | pkg/i2gw/providers/ingressnginx/canary.go:244-248 | after de-duplication the weights sum to canary-weight-total, with weight for the canary and the rest for the stable backend, even if both share a key |
| CanaryRouting.WinnerOrigin | pkg/i2gw/providers/ingressnginx/canary.go:195-262 | the emitted rule that serves a request comes from the converted rule that would have served it |
| CanaryRouting.CanaryRoutingMeaning | pkg/i2gw/providers/ingressnginx/canary.go:184-262 | after error-free expansion, de-duplication and sorting, in every order these allow, each request's traffic is split per backend name, port, group and kind as the annotation texts of the rule's sources say, exactly when the header decides the request, a weight is annotated, or both backends are the same |
| CanaryRouting.VerdictMeans | pkg/i2gw/providers/ingressnginx/canary.go:195-248 | the parsed configuration gives the canary the part the annotation texts give it: all on the header value, or on `always` without a value, none on `never`, else weight of total |
| CanaryRouting.SharedMatchRouting | pkg/i2gw/providers/ingressnginx/canary.go:184-262 | when rules of a converted route share a match: the rule that serves comes from a rule of highest precedence and splits the traffic as that one's annotations ask, under the same guard |
| CanaryRouting.CanaryRoutingTotal | pkg/i2gw/providers/ingressnginx/canary.go:195-262 | a request is served after expansion and emission iff it was before |
| CanaryRouting.HeaderOnlyCanaryLeaks | pkg/i2gw/providers/ingressnginx/canary.go:244-248 | without a weight annotation half of the undecided requests reach the canary, which was given none |
| CanaryRouting.RouteDedupKeepsShares | pkg/i2gw/emitters/utils/utils.go:38-77 | in every rule that an error-free expansion of a converted route leaves, de-duplication keeps each backend's share of the traffic; the total weight stays iff the rule does not name one backend twice without weights |
| CanaryRouting.PassesEmit | pkg/i2gw/emitters/utils/utils.go:96-103 | the two emission passes produce a rule list of the kind the routing theorems are about |
| CanaryRouting.EmitRoute | pkg/i2gw/emitters/envoygateway/envoygateway.go:32-46 | expansion, de-duplication and sorting in sequence, on any converted route, yield a rule list the routing theorems are about, with no error iff every rule's canaries fit |
| CanaryRouting.ConvertedRouteQualifies | pkg/i2gw/providers/common/converter.go:374-401 | a route converted without error meets the premises of the routing theorems iff no two of its rules have one match |
| EndToEnd.RequestsServedAsAsked | pkg/i2gw/providers/common/converter.go:41-86 | for any Ingresses that convert with uncolliding route names, and any host on which every type and path has one ordinary Ingress path, or one ordinary and one valid canary path (`AllPathsFit`): the host's route is in the result under its Gateway; `canaryFeature` stays in range on it iff no other group bears its name or it has no header canary; and whatever rules the emission passes then yield, a request is served iff a path of the host accepts it, by a rule of a path of highest precedence, with its traffic split, per backend name, port, group and kind, as the annotation texts of the Ingresses with that type and path say, iff header, weight or the backends decide it; acceptance and precedence are those of the Ingress path types |
| Coverage.EveryRuleReachedIff | pkg/i2gw/emitters/envoygateway/envoygateway.go:118-156 | whatever rules the emission passes yield for a converted route, every rule of the expanded route, header copies included, serves some request iff no two rules overlap: equal paths, or prefixes up to one trailing slash |
| Coverage.EveryPathServedIff | pkg/i2gw/providers/ingressnginx/implementation_specific.go:7-12 | on a converted host: every emitted rule serves some request iff no two paths of different type or path translate to overlapping matches; and then no two translate to one match |
| Coverage.FirstNameTakesAll | pkg/i2gw/emitters/envoygateway/envoygateway.go:122-150 | of two emitted rules with one match the one that sorts first takes every request |
| Coverage.BestPathsAgree | pkg/i2gw/providers/common/converter.go:431-437 | the paths of highest precedence for a request have one type and path, unless two of different type translate to one match |
| Features.SortedCompare | pkg/i2gw/emitter_intermediate/iprange.go:15-33 | comparing sorted clones is comparing as multisets |
| Features.EqualIgnoreOrderMeaning | pkg/i2gw/emitter_intermediate/cors.go:23-70 | the order-insensitive comparison is multiset equality |
| Features.EqualsMeaning | pkg/i2gw/emitter_intermediate/cors.go:23-70 | for CORS, IP range, retry, rate limit, timeout and BackendTLS, `Equals` holds iff both features say the same: same kind, lists equal as multisets, scalars equal |
| Features.EqualsIsEquivalence | pkg/i2gw/emitter_intermediate/retry.go:15-31 | `Equals` is reflexive, symmetric and transitive |
| Features.MergeEntries | pkg/i2gw/emitter_intermediate/intermediate_representation.go:109-120 | in any map order: one entry for all, taken from the map, iff there are as many entries as rules and all are `Equals`; otherwise the map unchanged |
| Features.FeatureContext.MergeExtensionFeature | pkg/i2gw/emitter_intermediate/intermediate_representation.go:97-121 | merges the entries of one key and leaves all other keys alone |
| Features.MergePreservesIff | pkg/i2gw/emitter_intermediate/intermediate_representation.go:97-121 | every rule's effective feature is `Equals` to before iff the merge does nothing or every rule had one |
| Features.MergeOnRuleIndices | pkg/i2gw/emitter_intermediate/intermediate_representation.go:105-120 | for keys that are rule indices the merge takes place iff every rule has an entry and all are `Equals`, and always preserves effective features |
| Features.MergeOrderIrrelevant | pkg/i2gw/emitter_intermediate/intermediate_representation.go:109-120 | two iteration orders give results that agree up to `Equals` |
| Features.MergeIdempotent | pkg/i2gw/emitter_intermediate/intermediate_representation.go:97-121 | merging again changes nothing |
| BackendTlsEmitter.Backend.ConfigureTLS | pkg/i2gw/emitters/envoygateway/backendtls.go:140-159 | certificate and client certificate are replaced; SNI and the insecure flag only when set |
| BackendTlsEmitter.BackendTable.GetOrBuild | pkg/i2gw/emitters/envoygateway/builder.go:57-91 | returns the Backend of the name built from route, rule index and service, making one for the ref's endpoint only if the name is new |
| BackendTls.LeadsToIff | pkg/i2gw/emitters/envoygateway/builder.go:76-84 | a Backend is what a ref's request asks for iff it leads to the ref's service in the route's namespace, at the ref's port, with the certificate, client certificate, server name and insecure flag of the entry |
| BackendTls.ServiceHostParts | pkg/i2gw/emitters/envoygateway/builder.go:80 | for names without dots the host is the one that splits into service, namespace, `svc`, `cluster` and `local` |
| BackendTlsEmitter.BackendTable.ProcessRoute | pkg/i2gw/emitters/envoygateway/backendtls.go:80-108 | the targeted rules' refs name their Backends and keep their weights, order and count; other rules are unchanged; the table grows by the refs' requests in order |
| BackendTlsEmitter.BackendTable.EmitRoute | pkg/i2gw/emitters/envoygateway/backendtls.go:21-52 | merges a route's entries, processes each unparsed one once in any order, and marks all parsed |
| BackendTlsEmitter.BackendTable.EmitAll | pkg/i2gw/emitters/envoygateway/backendtls.go:19-52 | the routes in any order: one pass over each route with entries, no other route or entry changes, and the shared table grows by the requests of all passes in order |
| BackendTlsEmitter.BackendTable.EmitBackendTLS | pkg/i2gw/emitters/envoygateway/backendtls.go:18-78 | all HTTPRoutes, then all GRPCRoutes; every moved ref of every route reaches, in the final table, the service host and port it named before with its entry's settings, iff ports agree inside each entry and no two routes use one Backend name for different things; for entries not emitted before both are read off the given routes and entries |
| BackendTlsInputs.JobsAreWanted | pkg/i2gw/emitters/envoygateway/backendtls.go:21-52 | the entries a pass processes are the given ones, or one for all rules where they merge, whichever entry the merge kept |
| BackendTlsInputs.InputsFitIff | pkg/i2gw/emitters/envoygateway/backendtls.go:18-78 | over any run on HTTPRoutes and then GRPCRoutes, ports agree and routes are apart iff they do on the given routes and entries |
| BackendTls.FaithfulIff | pkg/i2gw/emitters/envoygateway/builder.go:57-91 | over a run on any routes and rules, every request ends with a Backend of its endpoint and exactly its settings iff no two requests share a name but differ |
| BackendTls.OrderIrrelevant | pkg/i2gw/emitters/envoygateway/builder.go:57-91 | without clashes the table is the same for every order of requests |
| BackendTls.KeyIsInjective | pkg/i2gw/emitters/envoygateway/builder.go:58-65 | within a route, Backend names of one form are equal iff rule index and service are |
| BackendTlsRun.IndirectionKeepsEndpointsIff | pkg/i2gw/emitters/envoygateway/backendtls.go:80-108 | over a run on any routes, in any order: following each moved ref through the final table leads to the service host and port it named before, with its entry's settings, iff refs to one service agree on the port inside each entry and no two routes use one Backend name for different services, ports or settings |
| BackendTlsRun.BackendNamesCoincideIff | pkg/i2gw/emitters/envoygateway/builder.go:58-65 | Backend names of two routes are equal iff the namespaces are and the longer name part runs into the other's service; for one service, iff one is for all rules of a route named like the other with a rule number |
| BackendTlsRun.PrefixFreeRoutesAreApart | pkg/i2gw/emitters/envoygateway/builder.go:58-65 | routes do not clash while no entry's name part is a prefix of another's in its namespace |
| BackendTls.MergedEntryLosesPort | pkg/i2gw/emitters/envoygateway/builder.go:57-65 | two rules on two ports of one service are faithful with an entry each and not with a merged one |
| BackendTlsRun.RoutesCanCollide | pkg/i2gw/emitters/envoygateway/builder.go:58-61 | routes `web-a` and `web-a-0`, of one Ingress with hosts `a` and `a-0`, share a Backend name; with one service on two ports an endpoint is lost |
| BackendTlsPass.ParsedPassIsNoOp | pkg/i2gw/emitters/envoygateway/backendtls.go:25-27 | emitting parsed entries again changes nothing |
| Policies.Policy.AppendLimit | pkg/i2gw/emitters/envoygateway/ratelimit.go:31-62 | appends one limit rule, which counts each client address on its own, and touches no other field |
| Policies.Policy.SetConnectTimeout | pkg/i2gw/emitters/envoygateway/timeout.go:29-34 | sets the connect timeout and touches no other field |
| Policies.PolicyEmitter.GetOrBuild | pkg/i2gw/emitters/envoygateway/builder.go:173-211 | returns the policy of the name, making an empty one with the given target only if the name is new |
| Policies.PolicyEmitter.EmitEntry | pkg/i2gw/emitters/envoygateway/ratelimit.go:25-62 | one unparsed entry: the policy for its route and rule gets the entry's field, all other policies stay |
| Policies.PolicyEmitter.Emit | pkg/i2gw/emitters/envoygateway/ratelimit.go:15-75 | a pass in any order keeps the table equal to the log of parsed entries, each once; it changes only features of its kind, leaves them all parsed, and does nothing if they were |
| Policies.AimsIff | pkg/i2gw/emitters/envoygateway/ratelimit.go:25-29 | a target aims at an entry's rule iff it is the one the code builds: the route, with the name of the rule for an index in range, and no section for all rules or an index out of range |
| Policies.DisciplinedIff | pkg/i2gw/emitters/envoygateway/builder.go:173-211 | every emitted entry's policy aims at its route and rule and holds exactly one limit rule, which counts each client address on its own, or its timeout, iff no two places share a policy name |
| Policies.PolicyAppliesIff | pkg/i2gw/emitters/envoygateway/ratelimit.go:25-29 | in every reachable state without name collisions, on a route with distinct rule names: the policy of an entry applies to rule i iff the entry is for rule i or for all rules, and has no section iff it is for all |
| Policies.PolicyDiscipline | pkg/i2gw/emitters/envoygateway/builder.go:173-211 | so in every reachable state; and then the table has one policy per place with a parsed entry and no field that no entry asked for |
| Policies.PolicyNamesCoincideIff | pkg/i2gw/emitters/envoygateway/builder.go:174-181 | names of different places are equal iff one is for all rules of a route named like another route of the namespace with a rule number |
| Policies.NumberFreeNamesDoNotCollide | pkg/i2gw/emitters/envoygateway/builder.go:174-181 | if no route is named like another with a number, no two places share a policy name |
| Passthrough.GatewayTable.EnsureTLSListener | pkg/i2gw/providers/ingressnginx/ssl-passthrough.go:140-202 | an existing TLS listener for the hostname is returned, the first one, and nothing changes; otherwise the hostname's HTTPS listeners go and one TLS passthrough listener is appended, open to TLSRoutes of its namespace only; a missing Gateway gives the empty name |
| Passthrough.GatewayTable.EnsureAll | pkg/i2gw/providers/ingressnginx/ssl-passthrough.go:69-79 | a run of calls on one Gateway |
| Passthrough.RunInvariant | pkg/i2gw/providers/ingressnginx/ssl-passthrough.go:142-202 | over any run that starts without TLS listeners: no hostname has both HTTPS and TLS, each hostname passed has exactly one TLS listener and no other has any, other HTTPS listeners stay |
| Passthrough.RunOrder | pkg/i2gw/providers/ingressnginx/ssl-passthrough.go:155-172 | all other listeners keep their order |
| Passthrough.RunExact | pkg/i2gw/providers/ingressnginx/ssl-passthrough.go:155-202 | a run's result outright: all but the passed hostnames' HTTPS listeners, in order, then one TLS listener per hostname in order of first calls |
| Passthrough.RunOrderIrrelevant | pkg/i2gw/providers/ingressnginx/ssl-passthrough.go:28-79 | two runs over the same hostnames, in any order and with any repetitions, leave the same listeners up to the order of the TLS ones |
| Passthrough.RepeatIsNoOp | pkg/i2gw/providers/ingressnginx/ssl-passthrough.go:166-169 | repeating a call changes nothing |
| Passthrough.TlsListenersStayInRun | pkg/i2gw/providers/ingressnginx/ssl-passthrough.go:155-172 | a TLS listener, and so a returned name, survives any further run |
| Passthrough.TlsListenersHandThrough | pkg/i2gw/providers/ingressnginx/ssl-passthrough.go:174-196 | every TLS listener after a run is for a hostname passed, on port 443, in passthrough mode, open to TLSRoutes of its namespace only, and called after the hostname |
| Passthrough.NamesIdentifyListenersIff | pkg/i2gw/providers/ingressnginx/ssl-passthrough.go:149-152 | after a run the returned names tell TLS listeners apart iff no two hostnames passed have one sanitised form |
| Passthrough.ToTlsRules | pkg/i2gw/providers/ingressnginx/ssl-passthrough.go:97-138 | the TLS rules carry the HTTP rules' names and refs in order, without weights |
| Pipeline.PassthroughAfterConversion | pkg/i2gw/providers/ingressnginx/converter.go:61-80 | the Gateways of a conversion start without TLS listeners, so the passthrough invariant holds on them, and every TLS listener made hands its hostname through |
| PassthroughFeature.EmitterIR.MoveRoute | pkg/i2gw/providers/ingressnginx/ssl-passthrough.go:64-87 | one route becomes a TLSRoute with its name, parents, hosts and refs, attached to a TLS listener of its Gateway for its host, and leaves the HTTPRoutes; only that Gateway changes |
| PassthroughFeature.EmitterIR.SslPassthrough | pkg/i2gw/providers/ingressnginx/ssl-passthrough.go:23-95 | over all groups in any order: exactly the named routes with a passthrough source move; each Gateway is as after one call per moved route; every TLSRoute is attached to a TLS listener still there at the end, if its Gateway exists; the errors are for the source lists without a rule |
| PassthroughListeners.ParentsGivenIff | pkg/i2gw/providers/ingressnginx/ssl-passthrough.go:65-68 | no route without a parent is indexed iff every passthrough group has a class |
| PassthroughListeners.HttpsStaysIff | pkg/i2gw/providers/ingressnginx/ssl-passthrough.go:138-202 | the HTTPS listener a TLS group wanted is still there iff no passthrough group of its Gateway has the wanted hostname as its host; if one does, a TLS listener is |
| PassthroughListeners.OwnListenerIff | pkg/i2gw/providers/ingressnginx/ssl-passthrough.go:64-79 | a passthrough group with TLS keeps its own HTTPS listener iff it is for all hosts, its listener is for its one TLS host, and no passthrough group of the Gateway has that host |
| PassthroughListeners.PassthroughTakesListener | pkg/i2gw/providers/ingressnginx/ssl-passthrough.go:155-172 | a passthrough group for a hostname takes the HTTPS listener of a TLS group that keeps its HTTPRoute |
| Names.NameFromHostMeaning | pkg/i2gw/providers/common/utils.go:94-106 | the alphanumeric words of the host joined by dashes, with one trailing dash if the host ends in other characters; `all-hosts` for the empty host and `*` |
| Names.NameFromHostIdempotent | pkg/i2gw/providers/common/utils.go:94-106 | naming again changes nothing iff the first naming left something |
| Names.HostNamesCollide | pkg/i2gw/providers/common/utils.go:94-106 | `a.b` and `a-b` share a name |
| Names.SanitizePathMeaning | pkg/i2gw/providers/common/utils.go:130-137 | the path part is the path's alphanumeric words in lower case joined by single dashes |
| Names.SanitizePathCanonical | pkg/i2gw/providers/common/utils.go:130-141 | sanitising again is the identity, and the `path-` fallback is never taken |
| Names.RuleNameIsDnsLabel | pkg/i2gw/providers/common/utils.go:112-145 | a rule name is a DNS label iff index digits, path type and sanitised path, with the dash between the last two, are at most 57 characters and the path is empty, `/`, or has an alphanumeric character |
| Names.RuleNameReads | pkg/i2gw/providers/common/utils.go:112-145 | a rule name is `rule-`, the index, the path type in lower case and the sanitised path, `empty` or `root`, joined by dashes; `impl-specific` stands for type and path of an ImplementationSpecific one |
| Names.SymbolPathsGiveNoLabel | pkg/i2gw/providers/common/utils.go:130-145 | an Exact path `/-` and a Prefix path `/*` give names that are no DNS labels, under any index |
| Names.NumberIsUnique | pkg/i2gw/providers/common/utils.go:144 | the number in a rule name can be read back |
| Rewrite.ConvertIsPointwise | pkg/i2gw/emitters/envoygateway/rewrite.go:17-21 | the rewrite turns every dollar sign before a digit into a backslash and changes nothing else |
| Rewrite.ConvertInjective | pkg/i2gw/emitters/envoygateway/rewrite.go:17-21 | on text without backslashes the rewrite can be undone |
| Rewrite.ConversionKeepsMeaningIff | pkg/i2gw/emitters/envoygateway/rewrite.go:16-21 | the nginx template and its conversion expand alike for every capture assignment iff the template has no backslash |

## Left out

- Reading and printing resources, the cluster client, notifications and their texts, error field paths: I/O.
- `resource.MustParse`, `net/url`, deep copies and unstructured casts: library behaviour.
- Regular-expression path matches, URL rewrites, redirects and filters in request resolution; only path and header
  matches decide there, and a request carries one value per header.
- The remaining one-annotation parsers and emitters, which repeat the get-or-create loop with a field copy.
- `backendProtocolFeature`, the GRPCRoute variant of the merge and the sorting of GRPCRoutes, which repeat the HTTPRoute code.
- `BackendTlsEmitter.BackendTable.EmitBackendTLS`: GRPCRoutes are values of the HTTPRoute type, since only names and refs
  are touched; the condition on the inputs is for entries that no earlier emitter has marked as parsed.
- `EndToEnd.RequestsServedAsAsked`: other emitters, which run between de-duplication and sorting, are not part of it.
- `PassthroughListeners.HttpsStaysIff`: for conversions in which every group and default backend has a route name of its
  own, and routes whose names, parents and hosts no earlier feature has changed.
- `Policies.PolicyEmitter.Emit`: only the rate-limit and timeout writers of the table; buffer, retry and affinity, and the
  security and client-traffic tables, follow the same pattern.
- `Rewrite.ConversionKeepsMeaningIff`: both engines are taken to read single-digit references.
- Aliasing between the provider's and the emitter's representation, and between a route and its copy in the output.
- Annotation keys are an enumeration of the ones the modelled code reads.
- `MergeIRs`, which no modelled code calls.
