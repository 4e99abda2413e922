/** The Kubernetes and Gateway API values that pass through the converter, cut down to the fields it reads or writes. */
module Kube {
  import opened Text
  import opened Names

  datatype NamespacedName = NN(namespace: string, name: string)

  // ---- Ingress ----

  datatype ServicePort = ServicePort(name: string, number: int)
  datatype IngressBackend =
    | ServiceBackend(service: string, port: ServicePort)
    | ResourceBackend(apiGroup: Option<string>, kind: string, resource: string)

  /** A missing path type is an error the converter reports; a present one is one of the three Kubernetes defines. */
  datatype IngressPath = IngressPath(path: string, pathType: Option<PathType>, backend: IngressBackend)
  datatype IngressRule = IngressRule(host: string, paths: seq<IngressPath>)
  datatype IngressTLS = IngressTLS(hosts: seq<string>, secretName: string)

  /** The annotation keys the modelled code reads. */
  datatype AnnotationKey =
    | ClassKey             // kubernetes.io/ingress.class
    | CanaryKey            // nginx.ingress.kubernetes.io/canary
    | CanaryWeightKey      // nginx.ingress.kubernetes.io/canary-weight
    | CanaryWeightTotalKey // nginx.ingress.kubernetes.io/canary-weight-total
    | CanaryHeaderKey      // nginx.ingress.kubernetes.io/canary-by-header
    | CanaryHeaderValueKey // nginx.ingress.kubernetes.io/canary-by-header-value
    | SslPassthroughKey    // nginx.ingress.kubernetes.io/ssl-passthrough

  datatype Ingress = Ingress(
    namespace: string,
    name: string,
    annotations: map<AnnotationKey, string>,
    className: Option<string>,
    tls: seq<IngressTLS>,
    rules: seq<IngressRule>,
    defaultBackend: Option<IngressBackend>)

  /** GetIngressClass */
  function IngressClass(ing: Ingress): string {
    if ing.className.Some? && ing.className.value != "" then ing.className.value
    else Annotation(ing, ClassKey)
  }

  /** A map lookup in Go gives the empty string for a missing key. */
  function Annotation(ing: Ingress, key: AnnotationKey): string {
    if key in ing.annotations then ing.annotations[key] else ""
  }

  type ServicePorts = map<NamespacedName, map<string, int>>

  // ---- Gateway API ----

  datatype MatchType = Exact | PathPrefix
  datatype PathMatch = PathMatch(typ: MatchType, value: string)
  datatype HeaderMatch = HeaderMatch(name: string, value: string)
  datatype RouteMatch = RouteMatch(path: PathMatch, headers: seq<HeaderMatch>)

  datatype BackendRef = BackendRef(
    group: Option<string>,
    kind: Option<string>,
    name: string,
    namespace: Option<string>,
    port: Option<int>,
    weight: Option<int>)

  datatype RouteRule = RouteRule(name: Option<string>, matches: seq<RouteMatch>, backendRefs: seq<BackendRef>)

  datatype HTTPRoute = HTTPRoute(
    nn: NamespacedName,
    parents: seq<string>,
    hostnames: seq<string>,
    rules: seq<RouteRule>)

  /** Where a backendRef came from: a path of an Ingress or its default backend. */
  datatype BackendSource = BackendSource(
    ingress: Option<Ingress>,
    path: Option<IngressPath>,
    defaultBackend: Option<IngressBackend>)

  datatype Protocol = HTTP | HTTPS | TLS
  datatype ListenerTLS = Terminate(certs: seq<string>) | Passthrough
  datatype RouteKind = RouteKind(group: string, kind: string)
  datatype AllowedRoutes = AllowedRoutes(namespacesFrom: string, kinds: seq<RouteKind>)
  datatype Listener = Listener(
    name: string,
    hostname: Option<string>,
    port: int,
    protocol: Protocol,
    tls: Option<ListenerTLS>,
    allowedRoutes: Option<AllowedRoutes>)

  datatype Gateway = Gateway(nn: NamespacedName, className: string, listeners: seq<Listener>)
}
