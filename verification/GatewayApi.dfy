/** The Gateway API objects the planner and the configuration generator read. */
module GatewayApi {
  import opened Text

  const GATEWAY_API_GROUP := "gateway.networking.k8s.io"

  datatype Protocol = HTTP | HTTPS | TLS | TCP | UDP

  datatype GroupKind = GroupKind(group: string, kind: string)

  datatype FromNamespaces = All | Same | Selector
  datatype Requirement = Requirement(key: string, operator: string, values: seq<string>)
  datatype LabelSelector = LabelSelector(matchLabels: Option<map<string, string>>, expressions: seq<Requirement>)
  datatype RouteNamespaces = RouteNamespaces(from: FromNamespaces, selector: Option<LabelSelector>)
  datatype AllowedRoutes = AllowedRoutes(namespaces: Option<RouteNamespaces>, kinds: seq<GroupKind>)

  datatype SecretRef = SecretRef(name: string, namespace: Option<string>)

  /** `certificateRefs` is None for a listener without a tls section. */
  datatype Listener = Listener(
    name: string, hostname: Option<string>, port: nat, protocol: Protocol,
    allowed: Option<AllowedRoutes>, certificateRefs: Option<seq<SecretRef>>)

  datatype Gateway = Gateway(namespace: Option<string>, listeners: seq<Listener>)

  datatype ParentRef = ParentRef(
    group: string, kind: string, namespace: Option<string>, name: string, section: Option<string>, port: Option<nat>)

  datatype BackendRef = BackendRef(
    group: string, kind: string, name: string, namespace: Option<string>, port: Option<nat>)

  datatype Condition = Condition(kind: string, status: string)
  datatype ParentStatus = ParentStatus(controller: string, conditions: seq<Condition>)

  datatype Meta = Meta(namespace: Option<string>, name: Option<string>)

  datatype PathType = ExactPath | PathPrefix | RegularExpression
  datatype PathMatch = PathMatch(kind: PathType, value: string)
  datatype HeaderMatch = HeaderMatch(name: string, value: string)
  datatype Method = GET | HEAD | POST | PUT | DELETE | CONNECT | OPTIONS | TRACE | PATCH
  datatype HttpMatch = HttpMatch(path: Option<PathMatch>, headers: seq<HeaderMatch>, method_: Option<Method>)

  /** `timeout` is the request timeout string, when the rule has one. */
  datatype HttpRule = HttpRule(matches: seq<HttpMatch>, backendRefs: seq<BackendRef>, timeout: Option<string>)

  datatype HttpRoute = HttpRoute(
    meta: Meta, parentRefs: seq<ParentRef>, hostnames: seq<string>, rules: seq<HttpRule>,
      status: Option<seq<ParentStatus>>)

  /** A TLSRoute or, with no hostnames, a TCPRoute; each rule is its list of backends. */
  datatype StreamRoute = StreamRoute(
    meta: Meta, parentRefs: seq<ParentRef>, hostnames: seq<string>, rules: seq<seq<BackendRef>>,
      status: Option<seq<ParentStatus>>)

  datatype GrantFrom = GrantFrom(group: string, kind: string, namespace: string)
  datatype GrantTo = GrantTo(group: string, kind: string, name: Option<string>)
  datatype ReferenceGrant = ReferenceGrant(namespace: Option<string>, from: seq<GrantFrom>, to: seq<GrantTo>)

  /** The store key of an object. */
  function ObjectKey(namespace: string, name: string): string { namespace + "/" + name }
}
