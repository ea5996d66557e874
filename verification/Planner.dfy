/** Which routes attach to which listeners of one Gateway, and why. */
module Planner {
  import opened Text
  import opened Names
  import opened GatewayApi

  datatype RouteKind = HTTPRoute | TCPRoute | TLSRoute

  function KindName(k: RouteKind): string {
    match k
    case HTTPRoute => "HTTPRoute"
    case TCPRoute => "TCPRoute"
    case TLSRoute => "TLSRoute"
  }

  /** What the evaluation uses of a route; `hostnames` is empty for a TCPRoute. */
  datatype Route = Route(
    kind: RouteKind, namespace: string, name: string, parentRefs: seq<ParentRef>,
    hostnames: seq<string>, backendRefs: seq<BackendRef>)

  datatype Snapshot = Snapshot(
    gateways: map<string, Gateway>, services: set<string>, grants: seq<ReferenceGrant>,
    namespaceLabels: map<string, map<string, string>>)

  datatype Status =
    | Attached
    | NoMatchingParent
    | NotAllowedByListenerProtocol
    | NotAllowedByListenerNamespacePolicy
    | NotAllowedByListenerKindPolicy
    | NoMatchingListenerHostname
    | RefNotPermitted(routeNamespace: string, targetNamespace: string, targetName: string)
    | BackendNotFound(routeNamespace: string, targetNamespace: string, targetName: string)
  {
    predicate IsAttached() { Attached? || RefNotPermitted? || BackendNotFound? }
  }

  datatype RouteResult = RouteResult(
    namespace: string, name: string, kind: RouteKind, listener: Option<string>,
    section: Option<string>, port: Option<nat>, status: Status, generation: int)

  // ---------- Reading routes ----------

  function FlattenRules(rules: seq<seq<BackendRef>>): (r: seq<BackendRef>)
    ensures forall b :: b in r <==> exists k :: 0 <= k < |rules| && b in rules[k]
  {
    if rules == [] then []
    else
      assert rules == [rules[0]] + rules[1..];
      rules[0] + FlattenRules(rules[1..])
  }

  /** Rule by rule: the order of the references is kept. */
  lemma {:induction false} FlattenKeepsOrder(x: seq<seq<BackendRef>>, y: seq<BackendRef>)
    ensures FlattenRules(x + [y]) == FlattenRules(x) + y
  {
    if x == [] {
      assert [y][1..] == [] && x + [y] == [y];
    } else {
      FlattenKeepsOrder(x[1..], y);
      assert (x + [y])[1..] == x[1..] + [y];
    }
  }

  function OfHttp(r: HttpRoute): Route {
    Route(HTTPRoute, r.meta.namespace.Or("default"), r.meta.name.Or(""), r.parentRefs, r.hostnames,
          FlattenRules(seq(|r.rules|, i requires 0 <= i < |r.rules| => r.rules[i].backendRefs)))
  }

  function OfTcp(r: StreamRoute): Route {
    Route(TCPRoute, r.meta.namespace.Or("default"), r.meta.name.Or(""), r.parentRefs, [], FlattenRules(r.rules))
  }

  function OfTls(r: StreamRoute): Route {
    Route(TLSRoute, r.meta.namespace.Or("default"), r.meta.name.Or(""), r.parentRefs, r.hostnames,
      FlattenRules(r.rules))
  }

  /** What the evaluation of an HTTPRoute reads: defaults for missing metadata, all rules' references in order. */
  method ReadHttp(r: HttpRoute) returns (route: Route)
    ensures route == OfHttp(r)
  {
    var ns := match r.meta.namespace case Some(n) => n case None => "default";
    var name := match r.meta.name case Some(n) => n case None => "";
    var refs: seq<BackendRef> := [];
    ghost var rules := seq(|r.rules|, k requires 0 <= k < |r.rules| => r.rules[k].backendRefs);
    var i := 0;
    while i < |r.rules|
      invariant 0 <= i <= |r.rules| && refs == FlattenRules(rules[..i])
    {
      FlattenKeepsOrder(rules[..i], rules[i]);
      assert rules[..i + 1] == rules[..i] + [rules[i]];
      refs := refs + r.rules[i].backendRefs;
      i := i + 1;
    }
    assert rules[..|r.rules|] == rules;
    return Route(HTTPRoute, ns, name, r.parentRefs, r.hostnames, refs);
  }

  method FlattenRefs(rules: seq<seq<BackendRef>>) returns (refs: seq<BackendRef>)
    ensures refs == FlattenRules(rules)
  {
    refs := [];
    var i := 0;
    while i < |rules|
      invariant 0 <= i <= |rules| && refs == FlattenRules(rules[..i])
    {
      FlattenKeepsOrder(rules[..i], rules[i]);
      assert rules[..i + 1] == rules[..i] + [rules[i]];
      refs := refs + rules[i];
      i := i + 1;
    }
    assert rules[..|rules|] == rules;
  }

  /** A TCPRoute has no hostnames to compare. */
  method ReadStream(r: StreamRoute, kind: RouteKind) returns (route: Route)
    requires kind != HTTPRoute
    ensures route == if kind == TLSRoute then OfTls(r) else OfTcp(r)
  {
    var ns := match r.meta.namespace case Some(n) => n case None => "default";
    var name := match r.meta.name case Some(n) => n case None => "";
    var refs := FlattenRefs(r.rules);
    return Route(kind, ns, name, r.parentRefs, if kind.TLSRoute? then r.hostnames else [], refs);
  }

  // ---------- The individual checks ----------

  predicate Targets(routeNamespace: string, p: ParentRef, gwNamespace: string, gwName: string) {
    && (p.group == "" || p.group == GATEWAY_API_GROUP)
    && p.kind == "Gateway"
    && p.namespace.Or(routeNamespace) == gwNamespace
    && p.name == gwName
  }

  predicate ProtocolFits(k: RouteKind, p: Protocol) {
    match k
    case HTTPRoute => p == HTTP || p == HTTPS
    case TCPRoute => p == TCP
    case TLSRoute => p == TLS
  }

  predicate HostnamesCompatible(listener: Option<string>, hostnames: seq<string>) {
    || listener.Or("") == ""
    || hostnames == []
    || exists i :: 0 <= i < |hostnames| && HostnameIntersects(listener.value, hostnames[i])
  }

  predicate RequirementMet(q: Requirement, labels: map<string, string>) {
    if q.operator == "In" then q.key in labels && labels[q.key] in q.values
    else if q.operator == "NotIn" then q.key in labels ==> labels[q.key] !in q.values
    else if q.operator == "Exists" then q.key in labels
    else if q.operator == "DoesNotExist" then q.key !in labels
    else false
  }

  predicate SelectorMatches(sel: LabelSelector, labels: map<string, string>) {
    && (sel.matchLabels.Some? ==>
          forall k :: k in sel.matchLabels.value ==> k in labels && labels[k] == sel.matchLabels.value[k])
    && forall i :: 0 <= i < |sel.expressions| ==> RequirementMet(sel.expressions[i], labels)
  }

  const METADATA_NAME := "kubernetes.io/metadata.name"

  function LabelsOf(snap: Snapshot, ns: string): map<string, string> {
    (if ns in snap.namespaceLabels then snap.namespaceLabels[ns] else map[])[METADATA_NAME := ns]
  }

  predicate NamespaceAllowed(allowed: Option<AllowedRoutes>, gwNamespace: string, ns: string, snap: Snapshot) {
    var config := if allowed.Some? then allowed.value.namespaces else None;
    match (if config.Some? then config.value.from else Same)
    case All => true
    case Same => ns == gwNamespace
    case Selector =>
      config.Some? && config.value.selector.Some? && SelectorMatches(config.value.selector.value, LabelsOf(snap, ns))
  }

  predicate KindAllowed(allowed: Option<AllowedRoutes>, k: RouteKind) {
    || allowed.None? || allowed.value.kinds == []
    || exists i :: 0 <= i < |allowed.value.kinds| && NamesKind(allowed.value.kinds[i], k)
  }

  predicate NamesKind(g: GroupKind, k: RouteKind) {
    (g.group == "" || g.group == GATEWAY_API_GROUP) && g.kind == KindName(k)
  }

  /** `ReferenceGrant::allows_service_reference`. */
  predicate GrantAllowsService(g: ReferenceGrant, kind: string, ns: string, service: string) {
    && (exists i :: 0 <= i < |g.from| && g.from[i] == GrantFrom(GATEWAY_API_GROUP, kind, ns))
    && (exists i ::
          && 0 <= i < |g.to| && g.to[i].group == "" && g.to[i].kind == "Service"
          && (g.to[i].name == None || g.to[i].name == Some(service)))
  }

  predicate IsCoreService(b: BackendRef) { (b.kind == "" || b.kind == "Service") && b.group == "" }

  predicate Permitted(snap: Snapshot, kind: RouteKind, ns: string, target: string, service: string) {
    exists i :: 0 <= i < |snap.grants| && snap.grants[i].namespace.Or("default") == target
                && GrantAllowsService(snap.grants[i], KindName(kind), ns, service)
  }

  /** The first core Service reference that does not resolve, as the status it causes. */
  function FirstUnresolved(snap: Snapshot, kind: RouteKind, ns: string, refs: seq<BackendRef>): Option<Status> {
    if refs == [] then None
    else
      var b := refs[0];
      var target := b.namespace.Or(ns);
      if !IsCoreService(b) then FirstUnresolved(snap, kind, ns, refs[1..])
      else if target == ns && ObjectKey(target, b.name) !in snap.services then Some(BackendNotFound(ns, target, b.name))
      else if target == ns then FirstUnresolved(snap, kind, ns, refs[1..])
      else if !Permitted(snap, kind, ns, target, b.name) then Some(RefNotPermitted(ns, target, b.name))
      else FirstUnresolved(snap, kind, ns, refs[1..])
  }

  // ---------- Evaluating one parentRef ----------

  function FirstNamed(ls: seq<Listener>, name: string): Option<Listener> {
    if ls == [] then None else if ls[0].name == name then Some(ls[0]) else FirstNamed(ls[1..], name)
  }

  function OnPort(ls: seq<Listener>, port: Option<nat>): seq<Listener> {
    if ls == [] then []
    else
      var last := ls[|ls| - 1];
      OnPort(ls[..|ls| - 1], port) + if port.None? || last.port == port.value then [last] else []
  }

  /** The listeners a parentRef selects; none means there is no matching parent. */
  function Selected(ls: seq<Listener>, p: ParentRef): seq<Listener> {
    match p.section
    case None => OnPort(ls, p.port)
    case Some(name) =>
      match FirstNamed(ls, name)
      case None => []
      case Some(l) => if p.port.Some? && l.port != p.port.value then [] else [l]
  }

  function Verdict(snap: Snapshot, gw: Gateway, route: Route, l: Listener): Status {
    if !ProtocolFits(route.kind, l.protocol) then NotAllowedByListenerProtocol
    else if !NamespaceAllowed(l.allowed, gw.namespace.Or("default"), route.namespace, snap)
      then NotAllowedByListenerNamespacePolicy
    else if !KindAllowed(l.allowed, route.kind) then NotAllowedByListenerKindPolicy
    else if route.kind != TCPRoute && !HostnamesCompatible(l.hostname, route.hostnames) then NoMatchingListenerHostname
    else FirstUnresolved(snap, route.kind, route.namespace, route.backendRefs).Or(Attached)
  }

  function ResultFor(
    route: Route, p: ParentRef, listener: Option<string>, status: Status, generation: int): RouteResult {
    RouteResult(route.namespace, route.name, route.kind, listener, p.section, p.port, status, generation)
  }

  function EvaluateListeners(
    snap: Snapshot, gw: Gateway, route: Route, p: ParentRef, generation: int, ls: seq<Listener>): (r: seq<RouteResult>)
    ensures |r| == |ls|
    ensures forall i :: 0 <= i < |r| ==>
            r[i] == ResultFor(route, p, Some(ls[i].name), Verdict(snap, gw, route, ls[i]), generation)
  {
    seq(|ls|, i requires 0 <= i < |ls| => ResultFor(route, p, Some(ls[i].name), Verdict(snap, gw, route, ls[i]),
      generation))
  }

  function Evaluate(snap: Snapshot, gw: Gateway, route: Route, p: ParentRef, generation: int): seq<RouteResult> {
    var ls := Selected(gw.listeners, p);
    if ls == [] then [ResultFor(route, p, p.section, NoMatchingParent, generation)]
    else EvaluateListeners(snap, gw, route, p, generation, ls)
  }

  // ---------- The code's loops ----------

  /** `parent_ref_targets_gateway`. */
  method TargetsGateway(routeNamespace: string, p: ParentRef, gwNamespace: string, gwName: string) returns (ok: bool)
    ensures ok <==> Targets(routeNamespace, p, gwNamespace, gwName)
  {
    var groupOk := |p.group| == 0 || p.group == "gateway.networking.k8s.io";
    var kindOk := p.kind == "Gateway";
    var ns := match p.namespace case Some(n) => n case None => routeNamespace;
    return groupOk && kindOk && ns == gwNamespace && p.name == gwName;
  }

  /** `label_selector_matches`: both kinds of terms, stopping at the first that fails. */
  method LabelSelectorMatches(sel: LabelSelector, labels: map<string, string>) returns (ok: bool)
    ensures ok <==> SelectorMatches(sel, labels)
  {
    if sel.matchLabels.Some? {
      var required := sel.matchLabels.value;
      var rest := required.Keys;
      while rest != {}
        invariant rest <= required.Keys
        invariant forall k :: k in required && k !in rest ==> k in labels && labels[k] == required[k]
      {
        var k :| k in rest;
        if k !in labels || labels[k] != required[k] { return false; }
        rest := rest - {k};
      }
    }
    var i := 0;
    while i < |sel.expressions|
      invariant 0 <= i <= |sel.expressions|
      invariant forall n :: 0 <= n < i ==> RequirementMet(sel.expressions[n], labels)
    {
      var q := sel.expressions[i];
      var matched := false;
      match q.operator {
        case "In" => matched := q.key in labels && labels[q.key] in q.values;
        case "NotIn" => matched := q.key !in labels || labels[q.key] !in q.values;
        case "Exists" => matched := q.key in labels;
        case "DoesNotExist" => matched := q.key !in labels;
        case _ =>
      }
      if !matched { return false; }
      i := i + 1;
    }
    return true;
  }

  /** `namespace_allowed`: the listener's policy, `Same` by default; a selector judges the namespace's labels
      with its name added. */
  method NamespaceIsAllowed(allowed: Option<AllowedRoutes>, gwNamespace: string, ns: string, snap: Snapshot)
    returns (ok: bool)
    ensures ok <==> NamespaceAllowed(allowed, gwNamespace, ns, snap)
  {
    var config := if allowed.Some? then allowed.value.namespaces else None;
    if config.None? { return ns == gwNamespace; }
    match config.value.from {
      case All => return true;
      case Same => return ns == gwNamespace;
      case Selector =>
        if config.value.selector.None? { return false; }
        var labels := if ns in snap.namespaceLabels then snap.namespaceLabels[ns] else map[];
        labels := labels["kubernetes.io/metadata.name" := ns];
        ok := LabelSelectorMatches(config.value.selector.value, labels);
    }
  }

  /** `kind_allowed`: no list allows every kind. */
  method KindIsAllowed(allowed: Option<AllowedRoutes>, kind: RouteKind) returns (ok: bool)
    ensures ok <==> KindAllowed(allowed, kind)
  {
    if allowed.None? || allowed.value.kinds == [] { return true; }
    var kinds := allowed.value.kinds;
    var name := match kind case HTTPRoute => "HTTPRoute" case TCPRoute => "TCPRoute" case TLSRoute => "TLSRoute";
    var i := 0;
    while i < |kinds|
      invariant 0 <= i <= |kinds| && forall k :: 0 <= k < i ==> !NamesKind(kinds[k], kind)
    {
      var ours := kinds[i].group == "" || kinds[i].group == "gateway.networking.k8s.io";
      if ours && kinds[i].kind == name {
        assert NamesKind(kinds[i], kind);
        return true;
      }
      i := i + 1;
    }
    return false;
  }

  /** `hostnames_compatible`. */
  method HostnamesAreCompatible(listener: Option<string>, hostnames: seq<string>) returns (ok: bool)
    ensures ok <==> HostnamesCompatible(listener, hostnames)
  {
    if listener == None || listener == Some("") { return true; }
    if |hostnames| == 0 { return true; }
    var i := 0;
    while i < |hostnames|
      invariant 0 <= i <= |hostnames| && forall k :: 0 <= k < i ==> !HostnameIntersects(listener.value, hostnames[k])
    {
      if HostnameIntersects(listener.value, hostnames[i]) { return true; }
      i := i + 1;
    }
    return false;
  }

  /** `ReferenceGrant::allows_service_reference`. */
  method AllowsServiceReference(g: ReferenceGrant, kind: string, ns: string, service: string) returns (ok: bool)
    ensures ok <==> GrantAllowsService(g, kind, ns, service)
  {
    var from, i := false, 0;
    while i < |g.from|
      invariant 0 <= i <= |g.from|
      invariant from <==> exists k :: 0 <= k < i && g.from[k] == GrantFrom(GATEWAY_API_GROUP, kind, ns)
    {
      var f := g.from[i];
      if f.group == "gateway.networking.k8s.io" && f.kind == kind && f.namespace == ns { from := true; }
      i := i + 1;
    }
    if !from { return false; }
    i := 0;
    while i < |g.to|
      invariant 0 <= i <= |g.to|
      invariant forall k :: 0 <= k < i ==>
        !(g.to[k].group == "" && g.to[k].kind == "Service" && (g.to[k].name == None || g.to[k].name == Some(service)))
    {
      var t := g.to[i];
      if |t.group| == 0 && t.kind == "Service" && (t.name.None? || t.name.value == service) { return true; }
      i := i + 1;
    }
    return false;
  }

  method IsPermitted(snap: Snapshot, kind: RouteKind, ns: string, target: string, service: string) returns (ok: bool)
    ensures ok <==> Permitted(snap, kind, ns, target, service)
  {
    var i := 0;
    while i < |snap.grants|
      invariant 0 <= i <= |snap.grants|
      invariant forall k :: 0 <= k < i ==>
        snap.grants[k].namespace.Or("default") != target
        || !GrantAllowsService(snap.grants[k], KindName(kind), ns, service)
    {
      var g := snap.grants[i];
      if (if g.namespace.Some? then g.namespace.value else "default") == target {
        ok := AllowsServiceReference(g, KindName(kind), ns, service);
        if ok { return true; }
      }
      i := i + 1;
    }
    return false;
  }

  /** `first_unresolved_backend_ref_for_kind`: stops at the first reference to a core Service that is unknown in
      the route's own namespace, or not granted in another. */
  method FirstUnresolvedRef(snap: Snapshot, kind: RouteKind, ns: string, refs: seq<BackendRef>)
    returns (s: Option<Status>)
    ensures s == FirstUnresolved(snap, kind, ns, refs)
  {
    var i := 0;
    while i < |refs|
      invariant 0 <= i <= |refs|
      invariant FirstUnresolved(snap, kind, ns, refs) == FirstUnresolved(snap, kind, ns, refs[i..])
    {
      var b := refs[i];
      assert refs[i..][1..] == refs[i + 1..];
      if (b.kind == "Service" || |b.kind| == 0) && |b.group| == 0 {
        var target := if b.namespace.Some? then b.namespace.value else ns;
        if target != ns {
          var ok := IsPermitted(snap, kind, ns, target, b.name);
          if !ok { return Some(RefNotPermitted(ns, target, b.name)); }
        } else if target + "/" + b.name !in snap.services {
          return Some(BackendNotFound(ns, target, b.name));
        }
      }
      i := i + 1;
    }
    return None;
  }

  /** The checks of one listener, in the code's order; the first that fails names the reason. */
  method CheckListener(snap: Snapshot, gw: Gateway, route: Route, l: Listener) returns (status: Status)
    ensures status == Verdict(snap, gw, route, l)
  {
    if !ProtocolFits(route.kind, l.protocol) { return NotAllowedByListenerProtocol; }
    var gwNamespace := if gw.namespace.Some? then gw.namespace.value else "default";
    var ok := NamespaceIsAllowed(l.allowed, gwNamespace, route.namespace, snap);
    if !ok { return NotAllowedByListenerNamespacePolicy; }
    ok := KindIsAllowed(l.allowed, route.kind);
    if !ok { return NotAllowedByListenerKindPolicy; }
    if !route.kind.TCPRoute? {
      ok := HostnamesAreCompatible(l.hostname, route.hostnames);
      if !ok { return NoMatchingListenerHostname; }
    }
    var unresolved := FirstUnresolvedRef(snap, route.kind, route.namespace, route.backendRefs);
    return if unresolved.Some? then unresolved.value else Attached;
  }

  /** The listeners to check: the first of the section name, or all, and only on the requested port. */
  method SelectListeners(ls: seq<Listener>, p: ParentRef) returns (r: seq<Listener>)
    ensures r == Selected(ls, p)
  {
    r := [];
    var i := 0;
    if p.section.Some? {
      while i < |ls|
        invariant 0 <= i <= |ls| && FirstNamed(ls, p.section.value) == FirstNamed(ls[i..], p.section.value)
      {
        if ls[i].name == p.section.value {
          return if p.port == None || Some(ls[i].port) == p.port then [ls[i]] else [];
        }
        assert ls[i..][1..] == ls[i + 1..];
        i := i + 1;
      }
      return [];
    }
    while i < |ls|
      invariant 0 <= i <= |ls| && r == OnPort(ls[..i], p.port)
    {
      assert ls[..i + 1][..i] == ls[..i];
      if p.port == None || Some(ls[i].port) == p.port { r := r + [ls[i]]; }
      i := i + 1;
    }
    assert ls[..|ls|] == ls;
  }

  method EvaluateRoute(snap: Snapshot, gw: Gateway, route: Route, p: ParentRef, generation: int)
    returns (results: seq<RouteResult>)
    ensures results == Evaluate(snap, gw, route, p, generation)
  {
    var ls := SelectListeners(gw.listeners, p);
    if ls == [] {
      return [RouteResult(route.namespace, route.name, route.kind, p.section, p.section, p.port, NoMatchingParent,
                          generation)];
    }
    results := [];
    var i := 0;
    while i < |ls|
      invariant 0 <= i <= |ls|
      invariant results == EvaluateListeners(snap, gw, route, p, generation, ls)[..i]
    {
      var status := CheckListener(snap, gw, route, ls[i]);
      results := results + [RouteResult(route.namespace, route.name, route.kind, Some(ls[i].name), p.section, p.port,
                                        status, generation)];
      i := i + 1;
    }
  }

  // ---------- Exactness ----------

  /** All listener-level checks pass. */
  ghost predicate Accepts(snap: Snapshot, gw: Gateway, route: Route, l: Listener) {
    && ProtocolFits(route.kind, l.protocol)
    && NamespaceAllowed(l.allowed, gw.namespace.Or("default"), route.namespace, snap)
    && KindAllowed(l.allowed, route.kind)
    && (route.kind == TCPRoute || HostnamesCompatible(l.hostname, route.hostnames))
  }

  /** A Service in the route's namespace must be known, one elsewhere must be granted there. */
  ghost predicate Resolved(snap: Snapshot, kind: RouteKind, ns: string, b: BackendRef) {
    var target := b.namespace.Or(ns);
    IsCoreService(b) ==>
      if target == ns then ObjectKey(target, b.name) in snap.services else Permitted(snap, kind, ns, target, b.name)
  }

  /** The status a single unresolved reference stands for. */
  ghost predicate Blames(status: Status, ns: string, b: BackendRef) {
    var target := b.namespace.Or(ns);
    status == if target == ns then BackendNotFound(ns, target, b.name) else RefNotPermitted(ns, target, b.name)
  }

  lemma {:induction false} FirstUnresolvedExact(snap: Snapshot, kind: RouteKind, ns: string, refs: seq<BackendRef>)
    ensures var s := FirstUnresolved(snap, kind, ns, refs);
            && (s.None? <==> forall i :: 0 <= i < |refs| ==> Resolved(snap, kind, ns, refs[i]))
            && (s.Some? ==>
               exists i :: 0 <= i < |refs| && !Resolved(snap, kind, ns, refs[i]) && Blames(s.value, ns, refs[i])
                                        && forall k :: 0 <= k < i ==> Resolved(snap, kind, ns, refs[k]))
  {
    if refs != [] {
      var tail := refs[1..];
      FirstUnresolvedExact(snap, kind, ns, tail);
      var s := FirstUnresolved(snap, kind, ns, refs);
      assert forall i :: 0 <= i < |tail| ==> tail[i] == refs[i + 1];
      if !Resolved(snap, kind, ns, refs[0]) {
        assert Blames(s.value, ns, refs[0]);
      } else {
        assert s == FirstUnresolved(snap, kind, ns, tail);
        if s.Some? {
          var i :| 0 <= i < |tail| && !Resolved(snap, kind, ns, tail[i]) && Blames(s.value, ns, tail[i])
                   && forall k :: 0 <= k < i ==> Resolved(snap, kind, ns, tail[k]);
          assert !Resolved(snap, kind, ns, refs[i + 1]) && Blames(s.value, ns, refs[i + 1]);
          forall k | 0 <= k < i + 1 ensures Resolved(snap, kind, ns, refs[k]) {
            assert k == 0 || refs[k] == tail[k - 1];
          }
        }
      }
    }
  }

  /** Which route kinds a protocol carries. */
  lemma FittingPairs(k: RouteKind, p: Protocol)
    ensures ProtocolFits(k, p) <==>
            (k, p) in {(HTTPRoute, HTTP), (HTTPRoute, HTTPS), (TCPRoute, TCP), (TLSRoute, TLS)}
  {
  }

  /** `status` is the reason caused by the first reference that does not resolve. */
  ghost predicate BlamesFirst(snap: Snapshot, route: Route, status: Status) {
    exists i ::
      && 0 <= i < |route.backendRefs|
      && !Resolved(snap, route.kind, route.namespace, route.backendRefs[i])
      && Blames(status, route.namespace, route.backendRefs[i])
      && forall k :: 0 <= k < i ==> Resolved(snap, route.kind, route.namespace, route.backendRefs[k])
  }

  ghost predicate AllResolved(snap: Snapshot, route: Route) {
    forall i :: 0 <= i < |route.backendRefs| ==>
      Resolved(snap, route.kind, route.namespace, route.backendRefs[i])
  }

  /** `status` names the first check that fails, in the order protocol, namespace, kind, hostname, references;
      it is `Attached` if none does. */
  ghost predicate IsReason(snap: Snapshot, gw: Gateway, route: Route, l: Listener, status: Status) {
    var protocol := ProtocolFits(route.kind, l.protocol);
    var namespace := NamespaceAllowed(l.allowed, gw.namespace.Or("default"), route.namespace, snap);
    var kind := KindAllowed(l.allowed, route.kind);
    && status != NoMatchingParent
    && (status == NotAllowedByListenerProtocol <==> !protocol)
    && (status == NotAllowedByListenerNamespacePolicy <==> protocol && !namespace)
    && (status == NotAllowedByListenerKindPolicy <==> protocol && namespace && !kind)
    && (status == NoMatchingListenerHostname <==> protocol && namespace && kind && !Accepts(snap, gw, route, l))
    && (status.IsAttached() <==> Accepts(snap, gw, route, l))
    && (status == Attached <==> Accepts(snap, gw, route, l) && AllResolved(snap, route))
    && (status.IsAttached() && status != Attached ==> BlamesFirst(snap, route, status))
  }

  /** Every verdict is exactly the reason. */
  lemma VerdictExact(snap: Snapshot, gw: Gateway, route: Route, l: Listener)
    ensures IsReason(snap, gw, route, l, Verdict(snap, gw, route, l))
  {
    FirstUnresolvedExact(snap, route.kind, route.namespace, route.backendRefs);
  }

  /** Listener i is meant by the parentRef: named first by sectionName, or any without one; and on the
      requested port, if any. */
  ghost predicate Means(ls: seq<Listener>, p: ParentRef, i: nat)
    requires i < |ls|
  {
    && (p.section.Some? ==> ls[i].name == p.section.value && forall k :: 0 <= k < i ==> ls[k].name != p.section.value)
    && (p.port.Some? ==> ls[i].port == p.port.value)
  }

  /** `idx` lists, in order, exactly the listeners the parentRef means. */
  ghost predicate ListsMeant(ls: seq<Listener>, p: ParentRef, idx: seq<nat>) {
    && (forall k :: 0 <= k < |idx| ==> idx[k] < |ls| && Means(ls, p, idx[k]))
    && (forall k, m :: 0 <= k < m < |idx| ==> idx[k] < idx[m])
    && (forall i :: 0 <= i < |ls| && Means(ls, p, i) ==> i in idx)
  }

  lemma {:induction false} FirstNamedExact(ls: seq<Listener>, name: string)
    ensures FirstNamed(ls, name).None? ==> forall k :: 0 <= k < |ls| ==> ls[k].name != name
    ensures FirstNamed(ls, name).Some? ==>
              exists i :: 0 <= i < |ls| && ls[i] == FirstNamed(ls, name).value && ls[i].name == name
                && forall k :: 0 <= k < i ==> ls[k].name != name
  {
    if ls != [] {
      FirstNamedExact(ls[1..], name);
      if ls[0].name == name {
        assert ls[0] == FirstNamed(ls, name).value;
      } else {
        assert forall k :: 1 <= k < |ls| ==> ls[k] == ls[1..][k - 1];
        if FirstNamed(ls, name).Some? {
          var i :| 0 <= i < |ls[1..]| && ls[1..][i] == FirstNamed(ls[1..], name).value && ls[1..][i].name == name
                   && forall k :: 0 <= k < i ==> ls[1..][k].name != name;
          assert ls[i + 1] == FirstNamed(ls, name).value && forall k :: 0 <= k < i + 1 ==> ls[k].name != name;
        }
      }
    }
  }

  lemma {:induction false} OnPortExact(ls: seq<Listener>, port: Option<nat>) returns (idx: seq<nat>)
    ensures |idx| == |OnPort(ls, port)|
    ensures forall k :: 0 <= k < |idx| ==>
            idx[k] < |ls| && OnPort(ls, port)[k] == ls[idx[k]] && (port.Some? ==> ls[idx[k]].port == port.value)
    ensures forall k, m :: 0 <= k < m < |idx| ==> idx[k] < idx[m]
    ensures forall i :: 0 <= i < |ls| && (port.Some? ==> ls[i].port == port.value) ==> i in idx
  {
    if ls == [] {
      idx := [];
    } else {
      var n := |ls| - 1;
      var rest := OnPortExact(ls[..n], port);
      idx := rest + if port.None? || ls[n].port == port.value then [n] else [];
      forall i | 0 <= i < |ls| && (port.Some? ==> ls[i].port == port.value) ensures i in idx {
        assert i < n ==> ls[..n][i] == ls[i] && i in rest;
        assert i == n ==> idx[|rest|] == n;
      }
    }
  }

  lemma SelectedExact(ls: seq<Listener>, p: ParentRef) returns (idx: seq<nat>)
    ensures ListsMeant(ls, p, idx)
    ensures |Selected(ls, p)| == |idx| && forall k :: 0 <= k < |idx| ==> Selected(ls, p)[k] == ls[idx[k]]
  {
    if p.section.None? {
      idx := OnPortExact(ls, p.port);
    } else {
      FirstNamedExact(ls, p.section.value);
      var f := FirstNamed(ls, p.section.value);
      if f.Some? {
        var i :| 0 <= i < |ls| && ls[i] == f.value && ls[i].name == p.section.value && forall k :: 0 <= k < i ==>
                 ls[k].name != p.section.value;
        idx := if p.port.Some? && ls[i].port != p.port.value then [] else [i];
        forall k | 0 <= k < |ls| && Means(ls, p, k) ensures k in idx { assert k == i; }
      } else {
        idx := [];
      }
    }
  }

  /** What every result of the evaluation repeats from the route and the parentRef. */
  ghost predicate Echoes(r: RouteResult, route: Route, p: ParentRef, generation: int) {
    && r.namespace == route.namespace && r.name == route.name && r.kind == route.kind
    && r.section == p.section && r.port == p.port && r.generation == generation
  }

  /** Exactness of one parentRef: one result for each listener it means, in listener order, with that
      listener's name and the reason; or, if it means none, a single `NoMatchingParent` for its section. */
  lemma EvaluateExact(snap: Snapshot, gw: Gateway, route: Route, p: ParentRef, generation: int) returns (idx: seq<nat>)
    ensures ListsMeant(gw.listeners, p, idx)
    ensures var r := Evaluate(snap, gw, route, p, generation);
            && (forall k :: 0 <= k < |r| ==> Echoes(r[k], route, p, generation))
            && (if idx == [] then |r| == 1 && r[0].listener == p.section && r[0].status == NoMatchingParent
                else |r| == |idx| && forall k :: 0 <= k < |idx| ==>
                  && r[k].listener == Some(gw.listeners[idx[k]].name)
                  && IsReason(snap, gw, route, gw.listeners[idx[k]], r[k].status))
  {
    idx := SelectedExact(gw.listeners, p);
    forall k | 0 <= k < |idx| { VerdictExact(snap, gw, route, gw.listeners[idx[k]]); }
  }

  /** The selector asks nothing of a namespace but its name: labels to match are at most the name label, and a
      requirement on any other key asks for its absence. */
  ghost predicate AllowsUnlabelled(sel: LabelSelector, ns: string) {
    && (sel.matchLabels.Some? ==> sel.matchLabels.value == map[] || sel.matchLabels.value == map[METADATA_NAME := ns])
    && forall i :: 0 <= i < |sel.expressions| ==>
      var q := sel.expressions[i];
      if q.key != METADATA_NAME then q.operator == "NotIn" || q.operator == "DoesNotExist"
      else || (q.operator == "In" && ns in q.values)
           || (q.operator == "NotIn" && ns !in q.values)
           || q.operator == "Exists"
  }

  lemma LabelsAskForName(m: map<string, string>, ns: string)
    ensures (forall k :: k in m ==> k in map[METADATA_NAME := ns] && map[METADATA_NAME := ns][k] == m[k])
       <==> m == map[] || m == map[METADATA_NAME := ns]
  {
    if (forall k :: k in m ==> k == METADATA_NAME && m[k] == ns) && m != map[] {
      var k :| k in m;
      assert m == map[METADATA_NAME := ns];
    }
  }

  /** Contrary to the module's documentation, a namespace without known labels is not always denied by
      a selector: it is allowed exactly by the selectors that ask for its name at most. */
  lemma UnlabelledNamespaceMayBeAllowed(
    snap: Snapshot, gwNamespace: string, ns: string, sel: LabelSelector, kinds: seq<GroupKind>)
    requires ns !in snap.namespaceLabels
    ensures NamespaceAllowed(Some(AllowedRoutes(Some(RouteNamespaces(Selector, Some(sel))), kinds)), gwNamespace, ns,
            snap)
       <==> AllowsUnlabelled(sel, ns)
    ensures AllowsUnlabelled(LabelSelector(None, [Requirement("tenant", "DoesNotExist", [])]), ns)
  {
    assert LabelsOf(snap, ns) == map[METADATA_NAME := ns];
    if sel.matchLabels.Some? { LabelsAskForName(sel.matchLabels.value, ns); }
    assert "tenant"[0] != METADATA_NAME[0];
  }
}
