/** The whole attachment plan of a Gateway: results of all routes, sorted, and the number of routes
    attached to each listener. */
module AttachmentPlan {
  import opened Text
  import opened GatewayApi
  import opened Ordering
  import opened Planner

  /** Route lists come from hash maps, so in some enumeration order. */
  datatype Input = Input(
    gwNamespace: string, gwName: string, generation: int, snap: Snapshot,
    http: seq<Route>, tcp: seq<Route>, tls: seq<Route>)

  /** The route objects as the store lists them, each kind in some order. */
  datatype Objects = Objects(http: seq<HttpRoute>, tcp: seq<StreamRoute>, tls: seq<StreamRoute>)

  function Mapped<A, B>(xs: seq<A>, f: A -> B): (r: seq<B>)
    ensures |r| == |xs| && forall i :: 0 <= i < |xs| ==> r[i] == f(xs[i])
  {
    seq(|xs|, i requires 0 <= i < |xs| => f(xs[i]))
  }

  function ReadRoutes(gwNamespace: string, gwName: string, generation: int, snap: Snapshot, o: Objects): Input {
    Input(gwNamespace, gwName, generation, snap, Mapped(o.http, OfHttp), Mapped(o.tcp, OfTcp), Mapped(o.tls, OfTls))
  }

  datatype Summary = Summary(
    listener: string, attachedRoutes: nat, supportedKinds: seq<GroupKind>, accepted: bool, rejection: Option<string>)

  datatype Plan = Plan(results: seq<RouteResult>, summaries: seq<Summary>)

  datatype PlanError = MissingGateway

  // ---------- Results ----------

  function RefResults(inp: Input, gw: Gateway, route: Route, p: ParentRef): seq<RouteResult> {
    if !Targets(route.namespace, p, inp.gwNamespace, inp.gwName) then []
    else Evaluate(inp.snap, gw, route, p, inp.generation)
  }

  function RefsResults(inp: Input, gw: Gateway, route: Route, refs: seq<ParentRef>): seq<RouteResult> {
    if refs == [] then []
    else RefsResults(inp, gw, route, refs[..|refs| - 1]) + RefResults(inp, gw, route, refs[|refs| - 1])
  }

  function RouteResults(inp: Input, gw: Gateway, route: Route): seq<RouteResult> {
    RefsResults(inp, gw, route, route.parentRefs)
  }

  function RoutesResults(inp: Input, gw: Gateway, routes: seq<Route>): seq<RouteResult> {
    if routes == [] then []
    else RoutesResults(inp, gw, routes[..|routes| - 1]) + RouteResults(inp, gw, routes[|routes| - 1])
  }

  function RawResults(inp: Input, gw: Gateway): seq<RouteResult> {
    RoutesResults(inp, gw, inp.http) + RoutesResults(inp, gw, inp.tcp) + RoutesResults(inp, gw, inp.tls)
  }

  function KindIndex(k: RouteKind): int {
    match k
    case HTTPRoute => 0
    case TCPRoute => 1
    case TLSRoute => 2
  }

  /** The tuple the results are sorted by; an absent option sorts before every present one. */
  function SortKey(r: RouteResult): seq<seq<int>> {
    [Codes(r.namespace), Codes(r.name), [KindIndex(r.kind)],
     if r.listener.Some? then [0] + Codes(r.listener.value) else [],
     if r.port.Some? then [r.port.value] else []]
  }

  function SortedResults(inp: Input, gw: Gateway): seq<RouteResult> {
    Sort(RawResults(inp, gw), SortKey, KeyLe)
  }

  // ---------- Counting ----------

  function ResultKey(r: RouteResult): string { ObjectKey(r.namespace, r.name) }

  type Tally = map<string, set<string>>

  function AddTo(att: Tally, listener: string, key: string): Tally {
    if listener in att then att[listener := att[listener] + {key}] else att
  }

  function AddToCompatible(att: Tally, ls: seq<Listener>, kind: RouteKind, key: string): Tally {
    if ls == [] then att
    else
      var l := ls[|ls| - 1];
      var before := AddToCompatible(att, ls[..|ls| - 1], kind, key);
      if ProtocolFits(kind, l.protocol) then AddTo(before, l.name, key) else before
  }

  function TallyOne(att: Tally, ls: seq<Listener>, r: RouteResult): Tally {
    if !r.status.IsAttached() then att
    else
      match r.listener
      case Some(name) => AddTo(att, name, ResultKey(r))
      case None => AddToCompatible(att, ls, r.kind, ResultKey(r))
  }

  function TallyAll(att: Tally, ls: seq<Listener>, rs: seq<RouteResult>): Tally {
    if rs == [] then att else TallyOne(TallyAll(att, ls, rs[..|rs| - 1]), ls, rs[|rs| - 1])
  }

  function ListenerNames(ls: seq<Listener>): set<string> { set i | 0 <= i < |ls| :: ls[i].name }

  function EmptyTally(ls: seq<Listener>): Tally { map n | n in ListenerNames(ls) :: {} }

  function Acceptance(p: Protocol): (bool, Option<string>, seq<GroupKind>) {
    match p
    case HTTP => (true, None, [GroupKind(GATEWAY_API_GROUP, "HTTPRoute")])
    case HTTPS => (true, None, [GroupKind(GATEWAY_API_GROUP, "HTTPRoute")])
    case TCP => (true, None, [GroupKind(GATEWAY_API_GROUP, "TCPRoute")])
    case TLS => (true, None, [GroupKind(GATEWAY_API_GROUP, "TLSRoute")])
    case UDP => (false, Some("UnsupportedProtocol: UDP listeners are not supported by this controller"), [])
  }

  function Summarize(att: Tally, l: Listener): Summary {
    var (accepted, reason, kinds) := Acceptance(l.protocol);
    Summary(l.name, if l.name in att then |att[l.name]| else 0, kinds, accepted, reason)
  }

  function SummarizeAll(att: Tally, ls: seq<Listener>): (r: seq<Summary>)
    ensures |r| == |ls| && forall i :: 0 <= i < |r| ==> r[i] == Summarize(att, ls[i])
  {
    seq(|ls|, i requires 0 <= i < |ls| => Summarize(att, ls[i]))
  }

  function SummaryKey(s: Summary): seq<int> { Codes(s.listener) }

  function PlanFor(inp: Input): Result<Plan, PlanError> {
    var key := ObjectKey(inp.gwNamespace, inp.gwName);
    if key !in inp.snap.gateways then Err(MissingGateway)
    else
      var gw := inp.snap.gateways[key];
      var att := TallyAll(EmptyTally(gw.listeners), gw.listeners, RawResults(inp, gw));
      Ok(Plan(SortedResults(inp, gw), Sort(SummarizeAll(att, gw.listeners), SummaryKey, StrLe)))
  }

  // ---------- The planner's loops ----------

  lemma {:induction false} TallyConcat(att: Tally, ls: seq<Listener>, xs: seq<RouteResult>, ys: seq<RouteResult>)
    ensures TallyAll(TallyAll(att, ls, xs), ls, ys) == TallyAll(att, ls, xs + ys)
  {
    if ys == [] {
      assert xs + ys == xs;
    } else {
      var n := |ys| - 1;
      TallyConcat(att, ls, xs, ys[..n]);
      assert (xs + ys)[..|xs + ys| - 1] == xs + ys[..n];
    }
  }

  method TallyResults(att0: Tally, ls: seq<Listener>, rs: seq<RouteResult>) returns (att: Tally)
    ensures att == TallyAll(att0, ls, rs)
  {
    att := att0;
    var i := 0;
    while i < |rs|
      invariant 0 <= i <= |rs| && att == TallyAll(att0, ls, rs[..i])
    {
      assert rs[..i + 1][..i] == rs[..i];
      var r := rs[i];
      var key := r.namespace + "/" + r.name;
      if r.status.Attached? || r.status.RefNotPermitted? || r.status.BackendNotFound? {
        if r.listener.Some? {
          if r.listener.value in att {
            att := att[r.listener.value := att[r.listener.value] + {key}];
          }
        } else {
          var before := att;
          var k := 0;
          while k < |ls|
            invariant 0 <= k <= |ls| && att == AddToCompatible(before, ls[..k], r.kind, key)
          {
            assert ls[..k + 1][..k] == ls[..k];
            if ProtocolFits(r.kind, ls[k].protocol) && ls[k].name in att {
              att := att[ls[k].name := att[ls[k].name] + {key}];
            }
            k := k + 1;
          }
          assert ls[..|ls|] == ls;
        }
      }
      i := i + 1;
    }
    assert rs[..|rs|] == rs;
  }

  /** An empty set for every listener. */
  method NewTally(ls: seq<Listener>) returns (att: Tally)
    ensures att == EmptyTally(ls)
  {
    att := map[];
    var i := 0;
    while i < |ls|
      invariant 0 <= i <= |ls| && att == EmptyTally(ls[..i])
    {
      assert ListenerNames(ls[..i + 1]) == ListenerNames(ls[..i]) + {ls[i].name};
      att := att[ls[i].name := {}];
      i := i + 1;
    }
    assert ls[..|ls|] == ls;
  }

  /** One summary per listener, as `listener_acceptance` judges its protocol. */
  method SummarizeListeners(att: Tally, ls: seq<Listener>) returns (summaries: seq<Summary>)
    ensures summaries == SummarizeAll(att, ls)
  {
    summaries := [];
    var i := 0;
    while i < |ls|
      invariant 0 <= i <= |ls| && summaries == SummarizeAll(att, ls)[..i]
    {
      var count := if ls[i].name in att then |att[ls[i].name]| else 0;
      var accepted, reason, kinds := true, None, [];
      match ls[i].protocol {
        case HTTP => kinds := [GroupKind("gateway.networking.k8s.io", "HTTPRoute")];
        case HTTPS => kinds := [GroupKind("gateway.networking.k8s.io", "HTTPRoute")];
        case TCP => kinds := [GroupKind("gateway.networking.k8s.io", "TCPRoute")];
        case TLS => kinds := [GroupKind("gateway.networking.k8s.io", "TLSRoute")];
        case UDP =>
          accepted := false;
          reason := Some("UnsupportedProtocol: UDP listeners are not supported by this controller");
      }
      summaries := summaries + [Summary(ls[i].name, count, kinds, accepted, reason)];
      i := i + 1;
    }
  }

  /** A listener supports exactly the route kinds its protocol fits, is accepted exactly if there is one, and
      otherwise carries a reason. */
  lemma AcceptanceExact(p: Protocol)
    ensures var (accepted, reason, kinds) := Acceptance(p);
            && (forall k :: GroupKind("gateway.networking.k8s.io", KindName(k)) in kinds <==> ProtocolFits(k, p))
            && (accepted <==> exists k :: ProtocolFits(k, p)) && (reason.Some? <==> !accepted) && |kinds| <= 1
  {
    match p
    case HTTP => assert ProtocolFits(HTTPRoute, p);
    case HTTPS => assert ProtocolFits(HTTPRoute, p);
    case TCP => assert ProtocolFits(TCPRoute, p);
    case TLS => assert ProtocolFits(TLSRoute, p);
    case UDP =>
  }

  /** Results so far and their tally, the accumulators of the planner's loops. */
  datatype Acc = Acc(results: seq<RouteResult>, att: Tally)

  function Extend(acc: Acc, ls: seq<Listener>, rs: seq<RouteResult>): Acc {
    Acc(acc.results + rs, TallyAll(acc.att, ls, rs))
  }

  lemma ExtendTwice(acc: Acc, ls: seq<Listener>, xs: seq<RouteResult>, ys: seq<RouteResult>)
    ensures Extend(Extend(acc, ls, xs), ls, ys) == Extend(acc, ls, xs + ys)
  {
    TallyConcat(acc.att, ls, xs, ys);
  }

  lemma NextRef(inp: Input, gw: Gateway, route: Route, refs: seq<ParentRef>, i: nat, acc: Acc)
    requires i < |refs|
    ensures Extend(acc, gw.listeners, RefsResults(inp, gw, route, refs[..i + 1]))
            == Extend(Extend(acc, gw.listeners, RefsResults(inp, gw, route, refs[..i])), gw.listeners,
              RefResults(inp, gw, route, refs[i]))
  {
    assert refs[..i + 1][..i] == refs[..i];
    ExtendTwice(acc, gw.listeners, RefsResults(inp, gw, route, refs[..i]), RefResults(inp, gw, route, refs[i]));
  }

  lemma NextRoute(inp: Input, gw: Gateway, routes: seq<Route>, i: nat, acc: Acc)
    requires i < |routes|
    ensures Extend(acc, gw.listeners, RoutesResults(inp, gw, routes[..i + 1]))
            == Extend(Extend(acc, gw.listeners, RoutesResults(inp, gw, routes[..i])), gw.listeners,
              RouteResults(inp, gw, routes[i]))
  {
    assert routes[..i + 1][..i] == routes[..i];
    ExtendTwice(acc, gw.listeners, RoutesResults(inp, gw, routes[..i]), RouteResults(inp, gw, routes[i]));
  }

  lemma ExtendNothing(acc: Acc, ls: seq<Listener>)
    ensures Extend(acc, ls, []) == acc
  {
    assert acc.results + [] == acc.results;
  }

  method PlanRoute(inp: Input, gw: Gateway, route: Route, acc0: Acc) returns (acc: Acc)
    ensures acc == Extend(acc0, gw.listeners, RouteResults(inp, gw, route))
  {
    acc := acc0;
    var refs := route.parentRefs;
    var i := 0;
    ExtendNothing(acc0, gw.listeners);
    while i < |refs|
      invariant 0 <= i <= |refs| && acc == Extend(acc0, gw.listeners, RefsResults(inp, gw, route, refs[..i]))
    {
      NextRef(inp, gw, route, refs, i, acc0);
      ExtendNothing(acc, gw.listeners);
      var ours := TargetsGateway(route.namespace, refs[i], inp.gwNamespace, inp.gwName);
      if ours {
        var rs := EvaluateRoute(inp.snap, gw, route, refs[i], inp.generation);
        var att := TallyResults(acc.att, gw.listeners, rs);
        acc := Acc(acc.results + rs, att);
      }
      i := i + 1;
    }
    assert refs[..|refs|] == refs;
  }

  method PlanRoutes(inp: Input, gw: Gateway, routes: seq<Route>, acc0: Acc) returns (acc: Acc)
    ensures acc == Extend(acc0, gw.listeners, RoutesResults(inp, gw, routes))
  {
    acc := acc0;
    var i := 0;
    ExtendNothing(acc0, gw.listeners);
    while i < |routes|
      invariant 0 <= i <= |routes| && acc == Extend(acc0, gw.listeners, RoutesResults(inp, gw, routes[..i]))
    {
      NextRoute(inp, gw, routes, i, acc0);
      acc := PlanRoute(inp, gw, routes[i], acc);
      i := i + 1;
    }
    assert routes[..|routes|] == routes;
  }

  method PlanAll(inp: Input, gw: Gateway) returns (acc: Acc)
    ensures acc.results == RawResults(inp, gw)
            && acc.att == TallyAll(EmptyTally(gw.listeners), gw.listeners, RawResults(inp, gw))
  {
    var empty := NewTally(gw.listeners);
    var start := Acc([], empty);
    ghost var http, tcp, tls := RoutesResults(inp, gw, inp.http), RoutesResults(inp, gw, inp.tcp),
      RoutesResults(inp, gw, inp.tls);
    acc := PlanRoutes(inp, gw, inp.http, start);
    acc := PlanRoutes(inp, gw, inp.tcp, acc);
    ExtendTwice(start, gw.listeners, http, tcp);
    acc := PlanRoutes(inp, gw, inp.tls, acc);
    ExtendTwice(start, gw.listeners, http + tcp, tls);
    assert http + tcp + tls == RawResults(inp, gw);
  }

  method MakePlan(inp: Input) returns (plan: Result<Plan, PlanError>)
    ensures plan == PlanFor(inp)
  {
    var key := inp.gwNamespace + "/" + inp.gwName;
    if key !in inp.snap.gateways {
      return Err(MissingGateway);
    }
    var gw := inp.snap.gateways[key];
    var acc := PlanAll(inp, gw);
    var summaries := SummarizeListeners(acc.att, gw.listeners);
    return Ok(Plan(Sort(acc.results, SortKey, KeyLe), Sort(summaries, SummaryKey, StrLe)));
  }

  // ---------- Where results come from ----------

  /** `r` is the result of one targeting parentRef of `route`. */
  ghost predicate Produces(inp: Input, gw: Gateway, route: Route, r: RouteResult) {
    exists p :: p in route.parentRefs && Targets(route.namespace, p, inp.gwNamespace, inp.gwName)
                && r in Evaluate(inp.snap, gw, route, p, inp.generation)
  }

  lemma {:induction false} RefsResultsFrom(inp: Input, gw: Gateway, route: Route, refs: seq<ParentRef>)
    ensures forall r :: r in RefsResults(inp, gw, route, refs) <==>
              exists p :: p in refs && Targets(route.namespace, p, inp.gwNamespace, inp.gwName)
                && r in Evaluate(inp.snap, gw, route, p, inp.generation)
  {
    if refs != [] {
      var init, p := refs[..|refs| - 1], refs[|refs| - 1];
      RefsResultsFrom(inp, gw, route, init);
      assert refs == init + [p];
    }
  }

  lemma RouteResultsFrom(inp: Input, gw: Gateway, route: Route)
    ensures forall r :: r in RouteResults(inp, gw, route) <==> Produces(inp, gw, route, r)
  {
    RefsResultsFrom(inp, gw, route, route.parentRefs);
  }

  lemma {:induction false} RoutesResultsFrom(inp: Input, gw: Gateway, routes: seq<Route>)
    ensures forall r :: r in RoutesResults(inp, gw, routes) <==>
            exists route :: route in routes && Produces(inp, gw, route, r)
  {
    if routes != [] {
      var init, route := routes[..|routes| - 1], routes[|routes| - 1];
      RoutesResultsFrom(inp, gw, init);
      RouteResultsFrom(inp, gw, route);
      assert routes == init + [route];
    }
  }

  ghost predicate HasRoute(inp: Input, route: Route) { route in inp.http || route in inp.tcp || route in inp.tls }

  lemma RawResultsFrom(inp: Input, gw: Gateway)
    ensures forall r :: r in RawResults(inp, gw) <==>
            exists route :: HasRoute(inp, route) && Produces(inp, gw, route, r)
  {
    RoutesResultsFrom(inp, gw, inp.http);
    RoutesResultsFrom(inp, gw, inp.tcp);
    RoutesResultsFrom(inp, gw, inp.tls);
  }

  lemma ProducedShape(inp: Input, gw: Gateway, route: Route, r: RouteResult)
    requires Produces(inp, gw, route, r)
    ensures r.namespace == route.namespace && r.name == route.name && r.kind == route.kind
    ensures r.generation == inp.generation
    ensures r.status.IsAttached() ==>
              exists i :: 0 <= i < |gw.listeners| && r.listener == Some(gw.listeners[i].name)
                && ProtocolFits(r.kind, gw.listeners[i].protocol)
  {
    var p :| p in route.parentRefs && Targets(route.namespace, p, inp.gwNamespace, inp.gwName)
             && r in Evaluate(inp.snap, gw, route, p, inp.generation);
    var idx := EvaluateExact(inp.snap, gw, route, p, inp.generation);
  }

  /** The plan lists exactly the results of targeting parentRefs, in key order; it fails only when the
      Gateway is unknown. */
  lemma PlanResultsExact(inp: Input)
    ensures PlanFor(inp).Ok? <==> ObjectKey(inp.gwNamespace, inp.gwName) in inp.snap.gateways
    ensures PlanFor(inp).Ok? ==>
              var gw := inp.snap.gateways[ObjectKey(inp.gwNamespace, inp.gwName)];
              var results := PlanFor(inp).value.results;
              && SortedBy(results, SortKey, KeyLe) && multiset(results) == multiset(RawResults(inp, gw))
              && forall r :: r in results <==> exists route :: HasRoute(inp, route) && Produces(inp, gw, route, r)
  {
    if PlanFor(inp).Ok? {
      var gw := inp.snap.gateways[ObjectKey(inp.gwNamespace, inp.gwName)];
      KeyLeTotalOrder();
      SortFacts(RawResults(inp, gw), SortKey, KeyLe);
      MembersOfSort(RawResults(inp, gw), SortKey, KeyLe);
      RawResultsFrom(inp, gw);
    }
  }

  // ---------- Order independence ----------

  function RouteId(r: Route): (string, string) { (r.namespace, r.name) }

  /** Two enumerations of one route map. */
  ghost predicate SameRoutes(xs: seq<Route>, ys: seq<Route>) {
    && DistinctKeys(xs, RouteId) && DistinctKeys(ys, RouteId)
    && forall r :: r in xs <==> r in ys
  }

  lemma RouteResultsNamed(inp: Input, gw: Gateway, route: Route)
    ensures forall r :: r in RouteResults(inp, gw, route) ==> r.namespace == route.namespace && r.name == route.name
  {
    RouteResultsFrom(inp, gw, route);
    forall r | r in RouteResults(inp, gw, route) ensures r.namespace == route.namespace && r.name == route.name {
      ProducedShape(inp, gw, route, r);
    }
  }

  /** Only the route a key names contributes to its class. */
  lemma ClassBelongsToRoute(inp: Input, gw: Gateway, route: Route, k: seq<seq<int>>)
    ensures Owns(inp, gw, route, k) ==> |k| == 5 && k[0] == Codes(route.namespace) && k[1] == Codes(route.name)
  {
    var rs := RouteResults(inp, gw, route);
    RouteResultsNamed(inp, gw, route);
    ClassMembers(rs, SortKey, k);
    NoMembers(Class(rs, SortKey, k));
  }

  ghost predicate Owns(inp: Input, gw: Gateway, route: Route, k: seq<seq<int>>) {
    Class(RouteResults(inp, gw, route), SortKey, k) != []
  }

  lemma OwnerIsUnique(inp: Input, gw: Gateway, a: Route, b: Route, k: seq<seq<int>>)
    requires Owns(inp, gw, a, k) && Owns(inp, gw, b, k)
    ensures RouteId(a) == RouteId(b)
  {
    ClassBelongsToRoute(inp, gw, a, k);
    ClassBelongsToRoute(inp, gw, b, k);
    CodesInjective(a.namespace, b.namespace);
    CodesInjective(a.name, b.name);
  }

  lemma {:induction false} ClassWithoutOwner(inp: Input, gw: Gateway, routes: seq<Route>, k: seq<seq<int>>)
    requires forall r :: r in routes ==> !Owns(inp, gw, r, k)
    ensures Class(RoutesResults(inp, gw, routes), SortKey, k) == []
  {
    if routes != [] {
      var init, last := routes[..|routes| - 1], routes[|routes| - 1];
      ClassWithoutOwner(inp, gw, init, k);
      ClassConcat(RoutesResults(inp, gw, init), RouteResults(inp, gw, last), SortKey, k);
      assert !Owns(inp, gw, last, k);
    }
  }

  lemma {:induction false} ClassWithOwner(inp: Input, gw: Gateway, routes: seq<Route>, owner: Route, k: seq<seq<int>>)
    requires DistinctKeys(routes, RouteId) && owner in routes && Owns(inp, gw, owner, k)
    ensures Class(RoutesResults(inp, gw, routes), SortKey, k) == Class(RouteResults(inp, gw, owner), SortKey, k)
  {
    var n := |routes| - 1;
    var init, last := routes[..n], routes[n];
    ClassConcat(RoutesResults(inp, gw, init), RouteResults(inp, gw, last), SortKey, k);
    assert forall i :: 0 <= i < n ==> init[i] == routes[i];
    if last == owner {
      forall r | r in init ensures !Owns(inp, gw, r, k) {
        if Owns(inp, gw, r, k) { OwnerIsUnique(inp, gw, r, owner, k); }
      }
      ClassWithoutOwner(inp, gw, init, k);
    } else {
      assert owner in init;
      assert !Owns(inp, gw, last, k) by {
        if Owns(inp, gw, last, k) { OwnerIsUnique(inp, gw, last, owner, k); }
      }
      ClassWithOwner(inp, gw, init, owner, k);
    }
  }

  lemma ClassesAgree(inp: Input, inp': Input, gw: Gateway, xs: seq<Route>, ys: seq<Route>, k: seq<seq<int>>)
    requires SameRoutes(xs, ys) && SameContext(inp, inp')
    ensures Class(RoutesResults(inp, gw, xs), SortKey, k) == Class(RoutesResults(inp', gw, ys), SortKey, k)
  {
    ContextDecides(inp, inp', gw, ys);
    if owner :| owner in xs && Owns(inp, gw, owner, k) {
      ClassWithOwner(inp, gw, xs, owner, k);
      ClassWithOwner(inp, gw, ys, owner, k);
    } else {
      ClassWithoutOwner(inp, gw, xs, k);
      ClassWithoutOwner(inp, gw, ys, k);
    }
  }

  predicate SameContext(a: Input, b: Input) {
    a.gwNamespace == b.gwNamespace && a.gwName == b.gwName && a.generation == b.generation && a.snap == b.snap
  }

  lemma {:induction false} ContextDecidesRefs(a: Input, b: Input, gw: Gateway, route: Route, refs: seq<ParentRef>)
    requires SameContext(a, b)
    ensures RefsResults(a, gw, route, refs) == RefsResults(b, gw, route, refs)
  {
    if refs != [] { ContextDecidesRefs(a, b, gw, route, refs[..|refs| - 1]); }
  }

  lemma {:induction false} ContextDecides(a: Input, b: Input, gw: Gateway, routes: seq<Route>)
    requires SameContext(a, b)
    ensures RoutesResults(a, gw, routes) == RoutesResults(b, gw, routes)
  {
    if routes != [] {
      ContextDecides(a, b, gw, routes[..|routes| - 1]);
      ContextDecidesRefs(a, b, gw, routes[|routes| - 1], routes[|routes| - 1].parentRefs);
    }
  }

  // ---------- What the tally holds ----------

  ghost function AttachedKeys(rs: seq<RouteResult>, listener: string): set<string> {
    set r | r in rs && r.status.IsAttached() && r.listener == Some(listener) :: ResultKey(r)
  }

  /** No attached result is gateway-wide, so the gateway-wide counting branch never runs. */
  ghost predicate NoWideAttachment(rs: seq<RouteResult>) {
    forall r :: r in rs && r.status.IsAttached() ==> r.listener.Some?
  }

  lemma TallyOneAdds(att: Tally, ls: seq<Listener>, r: RouteResult, n: string)
    requires r.status.IsAttached() ==> r.listener.Some?
    ensures n in TallyOne(att, ls, r) <==> n in att
    ensures n in att ==>
              TallyOne(att, ls, r)[n] ==
              att[n] + if r.status.IsAttached() && r.listener == Some(n) then {ResultKey(r)} else {}
  {
  }

  lemma {:induction false} TallyIsAttachedKeys(att: Tally, ls: seq<Listener>, rs: seq<RouteResult>, n: string)
    requires NoWideAttachment(rs)
    ensures n in TallyAll(att, ls, rs) <==> n in att
    ensures n in att ==> TallyAll(att, ls, rs)[n] == att[n] + AttachedKeys(rs, n)
  {
    if rs != [] {
      var init, last := rs[..|rs| - 1], rs[|rs| - 1];
      TallyIsAttachedKeys(att, ls, init, n);
      TallyOneAdds(TallyAll(att, ls, init), ls, last, n);
      assert rs == init + [last];
      KeysOfAppend(init, last, n);
    }
  }

  lemma KeysOfAppend(init: seq<RouteResult>, last: RouteResult, n: string)
    ensures AttachedKeys(init + [last], n)
            == AttachedKeys(init, n)
              + (if last.status.IsAttached() && last.listener == Some(n) then {ResultKey(last)} else {})
  {
    var rs := init + [last];
    assert forall r :: r in rs <==> r in init || r == last;
  }

  lemma RawHasNoWideAttachment(inp: Input, gw: Gateway)
    ensures NoWideAttachment(RawResults(inp, gw))
  {
    RawResultsFrom(inp, gw);
    forall r | r in RawResults(inp, gw) && r.status.IsAttached() ensures r.listener.Some? {
      var route :| HasRoute(inp, route) && Produces(inp, gw, route, r);
      ProducedShape(inp, gw, route, r);
    }
  }

  lemma TallyAgrees(ls: seq<Listener>, xs: seq<RouteResult>, ys: seq<RouteResult>)
    requires NoWideAttachment(xs) && forall r :: r in xs <==> r in ys
    ensures TallyAll(EmptyTally(ls), ls, xs) == TallyAll(EmptyTally(ls), ls, ys)
  {
    var a, b := TallyAll(EmptyTally(ls), ls, xs), TallyAll(EmptyTally(ls), ls, ys);
    forall n ensures (n in a <==> n in b) && (n in a ==> a[n] == b[n]) {
      TallyIsAttachedKeys(EmptyTally(ls), ls, xs, n);
      TallyIsAttachedKeys(EmptyTally(ls), ls, ys, n);
      assert AttachedKeys(xs, n) == AttachedKeys(ys, n);
    }
  }

  /** Order independence: any enumeration order of the three route maps gives the identical plan. */
  lemma PlanIgnoresEnumerationOrder(a: Input, b: Input)
    requires SameContext(a, b)
    requires SameRoutes(a.http, b.http) && SameRoutes(a.tcp, b.tcp) && SameRoutes(a.tls, b.tls)
    ensures PlanFor(a) == PlanFor(b)
  {
    var key := ObjectKey(a.gwNamespace, a.gwName);
    if key in a.snap.gateways {
      var gw := a.snap.gateways[key];
      forall k ensures Class(RawResults(a, gw), SortKey, k) == Class(RawResults(b, gw), SortKey, k) {
        ClassesAgree(a, b, gw, a.http, b.http, k);
        ClassesAgree(a, b, gw, a.tcp, b.tcp, k);
        ClassesAgree(a, b, gw, a.tls, b.tls, k);
        RawClass(a, gw, k);
        RawClass(b, gw, k);
      }
      KeyLeTotalOrder();
      SortDeterminedByClasses(RawResults(a, gw), RawResults(b, gw), SortKey, KeyLe);
      SameSortSameMembers(RawResults(a, gw), RawResults(b, gw));
      RawHasNoWideAttachment(a, gw);
      TallyAgrees(gw.listeners, RawResults(a, gw), RawResults(b, gw));
    }
  }

  lemma RawClass(inp: Input, gw: Gateway, k: seq<seq<int>>)
    ensures Class(RawResults(inp, gw), SortKey, k) ==
            Class(RoutesResults(inp, gw, inp.http), SortKey, k) + Class(RoutesResults(inp, gw, inp.tcp), SortKey, k)
              + Class(RoutesResults(inp, gw, inp.tls), SortKey, k)
  {
    var http, tcp := RoutesResults(inp, gw, inp.http), RoutesResults(inp, gw, inp.tcp);
    var tls := RoutesResults(inp, gw, inp.tls);
    ClassConcat(http + tcp, tls, SortKey, k);
    ClassConcat(http, tcp, SortKey, k);
  }

  lemma SameSortSameMembers(xs: seq<RouteResult>, ys: seq<RouteResult>)
    requires Sort(xs, SortKey, KeyLe) == Sort(ys, SortKey, KeyLe)
    ensures forall r :: r in xs <==> r in ys
  {
    KeyLeTotalOrder();
    MembersOfSort(xs, SortKey, KeyLe);
    MembersOfSort(ys, SortKey, KeyLe);
  }

  // ---------- What the count means ----------

  type RouteIdentity = (RouteKind, string, string)

  ghost function AttachedIds(rs: seq<RouteResult>, listener: string): set<RouteIdentity> {
    set r | r in rs && r.status.IsAttached() && r.listener == Some(listener) :: (r.kind, r.namespace, r.name)
  }

  function IdKey(i: RouteIdentity): string { ObjectKey(i.1, i.2) }

  ghost predicate DistinctListeners(gw: Gateway) {
    forall i, j :: 0 <= i < j < |gw.listeners| ==> gw.listeners[i].name != gw.listeners[j].name
  }

  lemma ObjectKeyInjective(ns: string, n: string, ns': string, n': string)
    requires '/' !in ns && '/' !in ns' && ObjectKey(ns, n) == ObjectKey(ns', n')
    ensures ns == ns' && n == n'
  {
    var k := ObjectKey(ns, n);
    assert k[|ns|] == '/' && k[|ns'|] == '/';
    assert k[..|ns|] == ns && k[..|ns'|] == ns';
    assert !(|ns| < |ns'|) && !(|ns'| < |ns|);
    assert k[|ns| + 1..] == n && k[|ns'| + 1..] == n';
  }

  lemma {:induction false} InjectiveImageSize(ids: set<RouteIdentity>)
    requires forall a, b :: a in ids && b in ids && IdKey(a) == IdKey(b) ==> a == b
    ensures |set i | i in ids :: IdKey(i)| == |ids|
  {
    if ids != {} {
      var x :| x in ids;
      var rest := ids - {x};
      InjectiveImageSize(rest);
      assert (set i | i in ids :: IdKey(i)) == (set i | i in rest :: IdKey(i)) + {IdKey(x)};
      assert IdKey(x) !in (set i | i in rest :: IdKey(i));
    }
  }

  /** An attached result names a listener whose protocol fits the route's kind. */
  lemma AttachedFits(inp: Input, gw: Gateway, r: RouteResult) returns (i: nat)
    requires r in RawResults(inp, gw) && r.status.IsAttached()
    ensures i < |gw.listeners| && r.listener == Some(gw.listeners[i].name)
            && ProtocolFits(r.kind, gw.listeners[i].protocol)
  {
    RawResultsFrom(inp, gw);
    var route :| HasRoute(inp, route) && Produces(inp, gw, route, r);
    ProducedShape(inp, gw, route, r);
    i :| 0 <= i < |gw.listeners| && r.listener == Some(gw.listeners[i].name)
      && ProtocolFits(r.kind, gw.listeners[i].protocol);
  }

  /** One listener attaches routes of one kind only. */
  lemma OneKindPerListener(inp: Input, gw: Gateway, a: RouteResult, b: RouteResult)
    requires DistinctListeners(gw) && a in RawResults(inp, gw) && b in RawResults(inp, gw)
    requires a.status.IsAttached() && b.status.IsAttached() && a.listener == b.listener
    ensures a.kind == b.kind
  {
    var i := AttachedFits(inp, gw, a);
    var j := AttachedFits(inp, gw, b);
    assert i == j;
  }

  lemma KeysCountIds(inp: Input, gw: Gateway, listener: string)
    requires DistinctListeners(gw) && forall route :: HasRoute(inp, route) ==> '/' !in route.namespace
    ensures |AttachedKeys(RawResults(inp, gw), listener)| == |AttachedIds(RawResults(inp, gw), listener)|
  {
    var rs := RawResults(inp, gw);
    var ids := AttachedIds(rs, listener);
    RawResultsFrom(inp, gw);
    forall r | r in rs ensures '/' !in r.namespace {
      var route :| HasRoute(inp, route) && Produces(inp, gw, route, r);
      ProducedShape(inp, gw, route, r);
    }
    forall a, b | a in ids && b in ids && IdKey(a) == IdKey(b) ensures a == b {
      var x :| x in rs && x.status.IsAttached() && x.listener == Some(listener) && a == (x.kind, x.namespace, x.name);
      var y :| y in rs && y.status.IsAttached() && y.listener == Some(listener) && b == (y.kind, y.namespace, y.name);
      OneKindPerListener(inp, gw, x, y);
      ObjectKeyInjective(a.1, a.2, b.1, b.2);
    }
    InjectiveImageSize(ids);
    KeysAreImage(rs, listener);
  }

  lemma KeysAreImage(rs: seq<RouteResult>, listener: string)
    ensures AttachedKeys(rs, listener) == set i | i in AttachedIds(rs, listener) :: IdKey(i)
  {
    var keys, ids := AttachedKeys(rs, listener), AttachedIds(rs, listener);
    forall k | k in keys ensures exists i :: i in ids && IdKey(i) == k {
      var r :| r in rs && r.status.IsAttached() && r.listener == Some(listener) && ResultKey(r) == k;
      assert IdKey((r.kind, r.namespace, r.name)) == k;
    }
    forall i | i in ids ensures IdKey(i) in keys {
      var r :| r in rs && r.status.IsAttached() && r.listener == Some(listener) && i == (r.kind, r.namespace, r.name);
      assert ResultKey(r) == IdKey(i);
    }
  }

  lemma SortKeepsIds(raw: seq<RouteResult>, n: string)
    ensures AttachedIds(Sort(raw, SortKey, KeyLe), n) == AttachedIds(raw, n)
  {
    KeyLeTotalOrder();
    MembersOfSort(raw, SortKey, KeyLe);
  }

  lemma TallyCountsKeys(ls: seq<Listener>, raw: seq<RouteResult>, n: string)
    requires NoWideAttachment(raw) && n in ListenerNames(ls)
    ensures var att := TallyAll(EmptyTally(ls), ls, raw); n in att && att[n] == AttachedKeys(raw, n)
  {
    TallyIsAttachedKeys(EmptyTally(ls), ls, raw, n);
  }

  lemma TallyCountsIds(inp: Input, gw: Gateway, n: string)
    requires DistinctListeners(gw) && forall route :: HasRoute(inp, route) ==> '/' !in route.namespace
    requires n in ListenerNames(gw.listeners)
    ensures var att := TallyAll(EmptyTally(gw.listeners), gw.listeners, RawResults(inp, gw));
            n in att && |att[n]| == |AttachedIds(SortedResults(inp, gw), n)|
  {
    var raw := RawResults(inp, gw);
    RawHasNoWideAttachment(inp, gw);
    TallyCountsKeys(gw.listeners, raw, n);
    KeysCountIds(inp, gw, n);
    SortKeepsIds(raw, n);
  }

  /** What a summary should say: the number of distinct (kind, namespace, name) routes that have an
      attached result on the listener. */
  ghost function ExpectedSummary(results: seq<RouteResult>, l: Listener): Summary {
    var (accepted, reason, kinds) := Acceptance(l.protocol);
    Summary(l.name, |AttachedIds(results, l.name)|, kinds, accepted, reason)
  }

  lemma SummaryCounts(inp: Input, gw: Gateway, l: Listener)
    requires DistinctListeners(gw) && (forall route :: HasRoute(inp, route) ==> '/' !in route.namespace)
    requires l in gw.listeners
    ensures Summarize(TallyAll(EmptyTally(gw.listeners), gw.listeners, RawResults(inp, gw)), l)
            == ExpectedSummary(SortedResults(inp, gw), l)
  {
    assert l.name in ListenerNames(gw.listeners);
    TallyCountsIds(inp, gw, l.name);
  }

  /** The summaries are those of the listeners. */
  ghost predicate Summarized(summaries: seq<Summary>, results: seq<RouteResult>, ls: seq<Listener>) {
    forall s :: s in summaries <==> exists l :: l in ls && s == ExpectedSummary(results, l)
  }

  lemma UnsortedSummaries(inp: Input, gw: Gateway)
    requires DistinctListeners(gw) && forall route :: HasRoute(inp, route) ==> '/' !in route.namespace
    ensures var all := SummarizeAll(TallyAll(EmptyTally(gw.listeners), gw.listeners, RawResults(inp, gw)),
            gw.listeners);
            Summarized(all, SortedResults(inp, gw), gw.listeners)
  {
    var ls := gw.listeners;
    var all := SummarizeAll(TallyAll(EmptyTally(ls), ls, RawResults(inp, gw)), ls);
    forall i | 0 <= i < |ls|
      ensures all[i] == ExpectedSummary(SortedResults(inp, gw), ls[i])
    {
      SummaryCounts(inp, gw, ls[i]);
    }
    forall s ensures s in all <==> exists l :: l in ls && s == ExpectedSummary(SortedResults(inp, gw), l) {
      if l :| l in ls && s == ExpectedSummary(SortedResults(inp, gw), l) {
        var i :| 0 <= i < |ls| && ls[i] == l;
        assert all[i] in all;
      }
    }
  }

  lemma SortedSummaries(all: seq<Summary>)
    ensures var sorted := Sort(all, SummaryKey, StrLe);
            |sorted| == |all| && SortedBy(sorted, SummaryKey, StrLe) && forall s :: s in sorted <==> s in all
  {
    StrLeTotalOrder();
    SortFacts(all, SummaryKey, StrLe);
    MembersOfSort(all, SummaryKey, StrLe);
    var sorted := Sort(all, SummaryKey, StrLe);
    assert |sorted| == |multiset(sorted)| == |multiset(all)| == |all|;
  }

  /** Counting: with distinct listener names and no slash in namespaces, the plan has one summary per
      listener, by name, and each counts the distinct routes attached to that listener. */
  lemma SummariesCountRoutes(inp: Input, gw: Gateway)
    requires var key := ObjectKey(inp.gwNamespace, inp.gwName); key in inp.snap.gateways && gw == inp.snap.gateways[key]
    requires DistinctListeners(gw) && forall route :: HasRoute(inp, route) ==> '/' !in route.namespace
    ensures var plan := PlanFor(inp).value;
            && |plan.summaries| == |gw.listeners| && SortedBy(plan.summaries, SummaryKey, StrLe)
            && Summarized(plan.summaries, plan.results, gw.listeners)
  {
    var all := SummarizeAll(TallyAll(EmptyTally(gw.listeners), gw.listeners, RawResults(inp, gw)), gw.listeners);
    UnsortedSummaries(inp, gw);
    SortedSummaries(all);
    assert PlanFor(inp) == Ok(Plan(SortedResults(inp, gw), Sort(all, SummaryKey, StrLe)));
  }

  // ---------- Over the stored objects ----------

  function HttpId(r: HttpRoute): (string, string) { (r.meta.namespace.Or("default"), r.meta.name.Or("")) }

  function StreamId(r: StreamRoute): (string, string) { (r.meta.namespace.Or("default"), r.meta.name.Or("")) }

  /** Two enumerations of objects with namespaces and names of their own. */
  ghost predicate SameList<A(!new)>(xs: seq<A>, ys: seq<A>, id: A -> (string, string)) {
    DistinctKeys(xs, id) && DistinctKeys(ys, id) && forall x :: x in xs <==> x in ys
  }

  lemma ReadKeepsIds<A(!new)>(xs: seq<A>, f: A -> Route, id: A -> (string, string))
    requires DistinctKeys(xs, id) && forall x :: RouteId(f(x)) == id(x)
    ensures DistinctKeys(Mapped(xs, f), RouteId)
    ensures forall r :: r in Mapped(xs, f) <==> exists x :: x in xs && f(x) == r
  {
    var rs := Mapped(xs, f);
    forall i, j | 0 <= i < j < |rs| ensures RouteId(rs[i]) != RouteId(rs[j]) {
      assert id(xs[i]) != id(xs[j]);
    }
    forall r | r in rs ensures exists x :: x in xs && f(x) == r {
      var i :| 0 <= i < |rs| && rs[i] == r;
      assert xs[i] in xs && f(xs[i]) == r;
    }
    forall x | x in xs ensures f(x) in rs {
      var i :| 0 <= i < |xs| && xs[i] == x;
      assert rs[i] == f(x);
    }
  }

  lemma ReadSame<A(!new)>(xs: seq<A>, ys: seq<A>, f: A -> Route, id: A -> (string, string))
    requires SameList(xs, ys, id) && forall x :: RouteId(f(x)) == id(x)
    ensures SameRoutes(Mapped(xs, f), Mapped(ys, f))
  {
    ReadKeepsIds(xs, f, id);
    ReadKeepsIds(ys, f, id);
  }

  /** Order independence from the stored objects on: however the store lists them, the plan is the same. */
  lemma ObjectsDecidePlan(gwNamespace: string, gwName: string, generation: int, snap: Snapshot, a: Objects, b: Objects)
    requires SameList(a.http, b.http, HttpId) && SameList(a.tcp, b.tcp, StreamId) && SameList(a.tls, b.tls, StreamId)
    ensures PlanFor(ReadRoutes(gwNamespace, gwName, generation, snap, a))
         == PlanFor(ReadRoutes(gwNamespace, gwName, generation, snap, b))
  {
    ReadSame(a.http, b.http, OfHttp, HttpId);
    ReadSame(a.tcp, b.tcp, OfTcp, StreamId);
    ReadSame(a.tls, b.tls, OfTls, StreamId);
    PlanIgnoresEnumerationOrder(
      ReadRoutes(gwNamespace, gwName, generation, snap, a), ReadRoutes(gwNamespace, gwName, generation, snap, b));
  }

  /** A result is about a stored object of its kind. */
  ghost predicate About(o: Objects, r: RouteResult) {
    match r.kind
    case HTTPRoute => exists x :: x in o.http && HttpId(x) == (r.namespace, r.name)
    case TCPRoute => exists x :: x in o.tcp && StreamId(x) == (r.namespace, r.name)
    case TLSRoute => exists x :: x in o.tls && StreamId(x) == (r.namespace, r.name)
  }

  /** From the stored objects on: there is a plan exactly when the Gateway is known by its namespace and name, and
      every result is about a stored object and carries the given generation. */
  lemma ResultsAreAboutObjects(gwNamespace: string, gwName: string, generation: int, snap: Snapshot, o: Objects)
    ensures var plan := PlanFor(ReadRoutes(gwNamespace, gwName, generation, snap, o));
            && (plan.Ok? <==> gwNamespace + "/" + gwName in snap.gateways)
            && (plan.Ok? ==> forall r :: r in plan.value.results ==> About(o, r) && r.generation == generation)
  {
    var inp := ReadRoutes(gwNamespace, gwName, generation, snap, o);
    PlanResultsExact(inp);
    if PlanFor(inp).Ok? {
      forall r | r in PlanFor(inp).value.results ensures About(o, r) && r.generation == generation {
        ResultIsAbout(inp, o, r);
      }
    }
  }

  lemma ResultIsAbout(inp: Input, o: Objects, r: RouteResult)
    requires inp.http == Mapped(o.http, OfHttp) && inp.tcp == Mapped(o.tcp, OfTcp) && inp.tls == Mapped(o.tls, OfTls)
    requires PlanFor(inp).Ok? && r in PlanFor(inp).value.results
    ensures About(o, r) && r.generation == inp.generation
  {
    PlanResultsExact(inp);
    var gw := inp.snap.gateways[ObjectKey(inp.gwNamespace, inp.gwName)];
    var route :| HasRoute(inp, route) && Produces(inp, gw, route, r);
    ProducedShape(inp, gw, route, r);
    if route in inp.http {
      var i :| 0 <= i < |o.http| && inp.http[i] == route;
      assert o.http[i] in o.http;
    } else if route in inp.tcp {
      var i :| 0 <= i < |o.tcp| && inp.tcp[i] == route;
      assert o.tcp[i] in o.tcp;
    } else {
      var i :| 0 <= i < |o.tls| && inp.tls[i] == route;
      assert o.tls[i] in o.tls;
    }
  }
}
