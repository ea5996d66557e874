/** The generated HTTP routes in the proxy: whether its router can be built from them, and which of two matching
    rules it prefers. */
module RouteLoading {
  import opened Text
  import opened Ordering
  import opened GatewayApi
  import opened ControllerState
  import opened Config
  import opened HttpRouting
  import opened HttpRendering
  import opened HttpMeaning
  import opened ConfigGenerator

  // ---------- Building the router ----------

  /** A star is allowed in front of the first dot only. */
  ghost predicate Compilable(pattern: string) { "*." <= pattern || '*' !in pattern }

  /** The first hostname of every rendered HTTPRoute compiles. */
  ghost predicate HostsCompile(st: GatewayState) {
    forall key, r, i: nat, j: nat :: (key, r) in st.httpRoutes && RenderedAt(st.endpoints, r, i, j) ==>
      r.hostnames == [] || Compilable(r.hostnames[0])
  }

  ghost predicate RouterBuilds(st: GatewayState) { exists routes :: CompilesTo(GeneratedRoutes(st), routes) }

  lemma ConfigCompilesIff(r: HttpRoute, i: nat, j: nat)
    requires i < |r.rules| && (r.rules[i].matches == [] || j < |r.rules[i].matches|)
    ensures CompileRoute(ConfigAt(r, i, j)).Ok? <==> r.hostnames == [] || Compilable(r.hostnames[0])
  {
  }

  lemma CompiledOneByOne(configs: seq<RouteConfig>)
    requires forall n :: 0 <= n < |configs| ==> CompileRoute(configs[n]).Ok?
    ensures exists routes :: CompilesTo(configs, routes)
  {
    var routes := seq(|configs|, n requires 0 <= n < |configs| => CompileRoute(configs[n]).value);
    assert CompilesTo(configs, routes);
  }

  /** The router builds from the generated routes exactly when no rendered HTTPRoute has a first hostname with a
      star elsewhere than in front. */
  lemma RouterBuildsIff(st: GatewayState)
    requires DistinctKeys(st.httpRoutes, EntryKey<HttpRoute>)
    ensures RouterBuilds(st) <==> HostsCompile(st)
  {
    var slots, configs := Slots(st), GeneratedRoutes(st);
    if RouterBuilds(st) {
      var routes :| CompilesTo(configs, routes);
      forall key, r, i: nat, j: nat | (key, r) in st.httpRoutes && RenderedAt(st.endpoints, r, i, j)
        ensures r.hostnames == [] || Compilable(r.hostnames[0])
      {
        var n := RenderedHasSlot(st, key, r, i, j);
        assert CompileRoute(configs[n]) == Ok(routes[n]);
        ConfigCompilesIff(r, i, j);
      }
    }
    if HostsCompile(st) {
      SlotsOfState(st);
      forall n | 0 <= n < |configs| ensures CompileRoute(configs[n]).Ok? {
        var s := slots[n];
        assert s in slots;
        var r :| (s.key, r) in st.httpRoutes && RouteSlot(st.endpoints, s.key, r, s);
        ConfigCompilesIff(r, s.rule, s.pos);
      }
      CompiledOneByOne(configs);
    }
  }

  /** All that a generated configuration needs to be served: to be valid, and to build. */
  lemma GeneratedLoadsIff(st: GatewayState)
    requires DistinctKeys(st.httpRoutes, EntryKey<HttpRoute>)
    ensures ValidConfig(Generate(st)) && RouterBuilds(st) <==>
            && NoRenderedTimeout(st) && HostsCompile(st)
            && (StreamEmitted(st) ==> HasStreamBackend(st) && StreamBackendsReady(st))
  {
    GeneratedValidIff(st);
    RouterBuildsIff(st);
  }

  // ---------- Two routes that show it ----------

  /** An accepted route with the given hostnames and rules. */
  ghost function AcceptedRoute(meta: Meta, hostnames: seq<string>, rules: seq<HttpRule>): HttpRoute {
    HttpRoute(meta, [], hostnames, rules,
              Some([ParentStatus(WICKET_CONTROLLER_NAME, [Condition("Accepted", "True")])]))
  }

  ghost function OneRoute(key: string, r: HttpRoute): GatewayState {
    GatewayState([], [(key, r)], [], [], map[], map[])
  }

  /** Rule `i` has one backend, and one match that is not a regular expression, or none. */
  ghost predicate PlainRule(r: HttpRoute, i: nat) {
    && i < |r.rules| && |r.rules[i].backendRefs| == 1
    && (r.rules[i].matches == [] || (|r.rules[i].matches| == 1 && !IsRegex(r.rules[i].matches[0])))
  }

  lemma PlainRuleIsRendered(meta: Meta, hostnames: seq<string>, rules: seq<HttpRule>, i: nat)
    requires PlainRule(AcceptedRoute(meta, hostnames, rules), i)
    ensures RenderedAt(map[], AcceptedRoute(meta, hostnames, rules), i, 0)
  {
    var r := AcceptedRoute(meta, hostnames, rules);
    assert AcceptedHere(r.status.value[0]);
    assert r.rules[i].backendRefs[..0] == [];
    BackendAddrsEmpty(map[], RouteNs(r), r.rules[i].backendRefs[0], 80);
  }

  /** A valid configuration whose router cannot be built: any first hostname with an inner star. */
  lemma InnerStarIsNotBuilt(key: string, meta: Meta, host: string, b: BackendRef)
    requires !Compilable(host)
    ensures var st := OneRoute(key, AcceptedRoute(meta, [host], [HttpRule([], [b], None)]));
            ValidConfig(Generate(st)) && !RouterBuilds(st)
  {
    var rules := [HttpRule([], [b], None)];
    var r := AcceptedRoute(meta, [host], rules);
    var st := OneRoute(key, r);
    PlainRuleIsRendered(meta, [host], rules, 0);
    assert (key, r) == st.httpRoutes[0];
    RouterBuildsIff(st);
    assert !StreamEmitted(st) by { ListenersExact(st, Stream); }
    GeneratedValidIff(st);
  }

  // ---------- Which rule answers ----------

  lemma LoneEarliestHit(key: string, r: HttpRoute, q: Request, upstream: string)
    requires Hit(OneRoute(key, r), q, key, r, 0, 0) && EarliestHit(OneRoute(key, r), q, upstream)
    ensures upstream == RuleName(r, 0)
  {
    var st := OneRoute(key, r);
    var key', r', i, j :| Hit(st, q, key', r', i, j) && upstream == RuleName(r', i)
      && forall k, s, x, y :: Hit(st, q, k, s, x, y) ==> (k, x, y) == (key', i, j) || Earlier(key', i, j, k, x, y);
    assert (key', r') == (key, r);
  }

  /** If the first match of a lone route holds, its first rule answers. */
  lemma FirstMatchAnswers(key: string, r: HttpRoute, q: Request, routes: seq<CompiledRoute>, m: Option<Routed>)
    requires RenderedAt(map[], r, 0, 0) && Holds(r, 0, 0, q)
    requires CompilesTo(GeneratedRoutes(OneRoute(key, r)), routes) && Decides(routes, q, m)
    ensures m.Some? && m.value.upstream == RuleName(r, 0)
  {
    var st := OneRoute(key, r);
    assert (key, r) == st.httpRoutes[0];
    assert Hit(st, q, key, r, 0, 0);
    RouterKeepsMeaning(st, routes, q, m);
    LoneEarliestHit(key, r, q, m.value.upstream);
  }

  /** Rule `i` matches by path alone, and that path match holds of `path`. */
  ghost predicate PathRule(r: HttpRoute, i: nat, kind: PathType, path: string) {
    && PlainRule(r, i) && r.rules[i].matches != []
    && var m := r.rules[i].matches[0];
       m.path.Some? && m.path.value.kind == kind && PathHolds(m.path, path) && m.headers == [] && m.method_.None?
  }

  /** List order decides, not the Gateway API's precedence of exact paths over prefixes: of a rule for exactly the
      path of a request and one for a prefix of it, the exact one answers if and only if it is listed first. */
  lemma ListOrderDecides(key: string, meta: Meta, rules: seq<HttpRule>, exact: nat, q: Request,
                         routes: seq<CompiledRoute>, m: Option<Routed>)
    requires |rules| == 2 && exact < 2
    requires var r := AcceptedRoute(meta, [], rules);
             && PathRule(r, exact, ExactPath, q.path) && PathRule(r, 1 - exact, PathPrefix, q.path)
             && CompilesTo(GeneratedRoutes(OneRoute(key, r)), routes) && Decides(routes, q, m)
    ensures m.Some?
    ensures m.value.upstream == RuleName(AcceptedRoute(meta, [], rules), exact) <==> exact == 0
  {
    PlainRuleIsRendered(meta, [], rules, 0);
    PathRuleAnswers(key, AcceptedRoute(meta, [], rules), exact, q, routes, m);
  }

  lemma PathRuleAnswers(
    key: string, r: HttpRoute, exact: nat, q: Request, routes: seq<CompiledRoute>, m: Option<Routed>)
    requires RenderedAt(map[], r, 0, 0) && r.hostnames == []
    requires exists kind :: PathRule(r, 0, kind, q.path)
    requires CompilesTo(GeneratedRoutes(OneRoute(key, r)), routes) && Decides(routes, q, m)
    ensures m.Some? && (m.value.upstream == RuleName(r, exact) <==> exact == 0)
  {
    FirstMatchAnswers(key, r, q, routes, m);
    RuleNamesEqualIff(r, 0, r, exact);
  }
}
