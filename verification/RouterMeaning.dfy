/** What the router decides, stated on the route configurations it was built from. */
module RouterMeaning {
  import opened Text
  import opened Names
  import opened Config
  import opened HttpRouting
  import opened HttpMeaning

  /** A configured route answers a request. */
  ghost predicate Answers(c: RouteConfig, q: Request) {
    && (c.rules.host.Some? ==>
          q.host.Some? && PatternMatches(ParsePattern(c.rules.host.value), HostName(q.host.value)))
    && PathAnswers(c.rules, q.path)
    && (c.rules.methods != [] ==>
          exists k :: 0 <= k < |c.rules.methods| && ToUpper(c.rules.methods[k]) == ToUpper(q.verb))
    && forall k :: k in c.rules.headers ==> k in q.headers && q.headers[k] == c.rules.headers[k]
  }

  /** An exact path goes before a prefix; a prefix that ends in a slash also covers the path without it. */
  ghost predicate PathAnswers(m: RouteMatch, path: string) {
    if m.path.Some? then path == m.path.value
    else m.pathPrefix.Some? ==> m.pathPrefix.value <= path || path + "/" == m.pathPrefix.value
  }

  /** The configured exact path, else the configured prefix, else the path of the request. */
  ghost function MatchedPrefix(m: RouteMatch, path: string): string {
    m.path.Or(m.pathPrefix.Or(path))
  }

  ghost function ConfiguredRewrite(c: RouteConfig): Option<UrlRewrite> {
    if c.filters.Some? then c.filters.value.urlRewrite else None
  }

  lemma HostAnswers(c: RouteConfig, r: CompiledRoute, q: Request)
    requires CompileRoute(c) == Ok(r)
    ensures (r.host.Some? ==> q.host.Some? && HostMatches(r.host.value, q.host.value)) <==>
            (c.rules.host.Some? ==>
               q.host.Some? && PatternMatches(ParsePattern(c.rules.host.value), HostName(q.host.value)))
  {
    if c.rules.host.Some? && q.host.Some? {
      HostMatcherAgreesWithPattern(c.rules.host.value, q.host.value);
    }
  }

  lemma MethodAnswers(c: RouteConfig, r: CompiledRoute, q: Request)
    requires CompileRoute(c) == Ok(r)
    ensures (r.methods != [] ==> ToUpper(q.verb) in r.methods) <==>
            (c.rules.methods != [] ==>
               exists k :: 0 <= k < |c.rules.methods| && ToUpper(c.rules.methods[k]) == ToUpper(q.verb))
  {
    assert |r.methods| == |c.rules.methods|;
    assert forall k :: 0 <= k < |r.methods| ==> r.methods[k] == ToUpper(c.rules.methods[k]);
  }

  /** Compilation keeps the meaning of every configured route. */
  lemma CompiledRouteAnswers(c: RouteConfig, r: CompiledRoute, q: Request)
    requires CompileRoute(c) == Ok(r)
    ensures RouteMatches(r, q) <==> Answers(c, q)
  {
    HostAnswers(c, r, q);
    MethodAnswers(c, r, q);
    if c.rules.path.None? && c.rules.pathPrefix.Some? { PrefixMeaning(c.rules.pathPrefix.value, q.path); }
  }

  /** The first configured route that answers. */
  ghost predicate FirstAnswer(configs: seq<RouteConfig>, q: Request, n: nat) {
    n < |configs| && Answers(configs[n], q) && forall k :: 0 <= k < n ==> !Answers(configs[k], q)
  }

  /** `d` is what configuration `c` says to do with a request for `path`. */
  ghost predicate DecidedBy(d: Routed, c: RouteConfig, path: string) {
    && d.name == c.name && d.upstream == c.upstream && d.rewrite == ConfiguredRewrite(c)
    && d.matchedPrefix == MatchedPrefix(c.rules, path)
  }

  lemma RoutedAsConfigured(c: RouteConfig, r: CompiledRoute, q: Request)
    requires CompileRoute(c) == Ok(r)
    ensures DecidedBy(RoutedBy(r, q), c, q.path)
  {
  }

  /** The decision on the configurations: nothing if and only if none answers; otherwise name, upstream, rewrite
      and matched prefix are those of the first that does. */
  lemma DecisionExact(configs: seq<RouteConfig>, routes: seq<CompiledRoute>, q: Request, m: Option<Routed>)
    requires CompilesTo(configs, routes) && Decides(routes, q, m)
    ensures m.None? <==> forall k :: 0 <= k < |configs| ==> !Answers(configs[k], q)
    ensures m.Some? ==> exists n: nat :: FirstAnswer(configs, q, n) && DecidedBy(m.value, configs[n], q.path)
  {
    forall k | 0 <= k < |configs| ensures RouteMatches(routes[k], q) <==> Answers(configs[k], q) {
      CompiledRouteAnswers(configs[k], routes[k], q);
    }
    if m.Some? {
      var n :| 0 <= n < |routes| && RouteMatches(routes[n], q) && m.value == RoutedBy(routes[n], q)
               && forall k :: 0 <= k < n ==> !RouteMatches(routes[k], q);
      RoutedAsConfigured(configs[n], routes[n], q);
      assert FirstAnswer(configs, q, n);
    }
  }
}
