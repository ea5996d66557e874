/** The HTTP data plane's router: compiled routes scanned for the first match. */
module HttpRouting {
  import opened Text
  import opened Names
  import opened Config

  datatype PathMatcher = PathExact(path: string) | PathStart(prefix: string)

  datatype CompiledRoute = CompiledRoute(
    name: Option<string>, upstream: string, host: Option<HostMatcher>, path: Option<PathMatcher>,
    methods: seq<string>, headers: map<string, string>, rewrite: Option<UrlRewrite>)

  datatype Request = Request(host: Option<string>, path: string, verb: string, headers: map<string, string>)

  datatype Routed = Routed(name: Option<string>, upstream: string, rewrite: Option<UrlRewrite>, matchedPrefix: string)

  function UpperAll(xs: seq<string>): (r: seq<string>)
    ensures |r| == |xs| && forall i :: 0 <= i < |xs| ==> r[i] == ToUpper(xs[i])
  {
    seq(|xs|, i requires 0 <= i < |xs| => ToUpper(xs[i]))
  }

  function CompilePath(m: RouteMatch): Option<PathMatcher> {
    if m.path.Some? then Some(PathExact(m.path.value))
    else if m.pathPrefix.Some? then Some(PathStart(m.pathPrefix.value))
    else None
  }

  function CompileRoute(r: RouteConfig): Result<CompiledRoute, HostError> {
    var rewrite := if r.filters.Some? then r.filters.value.urlRewrite else None;
    var rest := (h: Option<HostMatcher>) =>
      CompiledRoute(r.name, r.upstream, h, CompilePath(r.rules), UpperAll(r.rules.methods), r.rules.headers, rewrite);
    match r.rules.host
    case None => Ok(rest(None))
    case Some(pattern) =>
      match CompileHost(pattern)
      case Ok(m) => Ok(rest(Some(m)))
      case Err(e) => Err(e)
  }

  predicate PathMatches(m: PathMatcher, path: string) {
    match m
    case PathExact(p) => path == p
    case PathStart(p) => p <= path || (HasSuffix(p, "/") && path == p[..|p| - 1])
  }

  predicate RouteMatches(r: CompiledRoute, q: Request) {
    && (r.host.Some? ==> q.host.Some? && HostMatches(r.host.value, q.host.value))
    && (r.path.Some? ==> PathMatches(r.path.value, q.path))
    && (r.methods != [] ==> ToUpper(q.verb) in r.methods)
    && forall k :: k in r.headers ==> k in q.headers && q.headers[k] == r.headers[k]
  }

  function RoutedBy(r: CompiledRoute, q: Request): Routed {
    Routed(r.name, r.upstream, r.rewrite,
           match r.path
           case Some(PathExact(p)) => p
           case Some(PathStart(p)) => p
           case None => q.path)
  }

  /** Every configuration compiles, to the compiled route at the same place. */
  ghost predicate CompilesTo(configs: seq<RouteConfig>, routes: seq<CompiledRoute>) {
    && |routes| == |configs|
    && forall i :: 0 <= i < |configs| ==> CompileRoute(configs[i]) == Ok(routes[i])
  }

  /** Compiles all routes, in order, or reports the first that does not compile. */
  method Build(configs: seq<RouteConfig>) returns (r: Result<seq<CompiledRoute>, HostError>)
    ensures r.Ok? ==> CompilesTo(configs, r.value)
    ensures r.Err? ==> exists i :: 0 <= i < |configs| && CompileRoute(configs[i]) == Err(r.error)
                                   && forall k :: 0 <= k < i ==> CompileRoute(configs[k]).Ok?
  {
    var compiled: seq<CompiledRoute> := [];
    var i := 0;
    while i < |configs|
      invariant 0 <= i <= |configs| && CompilesTo(configs[..i], compiled)
    {
      var c := CompileRoute(configs[i]);
      if c.Err? {
        assert forall k :: 0 <= k < i ==> CompileRoute(configs[..i][k]).Ok? && configs[..i][k] == configs[k];
        return Err(c.error);
      }
      compiled := compiled + [c.value];
      i := i + 1;
    }
    assert configs[..|configs|] == configs;
    return Ok(compiled);
  }

  /** `m` is what the first matching route, in list order, yields; nothing when none matches. */
  ghost predicate Decides(routes: seq<CompiledRoute>, q: Request, m: Option<Routed>) {
    match m
    case None => forall i :: 0 <= i < |routes| ==> !RouteMatches(routes[i], q)
    case Some(d) =>
      exists i :: 0 <= i < |routes| && RouteMatches(routes[i], q) && d == RoutedBy(routes[i], q)
                  && forall k :: 0 <= k < i ==> !RouteMatches(routes[k], q)
  }

  method MatchRequest(routes: seq<CompiledRoute>, q: Request) returns (m: Option<Routed>)
    ensures Decides(routes, q, m)
  {
    var i := 0;
    while i < |routes|
      invariant 0 <= i <= |routes|
      invariant forall k :: 0 <= k < i ==> !RouteMatches(routes[k], q)
    {
      if RouteMatches(routes[i], q) {
        return Some(RoutedBy(routes[i], q));
      }
      i := i + 1;
    }
    return None;
  }
}
