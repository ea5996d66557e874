/** The proxy configuration and its validation. */
module Config {
  import opened Text

  datatype Addr = Addr(ip: nat, port: nat)

  /** A listen string: a socket address, or text that does not parse as one. */
  datatype Listen = At(addr: Addr) | Malformed(text: string)

  datatype ServerConfig = ServerConfig(
    listen: Addr, httpListens: seq<Addr>, httpsListen: Option<Addr>, disableHttp: bool)

  datatype UpstreamConfig = UpstreamConfig(backends: seq<string>)

  datatype RouteMatch = RouteMatch(
    host: Option<string>, path: Option<string>, pathPrefix: Option<string>, methods: seq<string>,
    headers: map<string, string>)

  /** For the unsupported filters only their presence matters; a rewrite path carries its replacement. */
  datatype UrlRewrite = UrlRewrite(hostname: Option<string>, path: Option<string>)
  datatype RouteFilters = RouteFilters(
    requestHeaders: bool, responseHeaders: bool, redirect: bool, mirror: bool, urlRewrite: Option<UrlRewrite>)

  datatype RouteTls = Auto | Off | AutoWithProvider(provider: string) | CertRef(cert: string)

  datatype RouteConfig = RouteConfig(
    name: Option<string>, rules: RouteMatch, upstream: string, tls: Option<RouteTls>,
    filters: Option<RouteFilters>, timeout: Option<nat>)

  datatype TlsMode = Acme | File | Mixed
  datatype AcmeConfig = AcmeConfig(certDomains: seq<seq<string>>, hasDefaultDns: bool, dnsProviders: set<string>)
  datatype FileCert = FileCert(name: string, cert: string, key: string, domains: seq<string>)
  datatype TlsConfig = TlsConfig(mode: TlsMode, acme: Option<AcmeConfig>, file: Option<seq<FileCert>>)

  datatype StreamUpstream = StreamUpstream(name: string, servers: seq<string>)

  /** `sniRoutes` is the route map in some enumeration order. */
  datatype StreamConfig = StreamConfig(
    name: string, listen: Listen, sniRoutes: seq<(string, string)>, defaultUpstream: Option<string>,
    upstreams: seq<StreamUpstream>)

  datatype Logging = Logging(accessEnabled: bool, filesEnabled: bool, error: string, access: string, acme: string)

  datatype Config = Config(
    server: ServerConfig, upstreams: map<string, UpstreamConfig>, routes: seq<RouteConfig>,
    tls: Option<TlsConfig>, streams: seq<StreamConfig>, logging: Logging)

  // ---------- What a valid configuration is ----------

  predicate LoggingOk(l: Logging) {
    && (l.accessEnabled ==> l.filesEnabled)
    && (l.filesEnabled ==> l.error != "" && l.access != "" && l.acme != "")
  }

  predicate FiltersOk(f: RouteFilters) {
    && !f.requestHeaders && !f.responseHeaders && !f.redirect && !f.mirror
    && (f.urlRewrite.Some? ==>
          && f.urlRewrite.value.hostname.None?
          && (f.urlRewrite.value.path.Some? ==> "/" <= f.urlRewrite.value.path.value))
  }

  predicate HasMatch(m: RouteMatch) {
    m.host.Some? || m.pathPrefix.Some? || m.path.Some? || m.methods != [] || m.headers != map[]
  }

  predicate RouteOk(c: Config, r: RouteConfig) {
    && r.upstream in c.upstreams
    && (r.filters.Some? ==> FiltersOk(r.filters.value))
    && r.timeout.None?
    && HasMatch(r.rules)
  }

  predicate AcmeOk(tls: TlsConfig) {
    tls.mode != File ==>
      match tls.acme
      case Some(a) => a.certDomains != [] && forall d :: d in a.certDomains ==> d != []
      case None => tls.mode == Mixed
  }

  /** At most one certificate without domains: the default one. */
  ghost predicate OneDefault(certs: seq<FileCert>) {
    forall i, j :: 0 <= i < j < |certs| ==> certs[i].domains != [] || certs[j].domains != []
  }

  ghost predicate FileOk(tls: TlsConfig) {
    tls.mode != Acme ==>
      match tls.file
      case Some(certs) => (certs == [] ==> tls.mode == Mixed) && OneDefault(certs)
      case None => tls.mode == Mixed
  }

  predicate RouteTlsOk(tls: TlsConfig, r: RouteConfig) {
    r.tls.Some? ==>
      match r.tls.value
      case Off => true
      case Auto => tls.acme.Some? && tls.acme.value.hasDefaultDns
      case AutoWithProvider(p) => tls.acme.Some? && p in tls.acme.value.dnsProviders
      case CertRef(n) => tls.file.Some? && exists k :: 0 <= k < |tls.file.value| && tls.file.value[k].name == n
  }

  function UpstreamNames(s: StreamConfig): set<string> {
    set i | 0 <= i < |s.upstreams| :: s.upstreams[i].name
  }

  /** Every upstream a stream's router can name. */
  function Routable(s: StreamConfig): set<string> {
    (set i | 0 <= i < |s.sniRoutes| :: s.sniRoutes[i].1)
      + (if s.defaultUpstream.Some? then {s.defaultUpstream.value} else {})
  }

  predicate StreamOk(s: StreamConfig) {
    && Routable(s) <= UpstreamNames(s)
    && s.upstreams != []
    && forall i :: 0 <= i < |s.upstreams| ==> s.upstreams[i].servers != []
  }

  predicate StreamAloneOk(s: StreamConfig) { !Blank(s.name) && s.listen.At? && StreamOk(s) }

  predicate StreamsApart(s: StreamConfig, t: StreamConfig) { s.name != t.name && s.listen != t.listen }

  /** The first `n` streams are good, with names and addresses of their own. */
  ghost predicate StreamsOkUpTo(streams: seq<StreamConfig>, n: nat)
    requires n <= |streams|
  {
    && (forall i :: 0 <= i < n ==> StreamAloneOk(streams[i]))
    && (forall i, j :: 0 <= i < j < n ==> StreamsApart(streams[i], streams[j]))
  }

  ghost predicate StreamsOk(streams: seq<StreamConfig>) { StreamsOkUpTo(streams, |streams|) }

  ghost predicate ValidConfig(c: Config) {
    && LoggingOk(c.logging)
    && (forall i :: 0 <= i < |c.routes| ==> RouteOk(c, c.routes[i]))
    && (forall u :: u in c.upstreams ==> c.upstreams[u].backends != [])
    && (c.tls.Some? ==>
          && AcmeOk(c.tls.value) && FileOk(c.tls.value)
          && forall i :: 0 <= i < |c.routes| ==> RouteTlsOk(c.tls.value, c.routes[i]))
    && StreamsOk(c.streams)
  }

  // ---------- Listen addresses ----------

  /** Drops every address that already occurred. */
  function Dedup(xs: seq<Addr>): seq<Addr> {
    if xs == [] then []
    else
      var d, last := Dedup(xs[..|xs| - 1]), xs[|xs| - 1];
      if last in d then d else d + [last]
  }

  method DedupLoop(xs: seq<Addr>) returns (addrs: seq<Addr>)
    ensures addrs == Dedup(xs)
  {
    addrs := [];
    var seen: set<Addr> := {};
    var i := 0;
    while i < |xs|
      invariant 0 <= i <= |xs| && addrs == Dedup(xs[..i])
      invariant forall a :: a in seen <==> a in addrs
    {
      assert xs[..i + 1][..i] == xs[..i];
      if xs[i] !in seen {
        seen := seen + {xs[i]};
        addrs := addrs + [xs[i]];
      }
      i := i + 1;
    }
    assert xs[..|xs|] == xs;
  }

  /** All HTTP listen sockets, `listen` first, duplicates removed. */
  method HttpListenAddrs(s: ServerConfig) returns (addrs: seq<Addr>)
    ensures addrs == Dedup([s.listen] + s.httpListens)
  {
    addrs := DedupLoop([s.listen] + s.httpListens);
  }

  /** The position of the first occurrence. */
  function FirstAt(xs: seq<Addr>, a: Addr): (i: nat)
    requires a in xs
    ensures i < |xs| && xs[i] == a && a !in xs[..i]
  {
    if xs[0] == a then 0
    else
      assert a in xs[1..];
      var i := FirstAt(xs[1..], a);
      assert xs[..i + 1] == [xs[0]] + xs[1..][..i];
      i + 1
  }

  /** Deduplication keeps each address exactly once, in order of first occurrence. */
  lemma {:induction false} DedupExact(xs: seq<Addr>)
    ensures forall a :: a in Dedup(xs) <==> a in xs
    ensures forall i, j :: 0 <= i < j < |Dedup(xs)| ==>
              Dedup(xs)[i] != Dedup(xs)[j] && Dedup(xs)[i] in xs && Dedup(xs)[j] in xs
              && FirstAt(xs, Dedup(xs)[i]) < FirstAt(xs, Dedup(xs)[j])
  {
    if xs != [] {
      var init, last := xs[..|xs| - 1], xs[|xs| - 1];
      DedupExact(init);
      assert xs == init + [last];
      forall a | a in init ensures FirstAt(xs, a) == FirstAt(init, a) { FirstAtPrefix(init, last, a); }
      if last !in init {
        assert FirstAt(xs, last) == |init|;
      }
    }
  }

  lemma FirstAtPrefix(init: seq<Addr>, last: Addr, a: Addr)
    requires a in init
    ensures FirstAt(init + [last], a) == FirstAt(init, a)
  {
    var i, k := FirstAt(init, a), FirstAt(init + [last], a);
    assert (init + [last])[i] == a;
    assert (init + [last])[..i] == init[..i];
  }

  /** Removing duplicates twice is removing them once. */
  lemma {:induction false} DedupAbsorbs(x: Addr, ys: seq<Addr>)
    ensures Dedup([x] + Dedup(ys)) == Dedup([x] + ys)
  {
    if ys != [] {
      var init, last := ys[..|ys| - 1], ys[|ys| - 1];
      DedupAbsorbs(x, init);
      assert ([x] + ys)[..|ys|] == [x] + init;
      DedupExact(init);
      DedupExact([x] + Dedup(init));
      DedupExact([x] + init);
      if last !in Dedup(init) {
        assert ([x] + (Dedup(init) + [last]))[..|Dedup(init)| + 1] == [x] + Dedup(init);
      }
    }
  }
}
