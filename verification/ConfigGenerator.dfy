/** The whole generated configuration: listeners, routes, certificates and the stream. */
module ConfigGenerator {
  import opened Text
  import opened Decimal
  import opened Ordering
  import opened GatewayApi
  import opened ControllerState
  import opened Config
  import opened HttpRendering
  import HttpMeaning
  import CertRendering
  import Streams = StreamRendering

  // ---------- Listeners by protocol ----------

  datatype Family = Http | Https | Stream | Other

  function FamilyOf(p: Protocol): Family {
    match p
    case HTTP => Http
    case HTTPS => Https
    case TCP => Stream
    case TLS => Stream
    case UDP => Other
  }

  function Bucket(ls: seq<Listener>, f: Family): seq<Listener> {
    if ls == [] then []
    else Bucket(ls[..|ls| - 1], f) + if FamilyOf(ls[|ls| - 1].protocol) == f then [ls[|ls| - 1]] else []
  }

  function Buckets(gws: seq<(string, Gateway)>, f: Family): seq<Listener> {
    if gws == [] then [] else Buckets(gws[..|gws| - 1], f) + Bucket(gws[|gws| - 1].1.listeners, f)
  }

  /** The listeners of one family, gateways by key and listeners in declaration order. */
  function ListenersOf(st: GatewayState, f: Family): seq<Listener> { Buckets(InKeyOrder(st.gateways), f) }

  method BucketListeners(ls: seq<Listener>) returns (http: seq<Listener>, https: seq<Listener>, stream: seq<Listener>)
    ensures http == Bucket(ls, Http) && https == Bucket(ls, Https) && stream == Bucket(ls, Stream)
  {
    http, https, stream := [], [], [];
    var i := 0;
    while i < |ls|
      invariant 0 <= i <= |ls|
      invariant http == Bucket(ls[..i], Http) && https == Bucket(ls[..i], Https) && stream == Bucket(ls[..i], Stream)
    {
      assert ls[..i + 1][..i] == ls[..i];
      match ls[i].protocol {
        case HTTP => http := http + [ls[i]];
        case HTTPS => https := https + [ls[i]];
        case TCP => stream := stream + [ls[i]];
        case TLS => stream := stream + [ls[i]];
        case UDP =>
      }
      i := i + 1;
    }
    assert ls[..|ls|] == ls;
  }

  method BucketAll(st: GatewayState) returns (http: seq<Listener>, https: seq<Listener>, stream: seq<Listener>)
    ensures http == ListenersOf(st, Http) && https == ListenersOf(st, Https) && stream == ListenersOf(st, Stream)
  {
    var gws := InKeyOrder(st.gateways);
    http, https, stream := [], [], [];
    var i := 0;
    while i < |gws|
      invariant 0 <= i <= |gws|
      invariant http == Buckets(gws[..i], Http) && https == Buckets(gws[..i], Https)
                && stream == Buckets(gws[..i], Stream)
    {
      assert gws[..i + 1][..i] == gws[..i];
      var a, b, c := BucketListeners(gws[i].1.listeners);
      http, https, stream := http + a, https + b, stream + c;
      i := i + 1;
    }
    assert gws[..|gws|] == gws;
  }

  // ---------- The server section ----------

  const ANY_ADDRESS: nat := 0

  function AddrOf(l: Listener): Addr { Addr(ANY_ADDRESS, l.port) }

  function Addrs(ls: seq<Listener>): (r: seq<Addr>)
    ensures |r| == |ls| && forall i :: 0 <= i < |ls| ==> r[i] == AddrOf(ls[i])
  {
    seq(|ls|, i requires 0 <= i < |ls| => AddrOf(ls[i]))
  }

  const DEFAULT_SERVER := ServerConfig(Addr(ANY_ADDRESS, 8080), [], None, false)

  function ServerFor(http: seq<Listener>, https: seq<Listener>): ServerConfig {
    if http != [] then
      var httpsListen := if https != [] then Some(AddrOf(https[0])) else None;
      ServerConfig(AddrOf(http[0]), Dedup(Addrs(http[1..])), httpsListen, false)
    else if https != [] then ServerConfig(AddrOf(https[0]), [], Some(AddrOf(https[0])), true)
    else DEFAULT_SERVER
  }

  method ServerSection(http: seq<Listener>, https: seq<Listener>) returns (s: ServerConfig)
    ensures s == ServerFor(http, https)
  {
    s := ServerConfig(Addr(0, 8080), [], None, false);
    if http != [] {
      var more := DedupLoop(Addrs(http[1..]));
      s := s.(listen := Addr(0, http[0].port), httpListens := more);
      if https != [] {
        s := s.(httpsListen := Some(Addr(0, https[0].port)), disableHttp := false);
      }
    } else if https != [] {
      var addr := Addr(0, https[0].port);
      s := s.(listen := addr, httpsListen := Some(addr), disableHttp := true);
    }
  }

  /** When an HTTP listener exists the proxy listens on the declared HTTP ports: each exactly once, in order
      of first declaration (`DedupExact` says so of `Dedup`). */
  lemma HttpListensAreDeclared(st: GatewayState)
    requires ListenersOf(st, Http) != []
    ensures var s := ServerFor(ListenersOf(st, Http), ListenersOf(st, Https));
            && Dedup([s.listen] + s.httpListens) == Dedup(Addrs(ListenersOf(st, Http)))
            && !s.disableHttp
  {
    var http := ListenersOf(st, Http);
    DedupAbsorbs(AddrOf(http[0]), Addrs(http[1..]));
    assert Addrs(http) == [AddrOf(http[0])] + Addrs(http[1..]);
  }

  lemma {:induction false} BucketExact(ls: seq<Listener>, f: Family)
    ensures forall l :: l in Bucket(ls, f) <==> l in ls && FamilyOf(l.protocol) == f
  {
    if ls != [] {
      BucketExact(ls[..|ls| - 1], f);
      assert ls == ls[..|ls| - 1] + [ls[|ls| - 1]];
    }
  }

  lemma {:induction false} BucketsExact(gws: seq<(string, Gateway)>, f: Family)
    ensures forall l :: l in Buckets(gws, f) <==>
            FamilyOf(l.protocol) == f && exists g :: g in gws && l in g.1.listeners
  {
    if gws != [] {
      BucketsExact(gws[..|gws| - 1], f);
      BucketExact(gws[|gws| - 1].1.listeners, f);
      assert gws == gws[..|gws| - 1] + [gws[|gws| - 1]];
    }
  }

  /** A listener is in a bucket exactly when some gateway declares it with a protocol of that family. */
  lemma ListenersExact(st: GatewayState, f: Family)
    ensures forall l :: l in ListenersOf(st, f) <==>
            FamilyOf(l.protocol) == f && exists g :: g in st.gateways && l in g.1.listeners
  {
    StrLeTotalOrder();
    BucketsExact(InKeyOrder(st.gateways), f);
    MembersOfSort(st.gateways, EntryKey<Gateway>, StrLe);
  }

  // ---------- The configuration ----------

  const DEFAULT_LOGGING := Logging(false, false, "error.log", "access.log", "acme.log")

  predicate StreamEmitted(st: GatewayState) {
    (st.tcpRoutes != [] || st.tlsRoutes != []) && ListenersOf(st, Stream) != []
  }

  function StreamSection(l: Listener, acc: Streams.Acc): StreamConfig {
    StreamConfig("stream-" + Print(l.port), At(AddrOf(l)), Streams.SortedSni(acc), acc.catchAll, acc.upstreams)
  }

  function StreamsFor(st: GatewayState): seq<StreamConfig> {
    if StreamEmitted(st)
    then [StreamSection(ListenersOf(st, Stream)[0], Streams.ApplyAll(Streams.EMPTY, Streams.Uses(st)))]
    else []
  }

  function TlsFor(certs: seq<FileCert>): Option<TlsConfig> {
    if certs == [] then None else Some(TlsConfig(File, None, Some(certs)))
  }

  function Generate(st: GatewayState): Config {
    Config(ServerFor(ListenersOf(st, Http), ListenersOf(st, Https)), GeneratedUpstreams(st), GeneratedRoutes(st),
           TlsFor(CertRendering.GeneratedCerts(st)), StreamsFor(st), DEFAULT_LOGGING)
  }

  method GenerateConfig(st: GatewayState) returns (c: Config)
    ensures c == Generate(st)
  {
    var http, https, stream := BucketAll(st);
    var server := ServerSection(http, https);
    var routes, ups := RenderHttp(st);
    var certAcc := CertRendering.CollectCerts(st);
    CertRendering.CertsMergeUses(CertRendering.CertUses(st));
    var certs := CertRendering.CertList(certAcc);
    var tls := None;
    if certs != [] { tls := Some(TlsConfig(File, None, Some(certs))); }
    var streams := [];
    if st.tcpRoutes != [] || st.tlsRoutes != [] {
      var acc := Streams.RenderStreams(st);
      if stream != [] {
        streams := [StreamConfig("stream-" + Print(stream[0].port), At(Addr(0, stream[0].port)),
                                 Streams.SortedSni(acc), acc.catchAll, acc.upstreams)];
      }
    }
    c := Config(server, ups, routes, tls, streams, Logging(false, false, "error.log", "access.log", "acme.log"));
  }

  ghost predicate Declares(st: GatewayState, f: Family) {
    exists g, l :: g in st.gateways && l in g.1.listeners && FamilyOf(l.protocol) == f
  }

  lemma DeclaredIff(st: GatewayState, f: Family)
    ensures ListenersOf(st, f) != [] <==> Declares(st, f)
  {
    ListenersExact(st, f);
    var ls := ListenersOf(st, f);
    if ls != [] {
      assert ls[0] in ls;
      var g :| g in st.gateways && ls[0] in g.1.listeners;
    }
    if Declares(st, f) {
      var g, l :| g in st.gateways && l in g.1.listeners && FamilyOf(l.protocol) == f;
      assert l in ls;
    }
  }

  /** The generated proxy listens for plain HTTP unless the gateways declare HTTPS listeners and no HTTP one,
      and for HTTPS exactly when they declare an HTTPS one. */
  lemma ListensAsDeclared(st: GatewayState)
    ensures Generate(st).server.disableHttp <==> Declares(st, Https) && !Declares(st, Http)
    ensures Generate(st).server.httpsListen.Some? <==> Declares(st, Https)
  {
    DeclaredIff(st, Http);
    DeclaredIff(st, Https);
  }

  // ---------- Order independence ----------

  /** The same objects, each map in any enumeration order. */
  ghost predicate SameState(a: GatewayState, b: GatewayState) {
    && SameEntries(a.gateways, b.gateways) && SameEntries(a.httpRoutes, b.httpRoutes)
    && SameEntries(a.tcpRoutes, b.tcpRoutes) && SameEntries(a.tlsRoutes, b.tlsRoutes)
    && a.endpoints == b.endpoints && a.secrets == b.secrets
  }

  /** The generated configuration does not depend on how the controller's hash maps enumerate. */
  lemma GenerateIgnoresOrder(a: GatewayState, b: GatewayState)
    requires SameState(a, b)
    ensures Generate(a) == Generate(b)
  {
    SortedEntriesAgree(a.gateways, b.gateways);
    SortedEntriesAgree(a.httpRoutes, b.httpRoutes);
    SortedEntriesAgree(a.tcpRoutes, b.tcpRoutes);
    SortedEntriesAgree(a.tlsRoutes, b.tlsRoutes);
  }

  // ---------- Validity ----------

  /** No rendered match carries a timeout that parses: the proxy's validator refuses any. */
  ghost predicate NoRenderedTimeout(st: GatewayState) {
    forall key, r, i: nat, j: nat :: (key, r) in st.httpRoutes && RenderedAt(st.endpoints, r, i, j) ==>
      RuleTimeout(r.rules[i]).None?
  }

  /** Some accepted TLSRoute or TCPRoute names a backend. */
  ghost predicate HasStreamBackend(st: GatewayState) {
    exists e, k :: e in st.tlsRoutes + st.tcpRoutes && Accepted(e.1.status) && 0 <= k < |e.1.rules|
      && e.1.rules[k] != []
  }

  /** No backend of an accepted TLSRoute or TCPRoute is a Service known to have no endpoint. */
  ghost predicate StreamBackendsReady(st: GatewayState) {
    forall e, k, b :: e in st.tlsRoutes + st.tcpRoutes && Accepted(e.1.status) && 0 <= k < |e.1.rules|
      && b in e.1.rules[k]
      ==> !KnownEmpty(st.endpoints, Streams.StreamNs(e.1), b)
  }

  /** Of a rendered route only the timeout can be refused. */
  lemma RenderedRouteOkIff(st: GatewayState, n: nat)
    requires DistinctKeys(st.httpRoutes, EntryKey<HttpRoute>) && n < |Slots(st)|
    ensures RouteOk(Generate(st), Slots(st)[n].config) <==> Slots(st)[n].config.timeout.None?
  {
    HttpMeaning.SlotsOfState(st);
    HttpMeaning.UpstreamsExact(st);
    var s := Slots(st)[n];
    assert s in Slots(st);
    var r :| (s.key, r) in st.httpRoutes && RouteSlot(st.endpoints, s.key, r, s);
    assert HttpMeaning.RuleRendered(st.endpoints, st.httpRoutes, s.key, r, s.rule);
    RenderedHasMatch(st.endpoints, r, s.rule, s.pos);
  }

  lemma RoutesOkIff(st: GatewayState)
    requires DistinctKeys(st.httpRoutes, EntryKey<HttpRoute>)
    ensures (forall n :: 0 <= n < |Generate(st).routes| ==> RouteOk(Generate(st), Generate(st).routes[n])) <==>
            NoRenderedTimeout(st)
  {
    forall n | 0 <= n < |Slots(st)|
      ensures RouteOk(Generate(st), Slots(st)[n].config) <==> Slots(st)[n].config.timeout.None?
    {
      RenderedRouteOkIff(st, n);
    }
    TimeoutsOfSlots(st);
  }

  lemma RenderedHasMatch(eps: Endpoints, r: HttpRoute, i: nat, j: nat)
    requires RenderedAt(eps, r, i, j)
    ensures HasMatch(ConfigAt(r, i, j).rules)
  {
  }

  lemma TimeoutsOfSlots(st: GatewayState)
    requires DistinctKeys(st.httpRoutes, EntryKey<HttpRoute>)
    ensures (forall n :: 0 <= n < |Slots(st)| ==> Slots(st)[n].config.timeout.None?) <==> NoRenderedTimeout(st)
  {
    HttpMeaning.SlotsOfState(st);
    var slots := Slots(st);
    if NoRenderedTimeout(st) {
      forall n | 0 <= n < |slots| ensures slots[n].config.timeout.None? {
        assert slots[n] in slots;
      }
    }
    if forall n :: 0 <= n < |slots| ==> slots[n].config.timeout.None? {
      forall key, r, i: nat, j: nat | (key, r) in st.httpRoutes && RenderedAt(st.endpoints, r, i, j)
        ensures RuleTimeout(r.rules[i]).None?
      {
        var s := Slot(key, i, j, ConfigAt(r, i, j));
        assert SlotFrom(st.endpoints, st.httpRoutes, s);
        assert s in slots;
      }
    }
  }

  lemma UpstreamsNonEmpty(st: GatewayState)
    requires DistinctKeys(st.httpRoutes, EntryKey<HttpRoute>)
    ensures forall u :: u in GeneratedUpstreams(st) ==> GeneratedUpstreams(st)[u].backends != []
  {
    HttpMeaning.UpstreamsExact(st);
  }

  lemma TlsOk(st: GatewayState)
    requires Generate(st).tls.Some?
    ensures var c := Generate(st);
            AcmeOk(c.tls.value) && FileOk(c.tls.value) && forall i :: 0 <= i < |c.routes| ==>
              RouteTlsOk(c.tls.value, c.routes[i])
  {
    CertRendering.CertsHaveDomains(st);
    RoutesHaveNoTls(st);
  }

  lemma RoutesHaveNoTls(st: GatewayState)
    ensures forall i :: 0 <= i < |GeneratedRoutes(st)| ==> GeneratedRoutes(st)[i].tls.None?
  {
    var slots := Slots(st);
    SlotsHaveNoTls(st.endpoints, InKeyOrder(st.httpRoutes));
    forall i | 0 <= i < |slots| ensures slots[i].config.tls.None? { assert slots[i] in slots; }
  }

  lemma {:induction false} SlotsHaveNoTls(eps: Endpoints, entries: seq<(string, HttpRoute)>)
    ensures forall s :: s in EntrySlots(eps, entries) ==> s.config.tls.None?
  {
    if entries != [] {
      SlotsHaveNoTls(eps, entries[..|entries| - 1]);
      var (key, r) := entries[|entries| - 1];
      if Accepted(r.status) { RouteSlotsExact(eps, key, r); }
    }
  }

  lemma UseIsUpstream(us: seq<Streams.Use>, s: StreamConfig, u: Streams.Use)
    requires |s.upstreams| == |us| && u in us
    requires forall i :: 0 <= i < |us| ==> s.upstreams[i] == StreamUpstream(us[i].name, us[i].servers)
    ensures u.name in UpstreamNames(s)
  {
    var i :| 0 <= i < |us| && us[i] == u;
    assert s.upstreams[i].name == u.name;
  }

  /** Every upstream the rendered SNI routes name is one of the rendered upstreams. */
  lemma RoutableIsDefined(l: Listener, us: seq<Streams.Use>)
    ensures var s := StreamSection(l, Streams.ApplyAll(Streams.EMPTY, us)); Routable(s) <= UpstreamNames(s)
  {
    var acc := Streams.ApplyAll(Streams.EMPTY, us);
    var s := StreamSection(l, acc);
    Streams.ApplyAllMirrors(us);
    Streams.SortedSniFacts(acc);
    forall n | n in Routable(s) ensures n in UpstreamNames(s) {
      if s.defaultUpstream != Some(n) {
        var i :| 0 <= i < |s.sniRoutes| && s.sniRoutes[i].1 == n;
        assert s.sniRoutes[i] in acc.sni;
        UseIsUpstream(us, s, Streams.FirstClaimant(us, s.sniRoutes[i].0).value);
      } else {
        UseIsUpstream(us, s, Streams.FirstCatchAll(us).value);
      }
    }
  }

  /** What the generated stream needs to be valid: a use, and addresses for every use. */
  lemma StreamOkIff(st: GatewayState)
    requires StreamEmitted(st)
    ensures StreamOk(StreamsFor(st)[0]) <==>
            Streams.Uses(st) != [] && forall u :: u in Streams.Uses(st) ==> u.servers != []
  {
    var us, s := Streams.Uses(st), StreamsFor(st)[0];
    RoutableIsDefined(ListenersOf(st, Stream)[0], us);
    Streams.ApplyAllMirrors(us);
    assert forall i :: 0 <= i < |us| ==> us[i] in us && s.upstreams[i].servers == us[i].servers;
  }

  lemma UsesNonEmptyIff(st: GatewayState)
    ensures Streams.Uses(st) != [] <==> HasStreamBackend(st)
  {
    Streams.UsesExact(st);
    var us, all := Streams.Uses(st), st.tlsRoutes + st.tcpRoutes;
    if us != [] {
      var u := us[0];
      assert u in us;
      var tls := Streams.UseFrom(st.endpoints, st.tlsRoutes, true, u);
      var entries := if tls then st.tlsRoutes else st.tcpRoutes;
      var e, k, b :| e in entries && Accepted(e.1.status) && 0 <= k < |e.1.rules| && b in e.1.rules[k]
                     && u == Streams.UseOf(st.endpoints, Streams.StreamNs(e.1), b, Streams.HostnamesFor(e.1, tls));
      assert e in all && e.1.rules[k] != [];
    }
    if HasStreamBackend(st) {
      var e, k :| e in all && Accepted(e.1.status) && 0 <= k < |e.1.rules| && e.1.rules[k] != [];
      var u := UseOfEntry(st, e, k, e.1.rules[k][0]);
    }
  }

  /** Every backend reference of an accepted route is a use. */
  lemma UseOfEntry(st: GatewayState, e: (string, StreamRoute), k: nat, b: BackendRef) returns (u: Streams.Use)
    requires e in st.tlsRoutes + st.tcpRoutes && Accepted(e.1.status) && k < |e.1.rules| && b in e.1.rules[k]
    ensures u in Streams.Uses(st) && (u.servers == [] <==> KnownEmpty(st.endpoints, Streams.StreamNs(e.1), b))
  {
    Streams.UsesExact(st);
    var tls := e in st.tlsRoutes;
    var ns := Streams.StreamNs(e.1);
    u := Streams.UseOf(st.endpoints, ns, b, Streams.HostnamesFor(e.1, tls));
    assert Streams.UseFrom(st.endpoints, if tls then st.tlsRoutes else st.tcpRoutes, tls, u);
    BackendAddrsEmpty(st.endpoints, ns, b, Streams.DefaultPort(tls));
  }

  lemma UsesReadyIff(st: GatewayState)
    ensures (forall u :: u in Streams.Uses(st) ==> u.servers != []) <==> StreamBackendsReady(st)
  {
    Streams.UsesExact(st);
    var us, all := Streams.Uses(st), st.tlsRoutes + st.tcpRoutes;
    if StreamBackendsReady(st) {
      forall u | u in us ensures u.servers != [] {
        var tls := Streams.UseFrom(st.endpoints, st.tlsRoutes, true, u);
        var entries := if tls then st.tlsRoutes else st.tcpRoutes;
        var e, k, b :| e in entries && Accepted(e.1.status) && 0 <= k < |e.1.rules| && b in e.1.rules[k]
                       && u == Streams.UseOf(st.endpoints, Streams.StreamNs(e.1), b, Streams.HostnamesFor(e.1, tls));
        assert e in all;
        BackendAddrsEmpty(st.endpoints, Streams.StreamNs(e.1), b, Streams.DefaultPort(tls));
      }
    }
    if forall u :: u in us ==> u.servers != [] {
      forall e, k: nat, b | e in all && Accepted(e.1.status) && k < |e.1.rules| && b in e.1.rules[k]
        ensures !KnownEmpty(st.endpoints, Streams.StreamNs(e.1), b)
      {
        var u := UseOfEntry(st, e, k, b);
      }
    }
  }

  lemma StreamsOkIff(st: GatewayState)
    ensures StreamsOk(Generate(st).streams) <==> (StreamEmitted(st) ==> HasStreamBackend(st) && StreamBackendsReady(st))
  {
    if StreamEmitted(st) {
      StreamOkIff(st);
      UsesNonEmptyIff(st);
      UsesReadyIff(st);
      assert !IsSpace(StreamsFor(st)[0].name[0]);
      assert !Blank(StreamsFor(st)[0].name);
    }
  }

  /** The proxy accepts the generated configuration exactly when no rendered rule carries a parseable
      timeout and, if a stream is emitted, some accepted TLSRoute or TCPRoute has a backend and none of
      their backends is a Service known to be empty. */
  lemma GeneratedValidIff(st: GatewayState)
    requires DistinctKeys(st.httpRoutes, EntryKey<HttpRoute>)
    ensures ValidConfig(Generate(st)) <==>
            NoRenderedTimeout(st) && (StreamEmitted(st) ==> HasStreamBackend(st) && StreamBackendsReady(st))
  {
    RoutesOkIff(st);
    UpstreamsNonEmpty(st);
    StreamsOkIff(st);
    if Generate(st).tls.Some? { TlsOk(st); }
  }

  lemma OneSecondParses()
    ensures ParseDuration("1s") == Some(1)
  {
    assert TrimStart("1s") == "1s" && TrimEnd("1s") == "1s" && "1s"[..1] == "1";
    assert "1"[..0] == "" && AllDigits("1") && Read("1") == 1;
  }

  /** An accepted route with one rule: any one backend, no match, a one-second timeout. */
  function TimedRoute(meta: Meta, b: BackendRef): HttpRoute {
    HttpRoute(meta, [], [], [HttpRule([], [b], Some("1s"))],
      Some([ParentStatus(WICKET_CONTROLLER_NAME, [Condition("Accepted", "True")])]))
  }

  lemma TimedRouteIsRendered(meta: Meta, b: BackendRef)
    ensures RenderedAt(map[], TimedRoute(meta, b), 0, 0)
  {
    var r := TimedRoute(meta, b);
    assert AcceptedHere(r.status.value[0]);
    assert r.rules[0].backendRefs[..0] == [];
    BackendAddrsEmpty(map[], RouteNs(r), b, 80);
  }

  /** Both conditions are needed.  An accepted HTTPRoute with a one-second timeout is refused. */
  lemma TimeoutIsRefused(meta: Meta, key: string, b: BackendRef)
    ensures !ValidConfig(Generate(GatewayState([], [(key, TimedRoute(meta, b))], [], [], map[], map[])))
  {
    var st := GatewayState([], [(key, TimedRoute(meta, b))], [], [], map[], map[]);
    OneSecondParses();
    TimedRouteIsRendered(meta, b);
    assert (key, TimedRoute(meta, b)) in st.httpRoutes;
    GeneratedValidIff(st);
  }

  /** A TCPRoute that is not accepted, beside a TCP listener, makes the whole configuration invalid. */
  lemma PendingTcpRouteIsRefused(l: Listener, gw: string, key: string, meta: Meta)
    requires FamilyOf(l.protocol) == Stream
    ensures var st := GatewayState([(gw, Gateway(None, [l]))], [], [(key, StreamRoute(meta, [], [], [], None))], [],
            map[], map[]);
            !ValidConfig(Generate(st))
  {
    var g := (gw, Gateway(None, [l]));
    var st := GatewayState([g], [], [(key, StreamRoute(meta, [], [], [], None))], [], map[], map[]);
    ListenersExact(st, Stream);
    assert g in st.gateways && l in g.1.listeners;
    assert l in ListenersOf(st, Stream);
    GeneratedValidIff(st);
  }
}
