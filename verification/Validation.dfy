/** The configuration validator: one check after the other, stopping at the first defect. */
module Validation {
  import opened Text
  import opened Config

  datatype ConfigError =
    | AccessLogWithoutFiles
    | EmptyLogFileName
    | UndefinedUpstream(route: RouteConfig)
    | UnsupportedFilter(route: RouteConfig)
    | RewritesHostname(route: RouteConfig)
    | RelativeRewrite(route: RouteConfig)
    | UnsupportedTimeout(route: RouteConfig)
    | NoMatchRules(route: RouteConfig)
    | EmptyUpstream(upstream: string)
    | NoAcmeCerts
    | AcmeCertWithoutDomain
    | NoAcmeSection
    | NoFileCerts
    | SeveralDefaultCerts(count: nat)
    | NoFileSection
    | UnknownProvider(route: RouteConfig)
    | AutoWithoutAcme(route: RouteConfig)
    | NoDefaultDns(route: RouteConfig)
    | UnknownCert(route: RouteConfig)
    | CertWithoutFile(route: RouteConfig)
    | BlankStreamName
    | DuplicateStreamName(name: string)
    | BadListen(text: string)
    | DuplicateListen(addr: Addr)
    | UndefinedDefault(stream: StreamConfig)
    | UndefinedSniTarget(stream: StreamConfig, sni: string)
    | NoStreamUpstream(stream: StreamConfig)
    | StreamUpstreamWithoutServer(stream: StreamConfig, upstream: string)

  type Outcome = Result<(), ConfigError>

  // ---------- What each error says ----------

  ghost predicate ExplainsRoute(c: Config, e: ConfigError) {
    match e
    case UndefinedUpstream(r) => r in c.routes && r.upstream !in c.upstreams
    case UnsupportedFilter(r) =>
      && r in c.routes && r.filters.Some?
      && var f := r.filters.value; f.requestHeaders || f.responseHeaders || f.redirect || f.mirror
    case RewritesHostname(r) =>
      && r in c.routes && r.filters.Some? && r.filters.value.urlRewrite.Some?
      && r.filters.value.urlRewrite.value.hostname.Some?
    case RelativeRewrite(r) =>
      && r in c.routes && r.filters.Some? && r.filters.value.urlRewrite.Some?
      && var path := r.filters.value.urlRewrite.value.path; path.Some? && !("/" <= path.value)
    case UnsupportedTimeout(r) => r in c.routes && r.timeout.Some?
    case NoMatchRules(r) => r in c.routes && !HasMatch(r.rules)
    case _ => false
  }

  ghost predicate ExplainsTls(c: Config, tls: TlsConfig, e: ConfigError) {
    match e
    case NoAcmeCerts => tls.mode != File && tls.acme.Some? && tls.acme.value.certDomains == []
    case AcmeCertWithoutDomain => tls.mode != File && tls.acme.Some? && [] in tls.acme.value.certDomains
    case NoAcmeSection => tls.mode == Acme && tls.acme.None?
    case NoFileCerts => tls.mode == File && tls.file == Some([])
    case SeveralDefaultCerts(n) => tls.mode != Acme && tls.file.Some? && !OneDefault(tls.file.value) && n > 1
    case NoFileSection => tls.mode == File && tls.file.None?
    case _ => ExplainsRouteTls(c, tls, e)
  }

  ghost predicate ExplainsRouteTls(c: Config, tls: TlsConfig, e: ConfigError) {
    match e
    case UnknownProvider(r) =>
      && r in c.routes && r.tls.Some? && r.tls.value.AutoWithProvider?
      && tls.acme.Some? && r.tls.value.provider !in tls.acme.value.dnsProviders
    case AutoWithoutAcme(r) =>
      r in c.routes && r.tls.Some? && (r.tls.value.Auto? || r.tls.value.AutoWithProvider?) && tls.acme.None?
    case NoDefaultDns(r) => r in c.routes && r.tls == Some(Auto) && tls.acme.Some? && !tls.acme.value.hasDefaultDns
    case UnknownCert(r) =>
      && r in c.routes && r.tls.Some? && r.tls.value.CertRef? && tls.file.Some?
      && forall k :: 0 <= k < |tls.file.value| ==> tls.file.value[k].name != r.tls.value.cert
    case CertWithoutFile(r) => r in c.routes && r.tls.Some? && r.tls.value.CertRef? && tls.file.None?
    case _ => false
  }

  ghost predicate ExplainsStream(streams: seq<StreamConfig>, e: ConfigError) {
    match e
    case BlankStreamName => exists i :: 0 <= i < |streams| && Blank(streams[i].name)
    case DuplicateStreamName(n) => exists i, j :: 0 <= i < j < |streams| && streams[i].name == streams[j].name == n
    case BadListen(t) => exists i :: 0 <= i < |streams| && streams[i].listen == Malformed(t)
    case DuplicateListen(a) => exists i, j :: 0 <= i < j < |streams| && streams[i].listen == streams[j].listen == At(a)
    case _ => exists i :: 0 <= i < |streams| && ExplainsOneStream(streams[i], e)
  }

  ghost predicate ExplainsOneStream(s: StreamConfig, e: ConfigError) {
    match e
    case UndefinedDefault(t) => t == s && s.defaultUpstream.Some? && s.defaultUpstream.value !in UpstreamNames(s)
    case UndefinedSniTarget(t, sni) =>
      t == s && exists i :: 0 <= i < |s.sniRoutes| && s.sniRoutes[i].0 == sni && s.sniRoutes[i].1 !in UpstreamNames(s)
    case NoStreamUpstream(t) => t == s && s.upstreams == []
    case StreamUpstreamWithoutServer(t, name) => t == s && StreamUpstream(name, []) in s.upstreams
    case _ => false
  }

  /** The reported error is a real defect of the configuration. */
  ghost predicate Explains(c: Config, e: ConfigError) {
    match e
    case AccessLogWithoutFiles => c.logging.accessEnabled && !c.logging.filesEnabled
    case EmptyLogFileName => c.logging.filesEnabled
      && (c.logging.error == "" || c.logging.access == "" || c.logging.acme == "")
    case EmptyUpstream(u) => u in c.upstreams && c.upstreams[u].backends == []
    case _ => ExplainsRoute(c, e) || (c.tls.Some? && ExplainsTls(c, c.tls.value, e)) || ExplainsStream(c.streams, e)
  }

  // ---------- Routes ----------

  method ValidateRouteFilters(c: Config, route: RouteConfig, f: RouteFilters) returns (r: Outcome)
    requires route in c.routes && route.filters == Some(f)
    ensures r.Ok? <==> FiltersOk(f)
    ensures r.Err? ==> ExplainsRoute(c, r.error)
  {
    if f.requestHeaders || f.responseHeaders || f.redirect || f.mirror {
      return Err(UnsupportedFilter(route));
    }
    if f.urlRewrite.Some? {
      var rewrite := f.urlRewrite.value;
      if rewrite.hostname.Some? {
        return Err(RewritesHostname(route));
      }
      if rewrite.path.Some? {
        if rewrite.path.value == "" || rewrite.path.value[0] != '/' {
          return Err(RelativeRewrite(route));
        }
      }
    }
    return Ok(());
  }

  method ValidateRoute(c: Config, route: RouteConfig) returns (r: Outcome)
    requires route in c.routes
    ensures r.Ok? <==> RouteOk(c, route)
    ensures r.Err? ==> ExplainsRoute(c, r.error)
  {
    if route.upstream !in c.upstreams {
      return Err(UndefinedUpstream(route));
    }
    if route.filters.Some? {
      r := ValidateRouteFilters(c, route, route.filters.value);
      if r.Err? { return; }
    }
    if route.timeout.Some? {
      return Err(UnsupportedTimeout(route));
    }
    var m := route.rules;
    var hasMatch := m.host.Some?;
    hasMatch := hasMatch || m.pathPrefix.Some?;
    hasMatch := hasMatch || m.path.Some?;
    hasMatch := hasMatch || m.methods != [];
    hasMatch := hasMatch || m.headers != map[];
    if !hasMatch {
      return Err(NoMatchRules(route));
    }
    return Ok(());
  }

  method ValidateRoutes(c: Config) returns (r: Outcome)
    ensures r.Ok? <==> forall i :: 0 <= i < |c.routes| ==> RouteOk(c, c.routes[i])
    ensures r.Err? ==> ExplainsRoute(c, r.error)
  {
    var i := 0;
    while i < |c.routes|
      invariant 0 <= i <= |c.routes|
      invariant forall k :: 0 <= k < i ==> RouteOk(c, c.routes[k])
    {
      r := ValidateRoute(c, c.routes[i]);
      if r.Err? { return; }
      i := i + 1;
    }
    return Ok(());
  }

  method ValidateUpstreams(c: Config) returns (r: Outcome)
    ensures r.Ok? <==> forall u :: u in c.upstreams ==> c.upstreams[u].backends != []
    ensures r.Err? ==> Explains(c, r.error)
  {
    var left := c.upstreams.Keys;
    while left != {}
      invariant left <= c.upstreams.Keys
      invariant forall u :: u in c.upstreams && u !in left ==> c.upstreams[u].backends != []
    {
      var u :| u in left;
      if c.upstreams[u].backends == [] {
        return Err(EmptyUpstream(u));
      }
      left := left - {u};
    }
    return Ok(());
  }

  // ---------- TLS ----------

  /** How many certificates have no domains. */
  method CountDefaults(certs: seq<FileCert>) returns (count: nat)
    ensures count <= 1 <==> OneDefault(certs)
  {
    count := 0;
    ghost var first := 0;
    var i := 0;
    while i < |certs|
      invariant 0 <= i <= |certs|
      invariant count == 0 ==> forall k :: 0 <= k < i ==> certs[k].domains != []
      invariant count >= 1 ==> first < i && certs[first].domains == []
      invariant count == 1 ==> forall k :: 0 <= k < i && k != first ==> certs[k].domains != []
      invariant count > 1 ==> !OneDefault(certs)
    {
      if certs[i].domains == [] {
        if count == 0 { first := i; }
        count := count + 1;
      }
      i := i + 1;
    }
  }

  method ValidateAcme(c: Config, tls: TlsConfig) returns (r: Outcome)
    ensures r.Ok? <==> AcmeOk(tls)
    ensures r.Err? ==> ExplainsTls(c, tls, r.error)
  {
    if tls.mode == Acme || tls.mode == Mixed {
      if tls.acme.Some? {
        var certs := tls.acme.value.certDomains;
        if certs == [] {
          return Err(NoAcmeCerts);
        }
        var i := 0;
        while i < |certs|
          invariant 0 <= i <= |certs| && forall k :: 0 <= k < i ==> certs[k] != []
        {
          if certs[i] == [] {
            assert certs[i] in tls.acme.value.certDomains;
            return Err(AcmeCertWithoutDomain);
          }
          i := i + 1;
        }
      } else if tls.mode == Acme {
        return Err(NoAcmeSection);
      }
    }
    return Ok(());
  }

  method ValidateFile(c: Config, tls: TlsConfig) returns (r: Outcome)
    ensures r.Ok? <==> FileOk(tls)
    ensures r.Err? ==> ExplainsTls(c, tls, r.error)
  {
    if tls.mode == File || tls.mode == Mixed {
      if tls.file.Some? {
        if tls.file.value == [] && tls.mode == File {
          return Err(NoFileCerts);
        }
        var count := CountDefaults(tls.file.value);
        if count > 1 {
          return Err(SeveralDefaultCerts(count));
        }
      } else if tls.mode == File {
        return Err(NoFileSection);
      }
    }
    return Ok(());
  }

  method CertExists(certs: seq<FileCert>, name: string) returns (found: bool)
    ensures found <==> exists k :: 0 <= k < |certs| && certs[k].name == name
  {
    var k := 0;
    while k < |certs|
      invariant 0 <= k <= |certs| && forall j :: 0 <= j < k ==> certs[j].name != name
    {
      if certs[k].name == name { return true; }
      k := k + 1;
    }
    return false;
  }

  /** The three checks of one route's TLS choice, in the order of the code. */
  method ValidateOneRouteTls(c: Config, tls: TlsConfig, route: RouteConfig) returns (r: Outcome)
    requires route in c.routes
    ensures r.Ok? <==> RouteTlsOk(tls, route)
    ensures r.Err? ==> ExplainsRouteTls(c, tls, r.error)
  {
    if route.tls.Some? {
      var choice := route.tls.value;
      var provider := if choice.AutoWithProvider? then Some(choice.provider) else None;
      if provider.Some? {
        if tls.acme.None? {
          return Err(AutoWithoutAcme(route));
        }
        if provider.value !in tls.acme.value.dnsProviders {
          return Err(UnknownProvider(route));
        }
      }
      if (choice.Auto? || choice.AutoWithProvider?) && provider.None? {
        if tls.acme.None? {
          return Err(AutoWithoutAcme(route));
        }
        if !tls.acme.value.hasDefaultDns {
          return Err(NoDefaultDns(route));
        }
      }
      if choice.CertRef? {
        if tls.file.None? {
          return Err(CertWithoutFile(route));
        }
        var found := CertExists(tls.file.value, choice.cert);
        if !found {
          return Err(UnknownCert(route));
        }
      }
    }
    return Ok(());
  }

  method ValidateRouteTls(c: Config, tls: TlsConfig) returns (r: Outcome)
    ensures r.Ok? <==> forall i :: 0 <= i < |c.routes| ==> RouteTlsOk(tls, c.routes[i])
    ensures r.Err? ==> ExplainsRouteTls(c, tls, r.error)
  {
    var i := 0;
    while i < |c.routes|
      invariant 0 <= i <= |c.routes|
      invariant forall k :: 0 <= k < i ==> RouteTlsOk(tls, c.routes[k])
    {
      r := ValidateOneRouteTls(c, tls, c.routes[i]);
      if r.Err? { return; }
      i := i + 1;
    }
    return Ok(());
  }

  // ---------- Streams ----------

  method NamesOf(ups: seq<StreamUpstream>) returns (names: set<string>)
    ensures names == set i | 0 <= i < |ups| :: ups[i].name
  {
    names := {};
    var i := 0;
    while i < |ups|
      invariant 0 <= i <= |ups| && names == set k | 0 <= k < i :: ups[k].name
    {
      names := names + {ups[i].name};
      i := i + 1;
    }
  }

  /** Every upstream a stream names is defined, and every one defined has a server. */
  method ValidateStream(s: StreamConfig) returns (r: Outcome)
    ensures r.Ok? <==> StreamOk(s)
    ensures r.Err? ==> ExplainsOneStream(s, r.error)
  {
    var names := NamesOf(s.upstreams);
    if s.defaultUpstream.Some? && s.defaultUpstream.value !in names {
      return Err(UndefinedDefault(s));
    }
    var i := 0;
    while i < |s.sniRoutes|
      invariant 0 <= i <= |s.sniRoutes| && forall k :: 0 <= k < i ==> s.sniRoutes[k].1 in names
    {
      if s.sniRoutes[i].1 !in names {
        return Err(UndefinedSniTarget(s, s.sniRoutes[i].0));
      }
      i := i + 1;
    }
    if s.upstreams == [] {
      return Err(NoStreamUpstream(s));
    }
    i := 0;
    while i < |s.upstreams|
      invariant 0 <= i <= |s.upstreams| && forall k :: 0 <= k < i ==> s.upstreams[k].servers != []
    {
      if s.upstreams[i].servers == [] {
        assert s.upstreams[i] == StreamUpstream(s.upstreams[i].name, []);
        return Err(StreamUpstreamWithoutServer(s, s.upstreams[i].name));
      }
      i := i + 1;
    }
    return Ok(());
  }

  /** `names` and `addrs` are what the first `n` streams use. */
  ghost predicate Taken(streams: seq<StreamConfig>, n: nat, names: set<string>, addrs: set<Addr>)
    requires n <= |streams|
  {
    && (forall x :: x in names <==> exists k :: 0 <= k < n && streams[k].name == x)
    && (forall a :: a in addrs <==> exists k :: 0 <= k < n && streams[k].listen == At(a))
  }

  /** One stream against those before it. */
  method ValidateNextStream(streams: seq<StreamConfig>, i: nat, names: set<string>, addrs: set<Addr>)
    returns (r: Outcome)
    requires i < |streams| && Taken(streams, i, names, addrs)
    ensures r.Ok? <==> StreamAloneOk(streams[i]) && streams[i].name !in names && streams[i].listen.addr !in addrs
    ensures r.Err? ==> ExplainsStream(streams, r.error)
  {
    var s := streams[i];
    TrimBlank(s.name);
    if Trim(s.name) == "" {
      return Err(BlankStreamName);
    }
    if s.name in names {
      return Err(DuplicateStreamName(s.name));
    }
    if s.listen.Malformed? {
      return Err(BadListen(s.listen.text));
    }
    if s.listen.addr in addrs {
      return Err(DuplicateListen(s.listen.addr));
    }
    r := ValidateStream(s);
  }

  lemma TakenNext(streams: seq<StreamConfig>, n: nat, names: set<string>, addrs: set<Addr>)
    requires n < |streams| && Taken(streams, n, names, addrs) && streams[n].listen.At?
    ensures Taken(streams, n + 1, names + {streams[n].name}, addrs + {streams[n].listen.addr})
  {
  }

  lemma ApartFromTaken(streams: seq<StreamConfig>, n: nat, names: set<string>, addrs: set<Addr>)
    requires n < |streams| && Taken(streams, n, names, addrs) && streams[n].listen.At?
    ensures (forall k :: 0 <= k < n ==> StreamsApart(streams[k], streams[n])) <==>
            streams[n].name !in names && streams[n].listen.addr !in addrs
  {
  }

  lemma StreamsOkNext(streams: seq<StreamConfig>, n: nat, names: set<string>, addrs: set<Addr>)
    requires n < |streams| && Taken(streams, n, names, addrs) && StreamsOkUpTo(streams, n)
    ensures StreamsOkUpTo(streams, n + 1) <==>
            StreamAloneOk(streams[n]) && streams[n].name !in names && streams[n].listen.addr !in addrs
  {
    if streams[n].listen.At? { ApartFromTaken(streams, n, names, addrs); }
    assert StreamsOkUpTo(streams, n + 1) <==>
      StreamAloneOk(streams[n]) && forall k :: 0 <= k < n ==> StreamsApart(streams[k], streams[n]);
  }

  /** Names and addresses already taken are kept in two growing sets. */
  method ValidateStreams(streams: seq<StreamConfig>) returns (r: Outcome)
    ensures r.Ok? <==> StreamsOk(streams)
    ensures r.Err? ==> ExplainsStream(streams, r.error)
  {
    var seenNames: set<string>, seenAddrs: set<Addr> := {}, {};
    var i := 0;
    while i < |streams|
      invariant 0 <= i <= |streams|
      invariant StreamsOkUpTo(streams, i) && Taken(streams, i, seenNames, seenAddrs)
    {
      r := ValidateNextStream(streams, i, seenNames, seenAddrs);
      StreamsOkNext(streams, i, seenNames, seenAddrs);
      if r.Err? { return; }
      TakenNext(streams, i, seenNames, seenAddrs);
      seenNames := seenNames + {streams[i].name};
      seenAddrs := seenAddrs + {streams[i].listen.addr};
      i := i + 1;
    }
    return Ok(());
  }

  // ---------- The whole configuration ----------

  method ValidateLogging(c: Config) returns (r: Outcome)
    ensures r.Ok? <==> LoggingOk(c.logging)
    ensures r.Err? ==> Explains(c, r.error)
  {
    var l := c.logging;
    if l.accessEnabled && !l.filesEnabled {
      return Err(AccessLogWithoutFiles);
    }
    if l.filesEnabled {
      if l.error == "" { return Err(EmptyLogFileName); }
      if l.access == "" { return Err(EmptyLogFileName); }
      if l.acme == "" { return Err(EmptyLogFileName); }
    }
    return Ok(());
  }

  method ValidateTls(c: Config, tls: TlsConfig) returns (r: Outcome)
    ensures r.Ok? <==>
            AcmeOk(tls) && FileOk(tls) && forall i :: 0 <= i < |c.routes| ==> RouteTlsOk(tls, c.routes[i])
    ensures r.Err? ==> ExplainsTls(c, tls, r.error)
  {
    r := ValidateAcme(c, tls);
    if r.Err? { return; }
    r := ValidateFile(c, tls);
    if r.Err? { return; }
    r := ValidateRouteTls(c, tls);
  }

  /** Accepts exactly the valid configurations, and every error it reports is real. */
  method Validate(c: Config) returns (r: Outcome)
    ensures r.Ok? <==> ValidConfig(c)
    ensures r.Err? ==> Explains(c, r.error)
  {
    r := ValidateLogging(c);
    if r.Err? { return; }
    r := ValidateRoutes(c);
    if r.Err? { return; }
    r := ValidateUpstreams(c);
    if r.Err? { return; }
    if c.tls.Some? {
      r := ValidateTls(c, c.tls.value);
      if r.Err? { return; }
    }
    r := ValidateStreams(c.streams);
  }
}
