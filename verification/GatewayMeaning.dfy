/** How far the rendered meaning of an HTTPRoute match is the Gateway API's: any hostname of the route may
    match, and a path prefix is a prefix of path elements. */
module GatewayMeaning {
  import opened Text
  import opened GatewayApi
  import opened Names
  import opened SniRouting
  import opened HttpRouting
  import opened HttpRendering
  import opened HttpMeaning

  ghost predicate AnyHostHolds(r: HttpRoute, q: Request) {
    || r.hostnames == []
    || (q.host.Some?
        && exists k :: 0 <= k < |r.hostnames| && PatternMatches(ParsePattern(r.hostnames[k]), HostName(q.host.value)))
  }

  ghost function WithoutSlash(v: string): string { if HasSuffix(v, "/") then v[..|v| - 1] else v }

  ghost predicate ElementsHold(p: Option<PathMatch>, path: string) {
    match p
    case Some(PathMatch(PathPrefix, v)) => path == WithoutSlash(v) || WithoutSlash(v) + "/" <= path
    case _ => PathHolds(p, path)
  }

  ghost predicate ApiHolds(r: HttpRoute, i: nat, j: nat, q: Request)
    requires i < |r.rules| && (r.rules[i].matches == [] || j < |r.rules[i].matches|)
  {
    && AnyHostHolds(r, q)
    && if r.rules[i].matches == [] then ElementsHold(None, q.path)
       else
         var m := r.rules[i].matches[j];
         && ElementsHold(m.path, q.path)
         && (m.method_.Some? ==> IsMethod(q.verb, m.method_.value))
         && HeadersHold(m.headers, q)
  }

  // ---------- Hostnames ----------

  /** The first hostname, read as a pattern, accepts the text of every other one. */
  ghost predicate FirstCovers(r: HttpRoute) {
    forall k :: 0 <= k < |r.hostnames| ==> PatternMatches(ParsePattern(r.hostnames[0]), ToLower(r.hostnames[k]))
  }

  ghost predicate PlainHostnames(r: HttpRoute) { forall h :: h in r.hostnames ==> ':' !in h }

  /** A pattern that accepts another pattern's text accepts every host the other accepts. */
  lemma CoveredPattern(a: string, b: string, host: string)
    requires PatternMatches(ParsePattern(a), ToLower(b)) && PatternMatches(ParsePattern(b), host)
    ensures PatternMatches(ParsePattern(a), host)
  {
    var text := ToLower(b);
    MatchByKey(a, text);
    MatchByKey(b, host);
    MatchByKey(a, host);
    if "*." <= text { StarHost(text); }
    assert WildcardKey(host).Some? ==> "*." <= WildcardKey(host).value;
  }

  /** A request for the text of hostname `k`. */
  ghost function RequestFor(r: HttpRoute, k: nat, path: string, verb: string, headers: map<string, string>): Request
    requires k < |r.hostnames|
  {
    Request(Some(ToLower(r.hostnames[k])), path, verb, headers)
  }

  lemma OwnTextMatches(r: HttpRoute, k: nat)
    requires k < |r.hostnames| && PlainHostnames(r)
    ensures HostName(ToLower(r.hostnames[k])) == ToLower(r.hostnames[k])
    ensures PatternMatches(ParsePattern(r.hostnames[k]), ToLower(r.hostnames[k]))
  {
    var h := r.hostnames[k];
    assert h in r.hostnames;
    LowerKeepsColons(h);
    PlainHostName(ToLower(h));
    MatchByKey(h, ToLower(h));
  }

  lemma HostsKept(r: HttpRoute, q: Request)
    requires FirstCovers(r)
    ensures HostHolds(r, q) <==> AnyHostHolds(r, q)
  {
    if r.hostnames != [] && q.host.Some? {
      var host := HostName(q.host.value);
      if k :| 0 <= k < |r.hostnames| && PatternMatches(ParsePattern(r.hostnames[k]), host) {
        CoveredPattern(r.hostnames[0], r.hostnames[k], host);
      }
    }
  }

  // ---------- Paths ----------

  ghost predicate WholeElements(p: Option<PathMatch>) {
    p.Some? && p.value.kind == PathPrefix ==> HasSuffix(p.value.value, "/")
  }

  lemma PathsKept(p: Option<PathMatch>, path: string)
    requires WholeElements(p)
    ensures PathHolds(p, path) <==> ElementsHold(p, path)
  {
    if p.Some? && p.value.kind == PathPrefix {
      var v := p.value.value;
      assert WithoutSlash(v) + "/" == v;
      if path + "/" == v { assert v[..|v| - 1] == path; }
    }
  }

  /** A prefix without a closing slash also accepts longer last elements. */
  lemma LongerElement(v: string)
    requires !HasSuffix(v, "/")
    ensures PathHolds(Some(PathMatch(PathPrefix, v)), v + "x") && !ElementsHold(Some(PathMatch(PathPrefix, v)), v + "x")
  {
    assert (v + "x")[|v|] == 'x' && (v + "/")[|v|] == '/';
  }

  /** A path that a match accepts in either reading. */
  ghost function SomePath(p: Option<PathMatch>): string { if p.None? then "/" else p.value.value }

  lemma SomePathHolds(p: Option<PathMatch>)
    requires p.None? || p.value.kind != RegularExpression
    ensures PathHolds(p, SomePath(p)) && ElementsHold(p, SomePath(p))
  {
    if p.Some? && p.value.kind == PathPrefix {
      var v := p.value.value;
      if HasSuffix(v, "/") { assert WithoutSlash(v) + "/" == v; }
    }
  }

  // ---------- Whole matches ----------

  ghost function PathOf(r: HttpRoute, i: nat, j: nat): Option<PathMatch>
    requires i < |r.rules| && (r.rules[i].matches == [] || j < |r.rules[i].matches|)
  {
    if r.rules[i].matches == [] then None else r.rules[i].matches[j].path
  }

  ghost function VerbOf(r: HttpRoute, i: nat, j: nat): string
    requires i < |r.rules| && (r.rules[i].matches == [] || j < |r.rules[i].matches|)
  {
    if r.rules[i].matches == [] || r.rules[i].matches[j].method_.None? then "GET"
    else MethodName(r.rules[i].matches[j].method_.value)
  }

  ghost function HeadersOf(r: HttpRoute, i: nat, j: nat): map<string, string>
    requires i < |r.rules| && (r.rules[i].matches == [] || j < |r.rules[i].matches|)
  {
    if r.rules[i].matches == [] then map[] else HeaderMap(r.rules[i].matches[j].headers)
  }

  /** With method and headers as the match wants them, only host and path decide. */
  lemma HostAndPathDecide(r: HttpRoute, i: nat, j: nat, host: Option<string>, path: string)
    requires i < |r.rules| && (r.rules[i].matches == [] || j < |r.rules[i].matches|)
    ensures var q := Request(host, path, VerbOf(r, i, j), HeadersOf(r, i, j));
            && (Holds(r, i, j, q) <==> HostHolds(r, q) && PathHolds(PathOf(r, i, j), path))
            && (ApiHolds(r, i, j, q) <==> AnyHostHolds(r, q) && ElementsHold(PathOf(r, i, j), path))
  {
    if r.rules[i].matches != [] {
      var m := r.rules[i].matches[j];
      if m.method_.Some? { MethodNameIsUpper(m.method_.value); }
      HeaderMapExact(m.headers);
    }
  }

  /** The exact condition under which a rendered match means for every request what the Gateway API says:
      the first hostname covers the others, and a path prefix ends in a slash. */
  lemma MeaningKeptIff(r: HttpRoute, i: nat, j: nat)
    requires i < |r.rules| && (r.rules[i].matches == [] || j < |r.rules[i].matches|)
    requires PlainHostnames(r) && (PathOf(r, i, j).Some? ==> PathOf(r, i, j).value.kind != RegularExpression)
    ensures (forall q :: Holds(r, i, j, q) <==> ApiHolds(r, i, j, q)) <==>
            FirstCovers(r) && WholeElements(PathOf(r, i, j))
  {
    if FirstCovers(r) && WholeElements(PathOf(r, i, j)) {
      forall q ensures Holds(r, i, j, q) <==> ApiHolds(r, i, j, q) {
        HostsKept(r, q);
        PathsKept(PathOf(r, i, j), q.path);
      }
    }
    if forall q :: Holds(r, i, j, q) <==> ApiHolds(r, i, j, q) {
      KeptMeansCovered(r, i, j);
      KeptMeansWhole(r, i, j);
    }
  }

  lemma KeptMeansCovered(r: HttpRoute, i: nat, j: nat)
    requires i < |r.rules| && (r.rules[i].matches == [] || j < |r.rules[i].matches|)
    requires PlainHostnames(r) && (PathOf(r, i, j).Some? ==> PathOf(r, i, j).value.kind != RegularExpression)
    requires forall q :: Holds(r, i, j, q) <==> ApiHolds(r, i, j, q)
    ensures FirstCovers(r)
  {
    var path := SomePath(PathOf(r, i, j));
    SomePathHolds(PathOf(r, i, j));
    forall k | 0 <= k < |r.hostnames| ensures PatternMatches(ParsePattern(r.hostnames[0]), ToLower(r.hostnames[k])) {
      var q := RequestFor(r, k, path, VerbOf(r, i, j), HeadersOf(r, i, j));
      OwnTextMatches(r, k);
      HostAndPathDecide(r, i, j, q.host, path);
      assert AnyHostHolds(r, q);
      assert Holds(r, i, j, q) <==> ApiHolds(r, i, j, q);
    }
  }

  lemma KeptMeansWhole(r: HttpRoute, i: nat, j: nat)
    requires i < |r.rules| && (r.rules[i].matches == [] || j < |r.rules[i].matches|)
    requires PlainHostnames(r) && (PathOf(r, i, j).Some? ==> PathOf(r, i, j).value.kind != RegularExpression)
    requires forall q :: Holds(r, i, j, q) <==> ApiHolds(r, i, j, q)
    ensures WholeElements(PathOf(r, i, j))
  {
    var p := PathOf(r, i, j);
    if p.Some? && p.value.kind == PathPrefix && !HasSuffix(p.value.value, "/") {
      var path := p.value.value + "x";
      LongerElement(p.value.value);
      var host := if r.hostnames == [] then None else Some(ToLower(r.hostnames[0]));
      if r.hostnames != [] { OwnTextMatches(r, 0); }
      HostAndPathDecide(r, i, j, host, path);
    }
  }
}
