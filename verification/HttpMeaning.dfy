/** The rendered routes keep the meaning of the HTTPRoutes they come from. */
module HttpMeaning {
  import opened Text
  import opened Decimal
  import opened Ordering
  import opened GatewayApi
  import opened ControllerState
  import opened Names
  import opened HttpRouting
  import opened HttpRendering

  // ---------- What an HTTPRoute match says about a request ----------

  ghost predicate HostHolds(r: HttpRoute, q: Request) {
    r.hostnames == [] || (q.host.Some? && PatternMatches(ParsePattern(r.hostnames[0]), HostName(q.host.value)))
  }

  /** A prefix that ends in a slash also covers the path without that slash; no path match covers
      everything under the root. */
  ghost predicate PathHolds(p: Option<PathMatch>, path: string) {
    match p
    case None => path == "" || "/" <= path
    case Some(PathMatch(ExactPath, v)) => path == v
    case Some(PathMatch(PathPrefix, v)) => v <= path || path + "/" == v
    case Some(PathMatch(RegularExpression, _)) => false
  }

  /** The last header match of each name must hold. */
  ghost predicate HeadersHold(hs: seq<HeaderMatch>, q: Request) {
    forall a :: 0 <= a < |hs| && IsLast(hs, a) ==> hs[a].name in q.headers && q.headers[hs[a].name] == hs[a].value
  }

  ghost predicate IsLast(hs: seq<HeaderMatch>, a: nat)
    requires a < |hs|
  {
    forall b :: a < b < |hs| ==> hs[b].name != hs[a].name
  }

  ghost predicate Holds(r: HttpRoute, i: nat, j: nat, q: Request)
    requires i < |r.rules| && (r.rules[i].matches == [] || j < |r.rules[i].matches|)
  {
    && HostHolds(r, q)
    && if r.rules[i].matches == [] then PathHolds(None, q.path)
       else
         var m := r.rules[i].matches[j];
         && PathHolds(m.path, q.path)
         && (m.method_.Some? ==> IsMethod(q.verb, m.method_.value))
         && HeadersHold(m.headers, q)
  }

  /** The request's method, in any case of letters, is the one meant. */
  ghost predicate IsMethod(verb: string, m: Method) {
    var v := ToUpper(verb);
    match m
    case GET => v == "GET"
    case HEAD => v == "HEAD"
    case POST => v == "POST"
    case PUT => v == "PUT"
    case DELETE => v == "DELETE"
    case CONNECT => v == "CONNECT"
    case OPTIONS => v == "OPTIONS"
    case TRACE => v == "TRACE"
    case PATCH => v == "PATCH"
  }

  // ---------- One rendered route ----------

  lemma {:induction false} HeaderMapHas(hs: seq<HeaderMatch>, a: nat)
    requires a < |hs| && IsLast(hs, a)
    ensures hs[a].name in HeaderMap(hs) && HeaderMap(hs)[hs[a].name] == hs[a].value
  {
    var n := |hs| - 1;
    if a < n {
      assert hs[n].name != hs[a].name;
      assert IsLast(hs[..n], a);
      HeaderMapHas(hs[..n], a);
    }
  }

  lemma {:induction false} HeaderMapOnly(hs: seq<HeaderMatch>, k: string)
    requires k in HeaderMap(hs)
    ensures exists a :: 0 <= a < |hs| && IsLast(hs, a) && hs[a].name == k
  {
    var n := |hs| - 1;
    if hs[n].name == k {
      assert IsLast(hs, n);
    } else {
      HeaderMapOnly(hs[..n], k);
      var a :| 0 <= a < n && IsLast(hs[..n], a) && hs[..n][a].name == k;
      assert forall b :: a < b < n ==> hs[b] == hs[..n][b];
      assert IsLast(hs, a);
    }
  }

  lemma HeaderMapExact(hs: seq<HeaderMatch>)
    ensures forall a :: 0 <= a < |hs| && IsLast(hs, a) ==>
            hs[a].name in HeaderMap(hs) && HeaderMap(hs)[hs[a].name] == hs[a].value
    ensures forall k :: k in HeaderMap(hs) ==> exists a :: 0 <= a < |hs| && IsLast(hs, a) && hs[a].name == k
  {
    forall a | 0 <= a < |hs| && IsLast(hs, a)
      ensures hs[a].name in HeaderMap(hs) && HeaderMap(hs)[hs[a].name] == hs[a].value
    {
      HeaderMapHas(hs, a);
    }
    forall k | k in HeaderMap(hs) ensures exists a :: 0 <= a < |hs| && IsLast(hs, a) && hs[a].name == k {
      HeaderMapOnly(hs, k);
    }
  }

  lemma MethodNameIsUpper(m: Method)
    ensures ToUpper(MethodName(m)) == MethodName(m)
  {
  }

  lemma PrefixMeaning(v: string, path: string)
    ensures PathMatches(PathStart(v), path) <==> v <= path || path + "/" == v
  {
    if HasSuffix(v, "/") {
      assert v == v[..|v| - 1] + "/";
    }
    if path + "/" == v {
      assert v[|v| - 1..] == "/" && v[..|v| - 1] == path;
    }
  }

  lemma HostMeaning(r: HttpRoute, q: Request)
    requires r.hostnames != [] ==> CompileHost(r.hostnames[0]).Ok?
    ensures HostHolds(r, q) <==>
            r.hostnames == [] || (q.host.Some? && HostMatches(CompileHost(r.hostnames[0]).value, q.host.value))
  {
    if r.hostnames != [] && q.host.Some? {
      HostMatcherAgreesWithPattern(r.hostnames[0], q.host.value);
    }
  }

  lemma PathMeaning(r: HttpRoute, m: HttpMatch, path: string)
    requires !IsRegex(m)
    ensures var c := CompilePath(MatchRules(r, m)); c.Some? && (PathMatches(c.value, path) <==> PathHolds(m.path, path))
  {
    RootMeaning(path);
    if m.path.Some? { PrefixMeaning(m.path.value.value, path); }
  }

  lemma RootMeaning(path: string)
    ensures PathMatches(PathStart("/"), path) <==> PathHolds(None, path)
  {
    PrefixMeaning("/", path);
    assert path + "/" == "/" <==> path == "";
  }

  lemma MethodMeaning(m: HttpMatch, q: Request)
    ensures var methods := UpperAll(if m.method_.Some? then [MethodName(m.method_.value)] else []);
            (methods != [] ==> ToUpper(q.verb) in methods) <==>
              (m.method_.Some? ==> IsMethod(q.verb, m.method_.value))
  {
    if m.method_.Some? {
      MethodNameIsUpper(m.method_.value);
      assert UpperAll([MethodName(m.method_.value)]) == [MethodName(m.method_.value)];
    }
  }

  lemma HeadersMeaning(hs: seq<HeaderMatch>, q: Request)
    ensures (forall k :: k in HeaderMap(hs) ==> k in q.headers && q.headers[k] == HeaderMap(hs)[k]) <==>
            HeadersHold(hs, q)
  {
    HeaderMapExact(hs);
  }

  /** A rendered route, once compiled, matches exactly the requests its HTTPRoute match describes. */
  lemma RenderedMeaning(eps: Endpoints, r: HttpRoute, i: nat, j: nat, c: CompiledRoute, q: Request)
    requires RenderedAt(eps, r, i, j) && CompileRoute(ConfigAt(r, i, j)) == Ok(c)
    ensures RouteMatches(c, q) <==> Holds(r, i, j, q)
  {
    HostMeaning(r, q);
    if r.rules[i].matches == [] {
      RootMeaning(q.path);
    } else {
      var m := r.rules[i].matches[j];
      PathMeaning(r, m, q.path);
      MethodMeaning(m, q);
      HeadersMeaning(m.headers, q);
    }
  }

  // ---------- The whole router ----------

  /** Match `j` of rule `i` of the route stored under `key` is rendered and holds of the request. */
  ghost predicate Hit(st: GatewayState, q: Request, key: string, r: HttpRoute, i: nat, j: nat) {
    (key, r) in st.httpRoutes && RenderedAt(st.endpoints, r, i, j) && Holds(r, i, j, q)
  }

  /** (route key, rule index, match index) in lexicographic order. */
  ghost predicate Earlier(key: string, i: nat, j: nat, key': string, i': nat, j': nat) {
    if key != key' then StrLe(Codes(key), Codes(key')) else i < i' || (i == i' && j < j')
  }

  /** The decision is the upstream of the earliest hit. */
  ghost predicate EarliestHit(st: GatewayState, q: Request, upstream: string) {
    exists key, r, i, j ::
      && Hit(st, q, key, r, i, j) && upstream == RuleName(r, i)
      && forall key', r', i', j' :: Hit(st, q, key', r', i', j') ==>
         (key', i', j') == (key, i, j) || Earlier(key, i, j, key', i', j')
  }

  lemma SlotsOfState(st: GatewayState)
    requires DistinctKeys(st.httpRoutes, EntryKey<HttpRoute>)
    ensures Ordered(Slots(st))
    ensures forall s :: s in Slots(st) <==> SlotFrom(st.endpoints, st.httpRoutes, s)
  {
    SortedEntriesFacts(st.httpRoutes);
    EntrySlotsExact(st.endpoints, InKeyOrder(st.httpRoutes));
    forall s
      ensures SlotFrom(st.endpoints, InKeyOrder(st.httpRoutes), s) <==> SlotFrom(st.endpoints, st.httpRoutes, s)
    {
    }
  }

  /** A slot matches exactly when the match it was rendered from holds. */
  lemma SlotMeaning(st: GatewayState, routes: seq<CompiledRoute>, q: Request, n: nat) returns (r: HttpRoute)
    requires DistinctKeys(st.httpRoutes, EntryKey<HttpRoute>)
    requires CompilesTo(GeneratedRoutes(st), routes) && n < |routes|
    ensures var s := Slots(st)[n];
            && (s.key, r) in st.httpRoutes && RenderedAt(st.endpoints, r, s.rule, s.pos)
               && routes[n].upstream == RuleName(r, s.rule)
            && (RouteMatches(routes[n], q) <==> Hit(st, q, s.key, r, s.rule, s.pos))
  {
    SlotsOfState(st);
    var s := Slots(st)[n];
    assert s in Slots(st);
    r :| (s.key, r) in st.httpRoutes && RouteSlot(st.endpoints, s.key, r, s);
    assert GeneratedRoutes(st)[n] == s.config;
    RenderedMeaning(st.endpoints, r, s.rule, s.pos, routes[n], q);
  }

  lemma RenderedHasSlot(st: GatewayState, key: string, r: HttpRoute, i: nat, j: nat) returns (n: nat)
    requires DistinctKeys(st.httpRoutes, EntryKey<HttpRoute>)
    requires (key, r) in st.httpRoutes && RenderedAt(st.endpoints, r, i, j)
    ensures n < |Slots(st)| && Slots(st)[n] == Slot(key, i, j, ConfigAt(r, i, j))
  {
    SlotsOfState(st);
    var s := Slot(key, i, j, ConfigAt(r, i, j));
    assert RouteSlot(st.endpoints, key, r, s);
    assert SlotFrom(st.endpoints, st.httpRoutes, s);
    n :| 0 <= n < |Slots(st)| && Slots(st)[n] == s;
  }

  lemma SameKeySameRoute(st: GatewayState, key: string, a: HttpRoute, b: HttpRoute)
    requires DistinctKeys(st.httpRoutes, EntryKey<HttpRoute>) && (key, a) in st.httpRoutes && (key, b) in st.httpRoutes
    ensures a == b
  {
    var x :| 0 <= x < |st.httpRoutes| && st.httpRoutes[x] == (key, a);
    var y :| 0 <= y < |st.httpRoutes| && st.httpRoutes[y] == (key, b);
    assert EntryKey(st.httpRoutes[x]) == EntryKey(st.httpRoutes[y]);
  }

  lemma HitMatches(st: GatewayState, routes: seq<CompiledRoute>, q: Request, key: string, r: HttpRoute, i: nat, j: nat)
    returns (n: nat)
    requires DistinctKeys(st.httpRoutes, EntryKey<HttpRoute>) && CompilesTo(GeneratedRoutes(st), routes)
    requires Hit(st, q, key, r, i, j)
    ensures n < |routes| && RouteMatches(routes[n], q) && Slots(st)[n].key == key && Slots(st)[n].rule == i
            && Slots(st)[n].pos == j
  {
    n := RenderedHasSlot(st, key, r, i, j);
    var r' := SlotMeaning(st, routes, q, n);
    SameKeySameRoute(st, key, r, r');
  }

  /** Compilation keeps meaning: whenever the generated routes compile, the router's decision for every
      request is the upstream of the first match, in (route key, rule, match) order, that holds among the
      rendered ones; and it finds nothing exactly when none holds. */
  lemma RouterKeepsMeaning(st: GatewayState, routes: seq<CompiledRoute>, q: Request, m: Option<Routed>)
    requires DistinctKeys(st.httpRoutes, EntryKey<HttpRoute>)
    requires CompilesTo(GeneratedRoutes(st), routes) && Decides(routes, q, m)
    ensures m.None? <==> forall key, r, i, j :: !Hit(st, q, key, r, i, j)
    ensures m.Some? ==> EarliestHit(st, q, m.value.upstream)
  {
    if m.None? {
      forall key, r, i: nat, j: nat ensures !Hit(st, q, key, r, i, j) {
        if Hit(st, q, key, r, i, j) { var n := HitMatches(st, routes, q, key, r, i, j); }
      }
    } else {
      var n :| 0 <= n < |routes| && RouteMatches(routes[n], q) && m.value == RoutedBy(routes[n], q)
               && forall k :: 0 <= k < n ==> !RouteMatches(routes[k], q);
      FirstMatchIsEarliest(st, routes, q, n);
    }
  }

  lemma FirstMatchIsEarliest(st: GatewayState, routes: seq<CompiledRoute>, q: Request, n: nat)
    requires DistinctKeys(st.httpRoutes, EntryKey<HttpRoute>) && CompilesTo(GeneratedRoutes(st), routes)
    requires n < |routes| && RouteMatches(routes[n], q) && forall k :: 0 <= k < n ==> !RouteMatches(routes[k], q)
    ensures EarliestHit(st, q, routes[n].upstream)
  {
    var r := SlotMeaning(st, routes, q, n);
    var s := Slots(st)[n];
    assert Hit(st, q, s.key, r, s.rule, s.pos);
    forall key', r', i': nat, j': nat | Hit(st, q, key', r', i', j')
      ensures (key', i', j') == (s.key, s.rule, s.pos) || Earlier(s.key, s.rule, s.pos, key', i', j')
    {
      LaterHit(st, routes, q, n, key', r', i', j');
    }
  }

  lemma LaterHit(
    st: GatewayState, routes: seq<CompiledRoute>, q: Request, n: nat, key: string, r: HttpRoute, i: nat, j: nat)
    requires DistinctKeys(st.httpRoutes, EntryKey<HttpRoute>) && CompilesTo(GeneratedRoutes(st), routes)
    requires n < |routes| && forall k :: 0 <= k < n ==> !RouteMatches(routes[k], q)
    requires Hit(st, q, key, r, i, j)
    ensures var s := Slots(st)[n]; (key, i, j) == (s.key, s.rule, s.pos) || Earlier(s.key, s.rule, s.pos, key, i, j)
  {
    var n' := HitMatches(st, routes, q, key, r, i, j);
    SlotsOfState(st);
    assert n <= n';
    assert n < n' ==> SlotBefore(Slots(st)[n], Slots(st)[n']);
  }

  // ---------- Which backends an upstream name stands for ----------

  /** Rule `i` of the route stored under `key` is rendered with at least one address. */
  ghost predicate RuleRendered(eps: Endpoints, entries: seq<(string, HttpRoute)>, key: string, r: HttpRoute, i: nat) {
    (key, r) in entries && Accepted(r.status) && i < |r.rules| && RuleBackends(eps, r, i) != []
  }

  /** `d` is what some rendered rule defines. */
  ghost predicate Defines(eps: Endpoints, entries: seq<(string, HttpRoute)>, d: Definition) {
    exists key, r, i :: RuleRendered(eps, entries, key, r, i) && d == (RuleName(r, i), RuleBackends(eps, r, i))
  }

  lemma {:induction false} RouteDefinitionsExact(eps: Endpoints, r: HttpRoute, n: nat)
    requires n <= |r.rules|
    ensures forall d :: d in RouteDefinitions(eps, r, n) <==>
              exists i :: 0 <= i < n && RuleBackends(eps, r, i) != [] && d == (RuleName(r, i), RuleBackends(eps, r, i))
  {
    if n > 0 {
      RouteDefinitionsExact(eps, r, n - 1);
      forall d | d in RouteDefinitions(eps, r, n)
        ensures exists i ::
                  0 <= i < n && RuleBackends(eps, r, i) != [] && d == (RuleName(r, i), RuleBackends(eps, r, i))
      {
        assert d in RouteDefinitions(eps, r, n - 1) || d == (RuleName(r, n - 1), RuleBackends(eps, r, n - 1));
      }
    }
  }

  lemma {:induction false} EntryDefinitionsExact(eps: Endpoints, entries: seq<(string, HttpRoute)>)
    ensures forall d :: d in EntryDefinitions(eps, entries) <==> Defines(eps, entries, d)
  {
    if entries != [] {
      var init := entries[..|entries| - 1];
      var (key, r) := entries[|entries| - 1];
      assert entries == init + [(key, r)];
      EntryDefinitionsExact(eps, init);
      RouteDefinitionsExact(eps, r, |r.rules|);
      forall d | d in EntryDefinitions(eps, entries) ensures Defines(eps, entries, d) {
        if d in EntryDefinitions(eps, init) {
          var k, q, i :| RuleRendered(eps, init, k, q, i) && d == (RuleName(q, i), RuleBackends(eps, q, i));
          assert RuleRendered(eps, entries, k, q, i);
        } else {
          var i :| 0 <= i < |r.rules| && RuleBackends(eps, r, i) != []
                   && d == (RuleName(r, i), RuleBackends(eps, r, i));
          assert RuleRendered(eps, entries, key, r, i);
        }
      }
      forall d | Defines(eps, entries, d) ensures d in EntryDefinitions(eps, entries) {
        var k, q, i :| RuleRendered(eps, entries, k, q, i) && d == (RuleName(q, i), RuleBackends(eps, q, i));
        if (k, q) in init {
          assert RuleRendered(eps, init, k, q, i);
          assert Defines(eps, init, d);
        }
      }
    }
  }

  lemma {:induction false} InsertAllExact(ds: seq<Definition>)
    ensures forall u :: u in InsertAll(map[], ds) ==> (u, InsertAll(map[], ds)[u].backends) in ds
    ensures forall d :: d in ds ==> d.0 in InsertAll(map[], ds)
  {
    if ds != [] {
      InsertAllExact(ds[..|ds| - 1]);
      assert ds == ds[..|ds| - 1] + [ds[|ds| - 1]];
    }
  }

  /** Every generated upstream is what some rendered rule of that name defines, and every rendered rule
      has one. */
  lemma UpstreamsExact(st: GatewayState)
    requires DistinctKeys(st.httpRoutes, EntryKey<HttpRoute>)
    ensures forall u :: u in GeneratedUpstreams(st) ==>
            Defines(st.endpoints, st.httpRoutes, (u, GeneratedUpstreams(st)[u].backends))
    ensures forall key, r, i: nat :: RuleRendered(st.endpoints, st.httpRoutes, key, r, i) ==>
            RuleName(r, i) in GeneratedUpstreams(st)
  {
    var entries := InKeyOrder(st.httpRoutes);
    SortedEntriesFacts(st.httpRoutes);
    EntryDefinitionsExact(st.endpoints, entries);
    InsertAllExact(EntryDefinitions(st.endpoints, entries));
    SameDefinitions(st.endpoints, entries, st.httpRoutes);
    forall key, r, i: nat | RuleRendered(st.endpoints, st.httpRoutes, key, r, i)
      ensures RuleName(r, i) in GeneratedUpstreams(st)
    {
      assert Defines(st.endpoints, st.httpRoutes, (RuleName(r, i), RuleBackends(st.endpoints, r, i)));
    }
  }

  lemma SameDefinitions(eps: Endpoints, xs: seq<(string, HttpRoute)>, ys: seq<(string, HttpRoute)>)
    requires forall e :: e in xs <==> e in ys
    ensures forall d :: Defines(eps, xs, d) <==> Defines(eps, ys, d)
  {
    forall d ensures Defines(eps, xs, d) <==> Defines(eps, ys, d) {
      assert forall k, r, i :: RuleRendered(eps, xs, k, r, i) <==> RuleRendered(eps, ys, k, r, i);
    }
  }

  /** What the generated name keeps of a route: namespace and name, joined by a dash. */
  ghost function Joined(r: HttpRoute): string { RouteNs(r) + "-" + RouteName(r) }

  /** Two rules get one upstream name exactly when their routes join alike and they have the same index. */
  lemma RuleNamesEqualIff(a: HttpRoute, i: nat, b: HttpRoute, k: nat)
    ensures RuleName(a, i) == RuleName(b, k) <==> Joined(a) == Joined(b) && i == k
  {
    assert RuleName(a, i) == Joined(a) + ("-rule" + Print(i)) && RuleName(b, k) == Joined(b) + ("-rule" + Print(k));
    if RuleName(a, i) == RuleName(b, k) {
      LastDashSplits(Joined(a), Print(i), Joined(b), Print(k));
      PrintInjective(i, k);
    }
  }

  /** Routes whose namespace and name join alike have the same backends, rule by rule. */
  ghost predicate NamesUnambiguous(st: GatewayState) {
    forall k, r, k', r', i: nat ::
      && RuleRendered(st.endpoints, st.httpRoutes, k, r, i)
      && RuleRendered(st.endpoints, st.httpRoutes, k', r', i)
      && Joined(r) == Joined(r')
      ==> RuleBackends(st.endpoints, r, i) == RuleBackends(st.endpoints, r', i)
  }

  /** Every rendered rule's upstream holds that rule's own backends. */
  ghost predicate OwnBackends(st: GatewayState) {
    forall k, r, i :: RuleRendered(st.endpoints, st.httpRoutes, k, r, i) ==>
      && RuleName(r, i) in GeneratedUpstreams(st)
      && GeneratedUpstreams(st)[RuleName(r, i)].backends == RuleBackends(st.endpoints, r, i)
  }

  /** Traffic reaches the rule's own backends for every rule exactly when upstream names are unambiguous:
      a later rule of the same name overwrites the entry. */
  lemma OwnBackendsIffUnambiguous(st: GatewayState)
    requires DistinctKeys(st.httpRoutes, EntryKey<HttpRoute>)
    ensures OwnBackends(st) <==> NamesUnambiguous(st)
  {
    UpstreamsExact(st);
    if NamesUnambiguous(st) {
      forall k, r, i: nat | RuleRendered(st.endpoints, st.httpRoutes, k, r, i)
        ensures RuleName(r, i) in GeneratedUpstreams(st)
        ensures GeneratedUpstreams(st)[RuleName(r, i)].backends == RuleBackends(st.endpoints, r, i)
      {
        DefinedByOwnRule(st, k, r, i);
      }
    }
    if OwnBackends(st) {
      forall k, r, k', r', i: nat |
        RuleRendered(st.endpoints, st.httpRoutes, k, r, i) && RuleRendered(st.endpoints, st.httpRoutes, k', r', i)
        && Joined(r) == Joined(r')
        ensures RuleBackends(st.endpoints, r, i) == RuleBackends(st.endpoints, r', i)
      {
        RuleNamesEqualIff(r, i, r', i);
      }
    }
  }

  lemma DefinedByOwnRule(st: GatewayState, k: string, r: HttpRoute, i: nat)
    requires DistinctKeys(st.httpRoutes, EntryKey<HttpRoute>) && NamesUnambiguous(st)
    requires RuleRendered(st.endpoints, st.httpRoutes, k, r, i) && RuleName(r, i) in GeneratedUpstreams(st)
    ensures GeneratedUpstreams(st)[RuleName(r, i)].backends == RuleBackends(st.endpoints, r, i)
  {
    var d := (RuleName(r, i), GeneratedUpstreams(st)[RuleName(r, i)].backends);
    UpstreamsExact(st);
    assert Defines(st.endpoints, st.httpRoutes, d);
    var k', r', i' :| RuleRendered(st.endpoints, st.httpRoutes, k', r', i')
                      && d == (RuleName(r', i'), RuleBackends(st.endpoints, r', i'));
    RuleNamesEqualIff(r, i, r', i');
  }

  ghost function JoinedOf(e: (string, HttpRoute)): string { Joined(e.1) }

  /** A condition on namespaces and names alone: traffic reaches its own backends whenever no two routes
      join alike. */
  lemma DistinctJoinsKeepBackends(st: GatewayState)
    requires DistinctKeys(st.httpRoutes, EntryKey<HttpRoute>) && DistinctKeys(st.httpRoutes, JoinedOf)
    ensures OwnBackends(st)
  {
    forall k, r, k', r', i: nat |
      RuleRendered(st.endpoints, st.httpRoutes, k, r, i) && RuleRendered(st.endpoints, st.httpRoutes, k', r', i)
      && Joined(r) == Joined(r')
      ensures RuleBackends(st.endpoints, r, i) == RuleBackends(st.endpoints, r', i)
    {
      var x :| 0 <= x < |st.httpRoutes| && st.httpRoutes[x] == (k, r);
      var y :| 0 <= y < |st.httpRoutes| && st.httpRoutes[y] == (k', r');
      assert JoinedOf(st.httpRoutes[x]) == JoinedOf(st.httpRoutes[y]);
    }
    OwnBackendsIffUnambiguous(st);
  }

  ghost function RouteIdentity(e: (string, HttpRoute)): (string, string) { (RouteNs(e.1), RouteName(e.1)) }

  /** Which is so when no namespace contains a dash. */
  lemma DashFreeNamespacesKeepBackends(st: GatewayState)
    requires DistinctKeys(st.httpRoutes, EntryKey<HttpRoute>) && DistinctKeys(st.httpRoutes, RouteIdentity)
    requires forall e :: e in st.httpRoutes ==> '-' !in RouteNs(e.1)
    ensures OwnBackends(st)
  {
    var es := st.httpRoutes;
    forall i, j | 0 <= i < j < |es| ensures JoinedOf(es[i]) != JoinedOf(es[j]) {
      assert es[i] in es && es[j] in es && RouteIdentity(es[i]) != RouteIdentity(es[j]);
      if JoinedOf(es[i]) == JoinedOf(es[j]) {
        FirstDashSplits(RouteNs(es[i].1), RouteName(es[i].1), RouteNs(es[j].1), RouteName(es[j].1));
      }
    }
    DistinctJoinsKeepBackends(st);
  }

  /** An accepted route with one rule and one backend of its own namespace. */
  ghost function PlainRoute(ns: string, name: string, backend: string): HttpRoute {
    HttpRoute(Meta(Some(ns), Some(name)), [], [],
              [HttpRule([], [BackendRef("", "Service", backend, None, None)], None)],
              Some([ParentStatus(WICKET_CONTROLLER_NAME, [Condition("Accepted", "True")])]))
  }

  lemma PlainRouteBackends(ns: string, name: string, backend: string)
    ensures var r := PlainRoute(ns, name, backend);
            && Accepted(r.status)
               && RuleBackends(map[], r, 0) == [backend + "." + ns + ".svc.cluster.local:" + Print(80)]
  {
    var r := PlainRoute(ns, name, backend);
    assert AcceptedHere(r.status.value[0]);
    var refs := r.rules[0].backendRefs;
    assert refs[..0] == [] && RefsAddrs(map[], ns, []) == [];
    assert RefsAddrs(map[], ns, refs) == [] + BackendAddrs(map[], ns, refs[0], 80);
  }

  /** It fails when a dash moves between namespace and name: of two such routes, each with one backend of the same
      name and with no endpoints known, one gets the other's address.  (Routes that join alike but have the same
      addresses lose nothing: `OwnBackendsIffUnambiguous`.) */
  lemma MovedDashLosesBackends(key: string, key': string, ns: string, x: string, name: string, backend: string)
    requires key != key'
    ensures var a, b := PlainRoute(ns, x + "-" + name, backend), PlainRoute(ns + "-" + x, name, backend);
            !OwnBackends(GatewayState([], [(key, a), (key', b)], [], [], map[], map[]))
  {
    var a, b := PlainRoute(ns, x + "-" + name, backend), PlainRoute(ns + "-" + x, name, backend);
    var st := GatewayState([], [(key, a), (key', b)], [], [], map[], map[]);
    PlainRouteBackends(ns, x + "-" + name, backend);
    PlainRouteBackends(ns + "-" + x, name, backend);
    assert ns + "-" + (x + "-" + name) == ns + "-" + x + "-" + name;
    assert (key, a) == st.httpRoutes[0] && (key', b) == st.httpRoutes[1];
    assert RuleRendered(st.endpoints, st.httpRoutes, key, a, 0)
           && RuleRendered(st.endpoints, st.httpRoutes, key', b, 0);
    assert |RuleBackends(map[], a, 0)[0]| < |RuleBackends(map[], b, 0)[0]|;
    if EntryKey(st.httpRoutes[0]) == EntryKey(st.httpRoutes[1]) { CodesInjective(key, key'); }
    OwnBackendsIffUnambiguous(st);
  }

  lemma FirstDashSplits(x: string, y: string, x': string, y': string)
    requires '-' !in x && '-' !in x' && x + "-" + y == x' + "-" + y'
    ensures x == x' && y == y'
  {
    var s := x + "-" + y;
    assert s[|x|] == '-' && s[|x'|] == '-';
    assert s[..|x|] == x && s[..|x'|] == x';
    assert !(|x| < |x'|) && !(|x'| < |x|);
    assert s[|x| + 1..] == y && s[|x'| + 1..] == y';
  }

  lemma LastDashSplits(x: string, d: string, x': string, d': string)
    requires AllDigits(d) && AllDigits(d') && x + ("-rule" + d) == x' + ("-rule" + d')
    ensures x == x' && d == d'
  {
    var s := x + ("-rule" + d);
    assert s[|x|] == '-' && s[|x'|] == '-';
    assert forall k :: |x| < k < |s| ==> s[k] == ("rule" + d)[k - |x| - 1] && s[k] != '-';
    assert forall k :: |x'| < k < |s| ==> s[k] == ("rule" + d')[k - |x'| - 1] && s[k] != '-';
    assert |x| == |x'|;
    assert s[..|x|] == x && s[..|x'|] == x';
    assert s[|x| + 5..] == d && s[|x'| + 5..] == d';
  }
}
