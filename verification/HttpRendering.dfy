/** The HTTP half of the configuration generator: HTTPRoutes rendered to proxy routes. */
module HttpRendering {
  import opened Text
  import opened Decimal
  import opened Ordering
  import opened GatewayApi
  import opened ControllerState
  import opened Config

  function RouteNs(r: HttpRoute): string { r.meta.namespace.Or("default") }
  function RouteName(r: HttpRoute): string { r.meta.name.Or("unknown") }

  /** The name shared by the upstream and the routes of rule `i`. */
  function RuleName(r: HttpRoute, i: nat): string { RouteNs(r) + "-" + RouteName(r) + "-rule" + Print(i) }

  function RefsAddrs(eps: Endpoints, ns: string, refs: seq<BackendRef>): seq<string> {
    if refs == [] then [] else RefsAddrs(eps, ns, refs[..|refs| - 1]) + BackendAddrs(eps, ns, refs[|refs| - 1], 80)
  }

  function RuleBackends(eps: Endpoints, r: HttpRoute, i: nat): seq<string>
    requires i < |r.rules|
  {
    RefsAddrs(eps, RouteNs(r), r.rules[i].backendRefs)
  }

  function RuleTimeout(rule: HttpRule): Option<nat> {
    if rule.timeout.Some? then ParseDuration(rule.timeout.value) else None
  }

  function MethodName(m: Method): string {
    match m
    case GET => "GET"
    case HEAD => "HEAD"
    case POST => "POST"
    case PUT => "PUT"
    case DELETE => "DELETE"
    case CONNECT => "CONNECT"
    case OPTIONS => "OPTIONS"
    case TRACE => "TRACE"
    case PATCH => "PATCH"
  }

  /** Collecting pairs into a map: the last value of a name stays. */
  function HeaderMap(hs: seq<HeaderMatch>): map<string, string> {
    if hs == [] then map[] else HeaderMap(hs[..|hs| - 1])[hs[|hs| - 1].name := hs[|hs| - 1].value]
  }

  function FirstHostname(r: HttpRoute): Option<string> { if r.hostnames == [] then None else Some(r.hostnames[0]) }

  predicate IsRegex(m: HttpMatch) { m.path.Some? && m.path.value.kind == RegularExpression }

  function MatchRules(r: HttpRoute, m: HttpMatch): RouteMatch {
    var path := if m.path.Some? && m.path.value.kind == ExactPath then Some(m.path.value.value) else None;
    var prefix :=
      if m.path.None? then Some("/")
      else if m.path.value.kind == PathPrefix then Some(m.path.value.value)
      else None;
    var methods := if m.method_.Some? then [MethodName(m.method_.value)] else [];
    RouteMatch(FirstHostname(r), path, prefix, methods, HeaderMap(m.headers))
  }

  /** The proxy route for match `j` of rule `i`; a rule without matches has one catch-all route. */
  function ConfigAt(r: HttpRoute, i: nat, j: nat): RouteConfig
    requires i < |r.rules| && (r.rules[i].matches == [] || j < |r.rules[i].matches|)
  {
    var rule := r.rules[i];
    var name := RuleName(r, i);
    if rule.matches == [] then
      RouteConfig(
        Some(name), RouteMatch(FirstHostname(r), None, Some("/"), [], map[]), name, None, None, RuleTimeout(rule))
    else
      RouteConfig(
        Some(name + "-match" + Print(j)), MatchRules(r, rule.matches[j]), name, None, None, RuleTimeout(rule))
  }

  // ---------- What is rendered, in which order ----------

  /** A rendered route and where it comes from. */
  datatype Slot = Slot(key: string, rule: nat, pos: nat, config: RouteConfig)

  function MatchSlots(key: string, r: HttpRoute, i: nat, n: nat): seq<Slot>
    requires i < |r.rules| && n <= |r.rules[i].matches|
  {
    if n == 0 then []
    else
      MatchSlots(key, r, i, n - 1)
      + if IsRegex(r.rules[i].matches[n - 1]) then [] else [Slot(key, i, n - 1, ConfigAt(r, i, n - 1))]
  }

  function RuleSlots(eps: Endpoints, key: string, r: HttpRoute, i: nat): seq<Slot>
    requires i < |r.rules|
  {
    if RuleBackends(eps, r, i) == [] then []
    else if r.rules[i].matches == [] then [Slot(key, i, 0, ConfigAt(r, i, 0))]
    else MatchSlots(key, r, i, |r.rules[i].matches|)
  }

  /** The slots of the first `n` rules, rule by rule. */
  function SlotsByRule(eps: Endpoints, key: string, r: HttpRoute, n: nat): (parts: seq<seq<Slot>>)
    requires n <= |r.rules|
    ensures |parts| == n && forall i :: 0 <= i < n ==> parts[i] == RuleSlots(eps, key, r, i)
  {
    seq(n, i requires 0 <= i < n => RuleSlots(eps, key, r, i))
  }

  function Flat(parts: seq<seq<Slot>>): seq<Slot> {
    if parts == [] then [] else Flat(parts[..|parts| - 1]) + parts[|parts| - 1]
  }

  function RouteSlots(eps: Endpoints, key: string, r: HttpRoute, n: nat): seq<Slot>
    requires n <= |r.rules|
  {
    Flat(SlotsByRule(eps, key, r, n))
  }

  function SlotsOf(eps: Endpoints, e: (string, HttpRoute)): seq<Slot> {
    if Accepted(e.1.status) then RouteSlots(eps, e.0, e.1, |e.1.rules|) else []
  }

  function EntrySlots(eps: Endpoints, entries: seq<(string, HttpRoute)>): seq<Slot> {
    if entries == [] then []
    else EntrySlots(eps, entries[..|entries| - 1]) + SlotsOf(eps, entries[|entries| - 1])
  }

  function Slots(st: GatewayState): seq<Slot> { EntrySlots(st.endpoints, InKeyOrder(st.httpRoutes)) }

  function Configs(slots: seq<Slot>): (r: seq<RouteConfig>)
    ensures |r| == |slots| && forall i :: 0 <= i < |slots| ==> r[i] == slots[i].config
  {
    seq(|slots|, i requires 0 <= i < |slots| => slots[i].config)
  }

  function GeneratedRoutes(st: GatewayState): seq<RouteConfig> { Configs(Slots(st)) }

  /** An upstream definition: its name and backends. */
  type Definition = (string, seq<string>)

  function RuleDefinitions(eps: Endpoints, r: HttpRoute, i: nat): seq<Definition>
    requires i < |r.rules|
  {
    if RuleBackends(eps, r, i) == [] then [] else [(RuleName(r, i), RuleBackends(eps, r, i))]
  }

  function RouteDefinitions(eps: Endpoints, r: HttpRoute, n: nat): seq<Definition>
    requires n <= |r.rules|
  {
    if n == 0 then [] else RouteDefinitions(eps, r, n - 1) + RuleDefinitions(eps, r, n - 1)
  }

  function DefinitionsOf(eps: Endpoints, r: HttpRoute): seq<Definition> {
    if Accepted(r.status) then RouteDefinitions(eps, r, |r.rules|) else []
  }

  function EntryDefinitions(eps: Endpoints, entries: seq<(string, HttpRoute)>): seq<Definition> {
    if entries == [] then []
    else EntryDefinitions(eps, entries[..|entries| - 1]) + DefinitionsOf(eps, entries[|entries| - 1].1)
  }

  /** Inserting definitions one by one: a later one replaces an earlier one of the same name. */
  function InsertAll(ups: map<string, UpstreamConfig>, ds: seq<Definition>): map<string, UpstreamConfig> {
    if ds == [] then ups else InsertAll(ups, ds[..|ds| - 1])[ds[|ds| - 1].0 := UpstreamConfig(ds[|ds| - 1].1)]
  }

  function GeneratedUpstreams(st: GatewayState): map<string, UpstreamConfig> {
    InsertAll(map[], EntryDefinitions(st.endpoints, InKeyOrder(st.httpRoutes)))
  }

  lemma {:induction false} InsertConcat(ups: map<string, UpstreamConfig>, x: seq<Definition>, y: seq<Definition>)
    ensures InsertAll(InsertAll(ups, x), y) == InsertAll(ups, x + y)
  {
    if y == [] {
      assert x + y == x;
    } else {
      var n := |y| - 1;
      InsertConcat(ups, x, y[..n]);
      assert (x + y)[..|x + y| - 1] == x + y[..n];
    }
  }

  // ---------- The rendering loops ----------

  method CollectBackends(eps: Endpoints, ns: string, refs: seq<BackendRef>) returns (addrs: seq<string>)
    ensures addrs == RefsAddrs(eps, ns, refs)
  {
    addrs := [];
    var i := 0;
    while i < |refs|
      invariant 0 <= i <= |refs| && addrs == RefsAddrs(eps, ns, refs[..i])
    {
      assert refs[..i + 1][..i] == refs[..i];
      var more := AddressesOf(eps, ns, refs[i], 80);
      addrs := addrs + more;
      i := i + 1;
    }
    assert refs[..|refs|] == refs;
  }

  lemma NextMatch(key: string, r: HttpRoute, i: nat, j: nat)
    requires i < |r.rules| && j < |r.rules[i].matches|
    ensures Configs(MatchSlots(key, r, i, j + 1))
            == Configs(MatchSlots(key, r, i, j)) + if IsRegex(r.rules[i].matches[j]) then [] else [ConfigAt(r, i, j)]
    ensures IsRegex(r.rules[i].matches[j]) ==>
            Configs(MatchSlots(key, r, i, j + 1)) == Configs(MatchSlots(key, r, i, j))
  {
    ConfigsConcat(MatchSlots(key, r, i, j), if IsRegex(r.rules[i].matches[j]) then []
      else [Slot(key, i, j, ConfigAt(r, i, j))]);
  }

  /** The header matches collected into a map. */
  method CollectHeaders(hs: seq<HeaderMatch>) returns (headers: map<string, string>)
    ensures headers == HeaderMap(hs)
  {
    headers := map[];
    var i := 0;
    while i < |hs|
      invariant 0 <= i <= |hs| && headers == HeaderMap(hs[..i])
    {
      assert hs[..i + 1][..i] == hs[..i];
      headers := headers[hs[i].name := hs[i].value];
      i := i + 1;
    }
    assert hs[..|hs|] == hs;
  }

  /** The `Debug` text of a method. */
  method MethodText(m: Method) returns (text: string)
    ensures text == MethodName(m)
  {
    match m {
      case GET => return "GET";
      case HEAD => return "HEAD";
      case POST => return "POST";
      case PUT => return "PUT";
      case DELETE => return "DELETE";
      case CONNECT => return "CONNECT";
      case OPTIONS => return "OPTIONS";
      case TRACE => return "TRACE";
      case PATCH => return "PATCH";
    }
  }

  /** One pass through the match loop: nothing for a regular expression, else the route of match `j`. */
  method RenderMatch(r: HttpRoute, i: nat, j: nat, name: string, timeout: Option<nat>)
    returns (route: Option<RouteConfig>)
    requires i < |r.rules| && j < |r.rules[i].matches|
    requires name == RuleName(r, i) && timeout == RuleTimeout(r.rules[i])
    ensures route == if IsRegex(r.rules[i].matches[j]) then None else Some(ConfigAt(r, i, j))
  {
    var m := r.rules[i].matches[j];
    var path, prefix: Option<string> := None, None;
    match m.path {
      case None => prefix := Some("/");
      case Some(PathMatch(ExactPath, v)) => path := Some(v);
      case Some(PathMatch(PathPrefix, v)) => prefix := Some(v);
      case Some(PathMatch(RegularExpression, _)) => return None;
    }
    var methods: seq<string> := [];
    if m.method_.Some? {
      var text := MethodText(m.method_.value);
      methods := [text];
    }
    var headers := CollectHeaders(m.headers);
    var host := if |r.hostnames| > 0 then Some(r.hostnames[0]) else None;
    return Some(RouteConfig(Some(name + "-match" + Print(j)), RouteMatch(host, path, prefix, methods, headers), name,
                            None, None, timeout));
  }

  method RenderMatches(key: string, r: HttpRoute, i: nat, name: string, timeout: Option<nat>)
    returns (routes: seq<RouteConfig>)
    requires i < |r.rules| && r.rules[i].matches != []
    requires name == RuleName(r, i) && timeout == RuleTimeout(r.rules[i])
    ensures routes == Configs(MatchSlots(key, r, i, |r.rules[i].matches|))
  {
    routes := [];
    var j := 0;
    while j < |r.rules[i].matches|
      invariant 0 <= j <= |r.rules[i].matches| && routes == Configs(MatchSlots(key, r, i, j))
    {
      NextMatch(key, r, i, j);
      var route := RenderMatch(r, i, j, name, timeout);
      if route.Some? { routes := routes + [route.value]; }
      j := j + 1;
    }
  }

  lemma ConfigsConcat(a: seq<Slot>, b: seq<Slot>)
    ensures Configs(a + b) == Configs(a) + Configs(b)
  {
  }

  method RenderCatchAll(r: HttpRoute, i: nat, name: string, timeout: Option<nat>) returns (route: RouteConfig)
    requires i < |r.rules| && r.rules[i].matches == []
    requires name == RuleName(r, i) && timeout == RuleTimeout(r.rules[i])
    ensures route == ConfigAt(r, i, 0)
  {
    var host := if |r.hostnames| > 0 then Some(r.hostnames[0]) else None;
    return RouteConfig(Some(name), RouteMatch(host, None, Some("/"), [], map[]), name, None, None, timeout);
  }

  /** The name of a rule's upstream and its timeout, if it has one that parses. */
  method RuleHeader(r: HttpRoute, i: nat) returns (ns: string, name: string, timeout: Option<nat>)
    requires i < |r.rules|
    ensures ns == RouteNs(r) && name == RuleName(r, i) && timeout == RuleTimeout(r.rules[i])
  {
    ns := match r.meta.namespace case Some(n) => n case None => "default";
    var routeName := match r.meta.name case Some(n) => n case None => "unknown";
    name := ns + "-" + routeName + "-rule" + Print(i);
    timeout := None;
    if r.rules[i].timeout.Some? { timeout := ParseDurationToSecs(r.rules[i].timeout.value); }
  }

  lemma OneDefinition(ups: map<string, UpstreamConfig>, d: Definition)
    ensures InsertAll(ups, [d]) == ups[d.0 := UpstreamConfig(d.1)]
  {
    assert [d][..0] == [];
  }

  method RenderRule(eps: Endpoints, key: string, r: HttpRoute, i: nat, ups0: map<string, UpstreamConfig>)
    returns (routes: seq<RouteConfig>, ups: map<string, UpstreamConfig>)
    requires i < |r.rules|
    ensures routes == Configs(RuleSlots(eps, key, r, i)) && ups == InsertAll(ups0, RuleDefinitions(eps, r, i))
  {
    routes, ups := [], ups0;
    var ns, name, timeout := RuleHeader(r, i);
    var addrs := CollectBackends(eps, ns, r.rules[i].backendRefs);
    if addrs != [] {
      OneDefinition(ups0, (name, addrs));
      ups := ups[name := UpstreamConfig(addrs)];
      if r.rules[i].matches == [] {
        var route := RenderCatchAll(r, i, name, timeout);
        routes := [route];
      } else {
        routes := RenderMatches(key, r, i, name, timeout);
      }
    }
  }

  lemma FlatNext(parts: seq<seq<Slot>>, last: seq<Slot>)
    ensures Flat(parts + [last]) == Flat(parts) + last
  {
    assert (parts + [last])[..|parts|] == parts;
  }

  lemma RouteSlotsNext(eps: Endpoints, key: string, r: HttpRoute, i: nat)
    requires i < |r.rules|
    ensures RouteSlots(eps, key, r, i + 1) == RouteSlots(eps, key, r, i) + RuleSlots(eps, key, r, i)
  {
    assert SlotsByRule(eps, key, r, i + 1) == SlotsByRule(eps, key, r, i) + [RuleSlots(eps, key, r, i)];
    FlatNext(SlotsByRule(eps, key, r, i), RuleSlots(eps, key, r, i));
  }

  lemma NextRule(eps: Endpoints, key: string, r: HttpRoute, i: nat, ups0: map<string, UpstreamConfig>)
    requires i < |r.rules|
    ensures Configs(RouteSlots(eps, key, r, i + 1))
            == Configs(RouteSlots(eps, key, r, i)) + Configs(RuleSlots(eps, key, r, i))
    ensures InsertAll(ups0, RouteDefinitions(eps, r, i + 1))
            == InsertAll(InsertAll(ups0, RouteDefinitions(eps, r, i)), RuleDefinitions(eps, r, i))
  {
    RouteSlotsNext(eps, key, r, i);
    ConfigsConcat(RouteSlots(eps, key, r, i), RuleSlots(eps, key, r, i));
    InsertConcat(ups0, RouteDefinitions(eps, r, i), RuleDefinitions(eps, r, i));
  }

  method RenderRoute(eps: Endpoints, key: string, r: HttpRoute, ups0: map<string, UpstreamConfig>)
    returns (routes: seq<RouteConfig>, ups: map<string, UpstreamConfig>)
    ensures routes == Configs(RouteSlots(eps, key, r, |r.rules|))
            && ups == InsertAll(ups0, RouteDefinitions(eps, r, |r.rules|))
  {
    routes, ups := [], ups0;
    var i := 0;
    while i < |r.rules|
      invariant 0 <= i <= |r.rules|
      invariant routes == Configs(RouteSlots(eps, key, r, i)) && ups == InsertAll(ups0, RouteDefinitions(eps, r, i))
    {
      NextRule(eps, key, r, i, ups0);
      var more, ups' := RenderRule(eps, key, r, i, ups);
      routes, ups := routes + more, ups';
      i := i + 1;
    }
  }

  lemma NextEntry(eps: Endpoints, entries: seq<(string, HttpRoute)>, i: nat)
    requires i < |entries|
    ensures Configs(EntrySlots(eps, entries[..i + 1]))
            == Configs(EntrySlots(eps, entries[..i])) + Configs(SlotsOf(eps, entries[i]))
    ensures InsertAll(map[], EntryDefinitions(eps, entries[..i + 1]))
            == InsertAll(InsertAll(map[], EntryDefinitions(eps, entries[..i])), DefinitionsOf(eps, entries[i].1))
  {
    assert entries[..i + 1][..i] == entries[..i];
    ConfigsConcat(EntrySlots(eps, entries[..i]), SlotsOf(eps, entries[i]));
    InsertConcat(map[], EntryDefinitions(eps, entries[..i]), DefinitionsOf(eps, entries[i].1));
  }

  method RenderHttpEntries(eps: Endpoints, entries: seq<(string, HttpRoute)>)
    returns (routes: seq<RouteConfig>, ups: map<string, UpstreamConfig>)
    ensures routes == Configs(EntrySlots(eps, entries)) && ups == InsertAll(map[], EntryDefinitions(eps, entries))
  {
    routes, ups := [], map[];
    var i := 0;
    while i < |entries|
      invariant 0 <= i <= |entries|
      invariant routes == Configs(EntrySlots(eps, entries[..i]))
      invariant ups == InsertAll(map[], EntryDefinitions(eps, entries[..i]))
    {
      NextEntry(eps, entries, i);
      var accepted := IsAccepted(entries[i].1.status);
      if accepted {
        var more, ups' := RenderRoute(eps, entries[i].0, entries[i].1, ups);
        routes, ups := routes + more, ups';
      }
      i := i + 1;
    }
    assert entries[..|entries|] == entries;
  }

  method RenderHttp(st: GatewayState) returns (routes: seq<RouteConfig>, ups: map<string, UpstreamConfig>)
    ensures routes == GeneratedRoutes(st) && ups == GeneratedUpstreams(st)
  {
    routes, ups := RenderHttpEntries(st.endpoints, InKeyOrder(st.httpRoutes));
  }

  // ---------- Which slots there are ----------

  /** Match `j` of rule `i` is rendered: the route is accepted, the rule has an address, and the match is
      not a regular expression. */
  predicate RenderedAt(eps: Endpoints, r: HttpRoute, i: nat, j: nat) {
    && Accepted(r.status) && i < |r.rules| && RuleBackends(eps, r, i) != []
    && (if r.rules[i].matches == [] then j == 0 else j < |r.rules[i].matches| && !IsRegex(r.rules[i].matches[j]))
  }

  /** `s` renders one of the first `n` matches of rule `i`. */
  predicate MatchSlot(key: string, r: HttpRoute, i: nat, n: nat, s: Slot)
    requires i < |r.rules| && n <= |r.rules[i].matches|
  {
    s.key == key && s.rule == i && s.pos < n && !IsRegex(r.rules[i].matches[s.pos]) && s.config == ConfigAt(r, i, s.pos)
  }

  lemma {:induction false} MatchSlotsExact(key: string, r: HttpRoute, i: nat, n: nat)
    requires i < |r.rules| && n <= |r.rules[i].matches|
    ensures forall s :: s in MatchSlots(key, r, i, n) <==> MatchSlot(key, r, i, n, s)
  {
    if n > 0 {
      MatchSlotsExact(key, r, i, n - 1);
      forall s ensures s in MatchSlots(key, r, i, n) <==> MatchSlot(key, r, i, n, s) {
        assert MatchSlot(key, r, i, n, s) <==>
          MatchSlot(key, r, i, n - 1, s)
            || (s == Slot(key, i, n - 1, ConfigAt(r, i, n - 1)) && !IsRegex(r.rules[i].matches[n - 1]));
      }
    }
  }

  ghost predicate Ascending(slots: seq<Slot>) { forall a, b :: 0 <= a < b < |slots| ==> slots[a].pos < slots[b].pos }

  lemma AscendingAppend(slots: seq<Slot>, s: Slot)
    requires Ascending(slots) && forall t :: t in slots ==> t.pos < s.pos
    ensures Ascending(slots + [s])
  {
    forall a | 0 <= a < |slots| ensures slots[a].pos < s.pos { assert slots[a] in slots; }
  }

  lemma {:induction false} MatchSlotsAscend(key: string, r: HttpRoute, i: nat, n: nat)
    requires i < |r.rules| && n <= |r.rules[i].matches|
    ensures Ascending(MatchSlots(key, r, i, n))
  {
    if n > 0 {
      var before := MatchSlots(key, r, i, n - 1);
      MatchSlotsAscend(key, r, i, n - 1);
      MatchSlotsExact(key, r, i, n - 1);
      if IsRegex(r.rules[i].matches[n - 1]) {
        assert before + [] == before;
      } else {
        AscendingAppend(before, Slot(key, i, n - 1, ConfigAt(r, i, n - 1)));
      }
    }
  }

  predicate SlotBefore(a: Slot, b: Slot) {
    if a.key != b.key then StrLe(Codes(a.key), Codes(b.key))
    else a.rule < b.rule || (a.rule == b.rule && a.pos < b.pos)
  }

  ghost predicate Ordered(slots: seq<Slot>) {
    forall a, b :: 0 <= a < b < |slots| ==> SlotBefore(slots[a], slots[b])
  }

  lemma OrderedConcat(x: seq<Slot>, y: seq<Slot>)
    requires Ordered(x) && Ordered(y) && forall a, b :: a in x && b in y ==> SlotBefore(a, b)
    ensures Ordered(x + y)
  {
    var z := x + y;
    forall a, b | 0 <= a < b < |z| ensures SlotBefore(z[a], z[b]) {
      if a < |x| && b >= |x| {
        assert z[a] in x && z[b] in y;
      }
    }
  }

  /** `s` renders some match of the route. */
  predicate RouteSlot(eps: Endpoints, key: string, r: HttpRoute, s: Slot) {
    s.key == key && RenderedAt(eps, r, s.rule, s.pos) && s.config == ConfigAt(r, s.rule, s.pos)
  }

  lemma RuleSlotsExact(eps: Endpoints, key: string, r: HttpRoute, i: nat)
    requires i < |r.rules| && Accepted(r.status)
    ensures Ordered(RuleSlots(eps, key, r, i))
    ensures forall s :: s in RuleSlots(eps, key, r, i) <==> s.rule == i && RouteSlot(eps, key, r, s)
  {
    var slots := RuleSlots(eps, key, r, i);
    MatchSlotsExact(key, r, i, |r.rules[i].matches|);
    MatchSlotsAscend(key, r, i, |r.rules[i].matches|);
    assert Ascending(slots) && forall s :: s in slots ==> s.key == key && s.rule == i;
    forall a, b | 0 <= a < b < |slots| ensures SlotBefore(slots[a], slots[b]) {
      assert slots[a] in slots && slots[b] in slots;
    }
  }

  lemma RuleSlotMember(eps: Endpoints, key: string, r: HttpRoute, i: nat, s: Slot)
    requires i < |r.rules| && Accepted(r.status)
    ensures s in RuleSlots(eps, key, r, i) <==> s.rule == i && RouteSlot(eps, key, r, s)
  {
    RuleSlotsExact(eps, key, r, i);
  }

  lemma {:induction false} InFlat(parts: seq<seq<Slot>>, s: Slot)
    ensures s in Flat(parts) <==> exists i :: 0 <= i < |parts| && s in parts[i]
  {
    if parts != [] {
      var n := |parts| - 1;
      InFlat(parts[..n], s);
      if i :| 0 <= i < |parts| && s in parts[i] { assert i < n ==> parts[..n][i] == parts[i]; }
    }
  }

  /** Every part is ordered, and earlier parts come first. */
  ghost predicate PartsOrdered(parts: seq<seq<Slot>>) {
    && (forall i :: 0 <= i < |parts| ==> Ordered(parts[i]))
    && forall i, j, a, b :: 0 <= i < j < |parts| && a in parts[i] && b in parts[j] ==> SlotBefore(a, b)
  }

  lemma {:induction false} FlatOrdered(parts: seq<seq<Slot>>)
    requires PartsOrdered(parts)
    ensures Ordered(Flat(parts))
  {
    if parts != [] {
      var n := |parts| - 1;
      FlatOrdered(parts[..n]);
      forall a, b | a in Flat(parts[..n]) && b in parts[n] ensures SlotBefore(a, b) {
        InFlat(parts[..n], a);
        var i :| 0 <= i < n && a in parts[..n][i];
        assert a in parts[i];
      }
      OrderedConcat(Flat(parts[..n]), parts[n]);
    }
  }

  lemma RouteSlotsOrdered(eps: Endpoints, key: string, r: HttpRoute)
    requires Accepted(r.status)
    ensures Ordered(RouteSlots(eps, key, r, |r.rules|))
  {
    var parts := SlotsByRule(eps, key, r, |r.rules|);
    forall i | 0 <= i < |parts| ensures Ordered(parts[i]) { RuleSlotsExact(eps, key, r, i); }
    forall i, j, a, b | 0 <= i < j < |parts| && a in parts[i] && b in parts[j] ensures SlotBefore(a, b) {
      RuleSlotMember(eps, key, r, i, a);
      RuleSlotMember(eps, key, r, j, b);
    }
    FlatOrdered(parts);
  }

  lemma RouteSlotMember(eps: Endpoints, key: string, r: HttpRoute, s: Slot)
    requires Accepted(r.status)
    ensures s in RouteSlots(eps, key, r, |r.rules|) <==> RouteSlot(eps, key, r, s)
  {
    var parts := SlotsByRule(eps, key, r, |r.rules|);
    InFlat(parts, s);
    if i :| 0 <= i < |parts| && s in parts[i] { RuleSlotMember(eps, key, r, i, s); }
    if RouteSlot(eps, key, r, s) {
      RuleSlotMember(eps, key, r, s.rule, s);
      assert s in parts[s.rule];
    }
  }

  lemma RouteSlotsExact(eps: Endpoints, key: string, r: HttpRoute)
    requires Accepted(r.status)
    ensures Ordered(RouteSlots(eps, key, r, |r.rules|))
    ensures forall s :: s in RouteSlots(eps, key, r, |r.rules|) <==> RouteSlot(eps, key, r, s)
  {
    RouteSlotsOrdered(eps, key, r);
    forall s ensures s in RouteSlots(eps, key, r, |r.rules|) <==> RouteSlot(eps, key, r, s) {
      RouteSlotMember(eps, key, r, s);
    }
  }

  /** `s` is the rendering of some route in the list. */
  ghost predicate SlotFrom(eps: Endpoints, entries: seq<(string, HttpRoute)>, s: Slot) {
    exists r :: (s.key, r) in entries && RouteSlot(eps, s.key, r, s)
  }

  lemma LastEntrySlots(eps: Endpoints, init: seq<(string, HttpRoute)>, key: string, r: HttpRoute, s: Slot)
    ensures SlotFrom(eps, init + [(key, r)], s) <==> SlotFrom(eps, init, s) || RouteSlot(eps, key, r, s)
  {
    var all := init + [(key, r)];
    assert forall e :: e in all <==> e in init || e == (key, r);
    if SlotFrom(eps, init, s) {
      var q :| (s.key, q) in init && RouteSlot(eps, s.key, q, s);
      assert (s.key, q) in all;
    }
    if RouteSlot(eps, key, r, s) { assert (s.key, r) in all; }
  }

  /** Slots of earlier entries come first. */
  lemma EarlierEntry(eps: Endpoints, init: seq<(string, HttpRoute)>, key: string, r: HttpRoute, a: Slot, b: Slot)
    requires SortedBy(init + [(key, r)], EntryKey<HttpRoute>, StrLe)
             && DistinctKeys(init + [(key, r)], EntryKey<HttpRoute>)
    requires SlotFrom(eps, init, a) && b.key == key
    ensures SlotBefore(a, b)
  {
    var all := init + [(key, r)];
    var q :| (a.key, q) in init && RouteSlot(eps, a.key, q, a);
    var k :| 0 <= k < |init| && init[k] == (a.key, q);
    assert all[k] == init[k] && all[|init|] == (key, r);
    assert EntryKey(all[k]) != EntryKey(all[|init|]) && StrLe(EntryKey(all[k]), EntryKey(all[|init|]));
  }

  lemma PrefixEntries(init: seq<(string, HttpRoute)>, e: (string, HttpRoute))
    requires SortedBy(init + [e], EntryKey<HttpRoute>, StrLe) && DistinctKeys(init + [e], EntryKey<HttpRoute>)
    ensures SortedBy(init, EntryKey<HttpRoute>, StrLe) && DistinctKeys(init, EntryKey<HttpRoute>)
  {
    assert forall k :: 0 <= k < |init| ==> (init + [e])[k] == init[k];
  }

  lemma {:induction false} EntrySlotsExact(eps: Endpoints, entries: seq<(string, HttpRoute)>)
    requires SortedBy(entries, EntryKey<HttpRoute>, StrLe) && DistinctKeys(entries, EntryKey<HttpRoute>)
    ensures Ordered(EntrySlots(eps, entries))
    ensures forall s :: s in EntrySlots(eps, entries) <==> SlotFrom(eps, entries, s)
  {
    if entries != [] {
      var init := entries[..|entries| - 1];
      var (key, r) := entries[|entries| - 1];
      assert entries == init + [(key, r)];
      PrefixEntries(init, (key, r));
      EntrySlotsExact(eps, init);
      var before, here := EntrySlots(eps, init), if Accepted(r.status) then RouteSlots(eps, key, r, |r.rules|) else [];
      assert EntrySlots(eps, entries) == before + here;
      if Accepted(r.status) { RouteSlotsExact(eps, key, r); }
      assert forall s :: s in here <==> RouteSlot(eps, key, r, s);
      forall a, b | a in before && b in here ensures SlotBefore(a, b) { EarlierEntry(eps, init, key, r, a, b); }
      OrderedConcat(before, here);
      forall s ensures s in before + here <==> SlotFrom(eps, entries, s) { LastEntrySlots(eps, init, key, r, s); }
    }
  }
}
