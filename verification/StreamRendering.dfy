/** The stream half of the configuration generator: TLSRoutes and TCPRoutes rendered to one listener. */
module StreamRendering {
  import opened Text
  import opened Ordering
  import opened GatewayApi
  import opened ControllerState
  import opened Config
  import opened SniRouting
  import opened StreamTable

  function StreamNs(r: StreamRoute): string { r.meta.namespace.Or("default") }

  /** One backend reference of an accepted route.  `hostnames` is None for a TCPRoute. */
  datatype Use = Use(name: string, servers: seq<string>, hostnames: Option<seq<string>>)

  function DefaultPort(tls: bool): nat { if tls then 443 else 9000 }

  function UseOf(eps: Endpoints, ns: string, b: BackendRef, hostnames: Option<seq<string>>): Use {
    Use(ns + "-" + b.name, BackendAddrs(eps, ns, b, DefaultPort(hostnames.Some?)), hostnames)
  }

  function RefsUses(eps: Endpoints, ns: string, refs: seq<BackendRef>, hostnames: Option<seq<string>>): seq<Use> {
    if refs == [] then []
    else RefsUses(eps, ns, refs[..|refs| - 1], hostnames) + [UseOf(eps, ns, refs[|refs| - 1], hostnames)]
  }

  function RulesUses(
    eps: Endpoints, ns: string, rules: seq<seq<BackendRef>>, hostnames: Option<seq<string>>): seq<Use> {
    if rules == [] then []
    else RulesUses(eps, ns, rules[..|rules| - 1], hostnames) + RefsUses(eps, ns, rules[|rules| - 1], hostnames)
  }

  function HostnamesFor(r: StreamRoute, tls: bool): Option<seq<string>> { if tls then Some(r.hostnames) else None }

  function EntriesUses(eps: Endpoints, entries: seq<(string, StreamRoute)>, tls: bool): seq<Use> {
    if entries == [] then []
    else
      var r := entries[|entries| - 1].1;
      EntriesUses(eps, entries[..|entries| - 1], tls)
      + if Accepted(r.status) then RulesUses(eps, StreamNs(r), r.rules, HostnamesFor(r, tls)) else []
  }

  /** All backend references of accepted routes: TLSRoutes by key, then TCPRoutes by key. */
  function Uses(st: GatewayState): seq<Use> {
    EntriesUses(st.endpoints, InKeyOrder(st.tlsRoutes), true)
      + EntriesUses(st.endpoints, InKeyOrder(st.tcpRoutes), false)
  }

  // ---------- Accumulating them ----------

  /** `sni` lists the routes in claiming order, `owners` the upstream owning each hostname. */
  datatype Acc = Acc(
    upstreams: seq<StreamUpstream>, sni: seq<(string, string)>, owners: map<string, string>, catchAll: Option<string>)

  const EMPTY := Acc([], [], map[], None)

  function Claim(acc: Acc, hostname: string, name: string): Acc {
    if hostname in acc.owners then acc
    else acc.(sni := acc.sni + [(hostname, name)], owners := acc.owners[hostname := name])
  }

  function ClaimAll(acc: Acc, hostnames: seq<string>, name: string): Acc {
    if hostnames == [] then acc
    else Claim(ClaimAll(acc, hostnames[..|hostnames| - 1], name), hostnames[|hostnames| - 1], name)
  }

  function Apply(acc: Acc, u: Use): Acc {
    var acc' := acc.(upstreams := acc.upstreams + [StreamUpstream(u.name, u.servers)]);
    if u.hostnames.None? then acc'
    else if u.hostnames.value == [] then acc'.(catchAll := if acc.catchAll.None? then Some(u.name) else acc.catchAll)
    else ClaimAll(acc', u.hostnames.value, u.name)
  }

  function ApplyAll(acc: Acc, us: seq<Use>): Acc {
    if us == [] then acc else Apply(ApplyAll(acc, us[..|us| - 1]), us[|us| - 1])
  }

  lemma {:induction false} ApplyConcat(acc: Acc, x: seq<Use>, y: seq<Use>)
    ensures ApplyAll(ApplyAll(acc, x), y) == ApplyAll(acc, x + y)
  {
    if y == [] {
      assert x + y == x;
    } else {
      var n := |y| - 1;
      ApplyConcat(acc, x, y[..n]);
      assert (x + y)[..|x + y| - 1] == x + y[..n];
    }
  }

  lemma ApplyNext(acc: Acc, us: seq<Use>, u: Use)
    ensures ApplyAll(acc, us + [u]) == Apply(ApplyAll(acc, us), u)
  {
    assert (us + [u])[..|us|] == us;
  }

  // ---------- The loops ----------

  method ApplyOne(acc0: Acc, u: Use) returns (acc: Acc)
    ensures acc == Apply(acc0, u)
  {
    acc := acc0.(upstreams := acc0.upstreams + [StreamUpstream(u.name, u.servers)]);
    if u.hostnames.Some? {
      var hs := u.hostnames.value;
      if hs == [] {
        if acc.catchAll.None? {
          acc := acc.(catchAll := Some(u.name));
        }
      } else {
        ghost var start := acc;
        var i := 0;
        while i < |hs|
          invariant 0 <= i <= |hs| && acc == ClaimAll(start, hs[..i], u.name)
        {
          assert hs[..i + 1][..i] == hs[..i];
          if hs[i] !in acc.owners {
            acc := acc.(sni := acc.sni + [(hs[i], u.name)], owners := acc.owners[hs[i] := u.name]);
          }
          i := i + 1;
        }
        assert hs[..|hs|] == hs;
      }
    }
  }

  lemma NextRefUse(
    eps: Endpoints, ns: string, refs: seq<BackendRef>, i: nat, hostnames: Option<seq<string>>, acc: Acc)
    requires i < |refs|
    ensures ApplyAll(acc, RefsUses(eps, ns, refs[..i + 1], hostnames))
            == Apply(ApplyAll(acc, RefsUses(eps, ns, refs[..i], hostnames)), UseOf(eps, ns, refs[i], hostnames))
  {
    assert refs[..i + 1][..i] == refs[..i];
    ApplyNext(acc, RefsUses(eps, ns, refs[..i], hostnames), UseOf(eps, ns, refs[i], hostnames));
  }

  method MakeUse(eps: Endpoints, ns: string, ref: BackendRef, hostnames: Option<seq<string>>) returns (u: Use)
    ensures u == UseOf(eps, ns, ref, hostnames)
  {
    var servers := AddressesOf(eps, ns, ref, if hostnames.Some? then 443 else 9000);
    u := Use(ns + "-" + ref.name, servers, hostnames);
  }

  method RenderRefs(eps: Endpoints, ns: string, refs: seq<BackendRef>, hostnames: Option<seq<string>>, acc0: Acc)
    returns (acc: Acc)
    ensures acc == ApplyAll(acc0, RefsUses(eps, ns, refs, hostnames))
  {
    acc := acc0;
    var i := 0;
    while i < |refs|
      invariant 0 <= i <= |refs| && acc == ApplyAll(acc0, RefsUses(eps, ns, refs[..i], hostnames))
    {
      var u := MakeUse(eps, ns, refs[i], hostnames);
      NextRefUse(eps, ns, refs, i, hostnames, acc0);
      acc := ApplyOne(acc, u);
      i := i + 1;
    }
    assert refs[..|refs|] == refs;
  }

  lemma NextRuleUses(
    eps: Endpoints, ns: string, rules: seq<seq<BackendRef>>, hostnames: Option<seq<string>>, acc: Acc, i: nat)
    requires i < |rules|
    ensures ApplyAll(acc, RulesUses(eps, ns, rules[..i + 1], hostnames))
            == ApplyAll(ApplyAll(acc, RulesUses(eps, ns, rules[..i], hostnames)),
                        RefsUses(eps, ns, rules[i], hostnames))
  {
    assert rules[..i + 1][..i] == rules[..i];
    ApplyConcat(acc, RulesUses(eps, ns, rules[..i], hostnames), RefsUses(eps, ns, rules[i], hostnames));
  }

  method RenderRules(eps: Endpoints, ns: string, rules: seq<seq<BackendRef>>, hostnames: Option<seq<string>>, acc0: Acc)
    returns (acc: Acc)
    ensures acc == ApplyAll(acc0, RulesUses(eps, ns, rules, hostnames))
  {
    acc := acc0;
    var i := 0;
    while i < |rules|
      invariant 0 <= i <= |rules| && acc == ApplyAll(acc0, RulesUses(eps, ns, rules[..i], hostnames))
    {
      NextRuleUses(eps, ns, rules, hostnames, acc0, i);
      acc := RenderRefs(eps, ns, rules[i], hostnames, acc);
      i := i + 1;
    }
    assert rules[..|rules|] == rules;
  }

  method RenderEntries(eps: Endpoints, entries: seq<(string, StreamRoute)>, tls: bool, acc0: Acc) returns (acc: Acc)
    ensures acc == ApplyAll(acc0, EntriesUses(eps, entries, tls))
  {
    acc := acc0;
    var i := 0;
    while i < |entries|
      invariant 0 <= i <= |entries| && acc == ApplyAll(acc0, EntriesUses(eps, entries[..i], tls))
    {
      assert entries[..i + 1][..i] == entries[..i];
      var r := entries[i].1;
      var accepted := IsAccepted(r.status);
      if accepted {
        var ns := match r.meta.namespace case Some(n) => n case None => "default";
        var hostnames := if tls then Some(r.hostnames) else None;
        ApplyConcat(acc0, EntriesUses(eps, entries[..i], tls), RulesUses(eps, ns, r.rules, hostnames));
        acc := RenderRules(eps, ns, r.rules, hostnames, acc);
      } else {
        assert EntriesUses(eps, entries[..i + 1], tls) == EntriesUses(eps, entries[..i], tls);
      }
      i := i + 1;
    }
    assert entries[..|entries|] == entries;
  }

  method RenderStreams(st: GatewayState) returns (acc: Acc)
    ensures acc == ApplyAll(EMPTY, Uses(st))
  {
    var tls := InKeyOrder(st.tlsRoutes);
    var tcp := InKeyOrder(st.tcpRoutes);
    acc := RenderEntries(st.endpoints, tls, true, Acc([], [], map[], None));
    ApplyConcat(EMPTY, EntriesUses(st.endpoints, tls, true), EntriesUses(st.endpoints, tcp, false));
    acc := RenderEntries(st.endpoints, tcp, false, acc);
  }

  // ---------- Where uses come from ----------

  /** `u` is a backend reference of an accepted route of the list. */
  ghost predicate UseFrom(eps: Endpoints, entries: seq<(string, StreamRoute)>, tls: bool, u: Use) {
    exists e, k, b :: e in entries && Accepted(e.1.status) && 0 <= k < |e.1.rules| && b in e.1.rules[k]
                      && u == UseOf(eps, StreamNs(e.1), b, HostnamesFor(e.1, tls))
  }

  lemma {:induction false} RefsUsesExact(
    eps: Endpoints, ns: string, refs: seq<BackendRef>, hostnames: Option<seq<string>>)
    ensures forall u :: u in RefsUses(eps, ns, refs, hostnames) <==>
            exists b :: b in refs && u == UseOf(eps, ns, b, hostnames)
  {
    if refs != [] {
      RefsUsesExact(eps, ns, refs[..|refs| - 1], hostnames);
      assert refs == refs[..|refs| - 1] + [refs[|refs| - 1]];
    }
  }

  lemma {:induction false} RulesUsesExact(
    eps: Endpoints, ns: string, rules: seq<seq<BackendRef>>, hostnames: Option<seq<string>>, u: Use)
    ensures u in RulesUses(eps, ns, rules, hostnames) <==>
              exists k, b :: 0 <= k < |rules| && b in rules[k] && u == UseOf(eps, ns, b, hostnames)
  {
    if rules != [] {
      var n := |rules| - 1;
      RulesUsesExact(eps, ns, rules[..n], hostnames, u);
      RefsUsesExact(eps, ns, rules[n], hostnames);
      if u in RulesUses(eps, ns, rules[..n], hostnames) {
        var k, b :| 0 <= k < n && b in rules[..n][k] && u == UseOf(eps, ns, b, hostnames);
        assert b in rules[k];
      } else {
        forall k, b | 0 <= k < n && b in rules[k] ensures u != UseOf(eps, ns, b, hostnames) {
          assert b in rules[..n][k];
        }
      }
    }
  }

  lemma {:induction false} EntriesUsesExact(eps: Endpoints, entries: seq<(string, StreamRoute)>, tls: bool)
    ensures forall u :: u in EntriesUses(eps, entries, tls) <==> UseFrom(eps, entries, tls, u)
  {
    if entries != [] {
      var init, e := entries[..|entries| - 1], entries[|entries| - 1];
      assert entries == init + [e];
      EntriesUsesExact(eps, init, tls);
      forall u | u in EntriesUses(eps, entries, tls) ensures UseFrom(eps, entries, tls, u) {
        if u in EntriesUses(eps, init, tls) {
          var e', k, b :| e' in init && Accepted(e'.1.status) && 0 <= k < |e'.1.rules| && b in e'.1.rules[k]
                          && u == UseOf(eps, StreamNs(e'.1), b, HostnamesFor(e'.1, tls));
          assert e' in entries;
        } else {
          RulesUsesExact(eps, StreamNs(e.1), e.1.rules, HostnamesFor(e.1, tls), u);
          var k, b :| 0 <= k < |e.1.rules| && b in e.1.rules[k]
                      && u == UseOf(eps, StreamNs(e.1), b, HostnamesFor(e.1, tls));
          assert e in entries;
        }
      }
      forall u | UseFrom(eps, entries, tls, u) ensures u in EntriesUses(eps, entries, tls) {
        var e', k, b :| e' in entries && Accepted(e'.1.status) && 0 <= k < |e'.1.rules| && b in e'.1.rules[k]
                        && u == UseOf(eps, StreamNs(e'.1), b, HostnamesFor(e'.1, tls));
        if e' in init {
          assert UseFrom(eps, init, tls, u);
        } else {
          RulesUsesExact(eps, StreamNs(e.1), e.1.rules, HostnamesFor(e.1, tls), u);
        }
      }
    }
  }

  lemma UsesExact(st: GatewayState)
    ensures forall u :: u in Uses(st) <==>
            UseFrom(st.endpoints, st.tlsRoutes, true, u) || UseFrom(st.endpoints, st.tcpRoutes, false, u)
  {
    StrLeTotalOrder();
    EntriesUsesExact(st.endpoints, InKeyOrder(st.tlsRoutes), true);
    EntriesUsesExact(st.endpoints, InKeyOrder(st.tcpRoutes), false);
    MembersOfSort(st.tlsRoutes, EntryKey<StreamRoute>, StrLe);
    MembersOfSort(st.tcpRoutes, EntryKey<StreamRoute>, StrLe);
    SameUses(st.endpoints, InKeyOrder(st.tlsRoutes), st.tlsRoutes, true);
    SameUses(st.endpoints, InKeyOrder(st.tcpRoutes), st.tcpRoutes, false);
  }

  lemma SameUses(eps: Endpoints, xs: seq<(string, StreamRoute)>, ys: seq<(string, StreamRoute)>, tls: bool)
    requires forall e :: e in xs <==> e in ys
    ensures forall u :: UseFrom(eps, xs, tls, u) <==> UseFrom(eps, ys, tls, u)
  {
  }

  // ---------- What the accumulator holds ----------

  predicate Claims(u: Use, hostname: string) { u.hostnames.Some? && hostname in u.hostnames.value }

  /** The first use, in order, that claims a hostname. */
  function FirstClaimant(us: seq<Use>, hostname: string): (r: Option<Use>)
    ensures r.Some? ==> r.value in us && Claims(r.value, hostname)
  {
    if us == [] then None
    else
      var before := FirstClaimant(us[..|us| - 1], hostname);
      if before.Some? then before
      else if Claims(us[|us| - 1], hostname) then Some(us[|us| - 1])
      else None
  }

  /** The first TLSRoute use without hostnames. */
  function FirstCatchAll(us: seq<Use>): (r: Option<Use>)
    ensures r.Some? ==> r.value in us && r.value.hostnames == Some([])
    ensures r.None? ==> forall u :: u in us ==> u.hostnames != Some([])
  {
    if us == [] then None
    else
      var before := FirstCatchAll(us[..|us| - 1]);
      assert us == us[..|us| - 1] + [us[|us| - 1]];
      if before.Some? then before
      else if us[|us| - 1].hostnames == Some([]) then Some(us[|us| - 1])
      else None
  }

  function NameOf(u: Option<Use>): Option<string> { if u.Some? then Some(u.value.name) else None }

  /** Upstreams mirror the uses; SNI routes give each claimed hostname, once, its first claimant; the
      catch-all is the first use without hostnames. */
  ghost predicate Mirrors(acc: Acc, us: seq<Use>) {
    && |acc.upstreams| == |us|
    && (forall i :: 0 <= i < |us| ==> acc.upstreams[i] == StreamUpstream(us[i].name, us[i].servers))
    && acc.catchAll == NameOf(FirstCatchAll(us))
    && SniMirrors(acc, us)
  }

  ghost predicate SniMirrors(acc: Acc, us: seq<Use>) {
    && (forall h :: NameOf(FirstClaimant(us, h)) == if h in acc.owners then Some(acc.owners[h]) else None)
    && OwnersList(acc)
  }

  ghost predicate OwnersList(acc: Acc) {
    && (forall h :: h in acc.owners ==> (h, acc.owners[h]) in acc.sni)
    && (forall c :: c in acc.sni ==> c.0 in acc.owners && acc.owners[c.0] == c.1)
    && (forall i, j :: 0 <= i < j < |acc.sni| ==> acc.sni[i].0 != acc.sni[j].0)
  }

  lemma ClaimKeepsOwners(acc: Acc, h: string, name: string)
    requires OwnersList(acc)
    ensures OwnersList(Claim(acc, h, name))
  {
    if h !in acc.owners {
      var acc' := Claim(acc, h, name);
      forall i | 0 <= i < |acc.sni| ensures acc.sni[i].0 != h { assert acc.sni[i] in acc.sni; }
      assert acc'.sni[|acc.sni|] == (h, name);
    }
  }

  lemma {:induction false} ClaimAllKeepsOwners(acc: Acc, hs: seq<string>, name: string)
    requires OwnersList(acc)
    ensures var acc' := ClaimAll(acc, hs, name);
            OwnersList(acc') && acc'.upstreams == acc.upstreams && acc'.catchAll == acc.catchAll
  {
    if hs != [] {
      ClaimAllKeepsOwners(acc, hs[..|hs| - 1], name);
      ClaimKeepsOwners(ClaimAll(acc, hs[..|hs| - 1], name), hs[|hs| - 1], name);
    }
  }

  lemma {:induction false} ClaimAllClaims(acc: Acc, hs: seq<string>, name: string, h: string)
    ensures h in ClaimAll(acc, hs, name).owners <==> h in acc.owners || h in hs
  {
    if hs != [] {
      var init, last := hs[..|hs| - 1], hs[|hs| - 1];
      ClaimAllClaims(acc, init, name, h);
      assert hs == init + [last];
    }
  }

  lemma ClaimAllExact(acc: Acc, hs: seq<string>, name: string)
    requires OwnersList(acc)
    ensures var acc' := ClaimAll(acc, hs, name);
            && OwnersList(acc') && acc'.upstreams == acc.upstreams && acc'.catchAll == acc.catchAll
            && forall h :: h in acc'.owners <==> h in acc.owners || h in hs
  {
    ClaimAllKeepsOwners(acc, hs, name);
    forall h ensures h in ClaimAll(acc, hs, name).owners <==> h in acc.owners || h in hs {
      ClaimAllClaims(acc, hs, name, h);
    }
  }

  lemma {:induction false} ClaimAllOwners(acc: Acc, hs: seq<string>, name: string, h: string)
    requires h in ClaimAll(acc, hs, name).owners
    ensures ClaimAll(acc, hs, name).owners[h] == if h in acc.owners then acc.owners[h] else name
  {
    if hs != [] {
      var init := hs[..|hs| - 1];
      if h in ClaimAll(acc, init, name).owners {
        ClaimAllOwners(acc, init, name, h);
      } else {
        ClaimsOnlyGrow(acc, init, name);
      }
    }
  }

  lemma {:induction false} ClaimsOnlyGrow(acc: Acc, hs: seq<string>, name: string)
    ensures forall h :: h in acc.owners ==> h in ClaimAll(acc, hs, name).owners
  {
    if hs != [] { ClaimsOnlyGrow(acc, hs[..|hs| - 1], name); }
  }

  lemma NextClaimant(us: seq<Use>, u: Use, h: string)
    ensures FirstClaimant(us + [u], h) ==
            if FirstClaimant(us, h).Some? then FirstClaimant(us, h) else if Claims(u, h) then Some(u) else None
    ensures FirstCatchAll(us + [u]) ==
            if FirstCatchAll(us).Some? then FirstCatchAll(us) else if u.hostnames == Some([]) then Some(u) else None
  {
    assert (us + [u])[..|us|] == us;
  }

  lemma ApplyKeepsSni(acc: Acc, us: seq<Use>, u: Use)
    requires SniMirrors(acc, us) && u.hostnames.Some?
    ensures SniMirrors(ClaimAll(acc, u.hostnames.value, u.name), us + [u])
  {
    var hs := u.hostnames.value;
    var acc' := ClaimAll(acc, hs, u.name);
    ClaimAllExact(acc, hs, u.name);
    forall h ensures NameOf(FirstClaimant(us + [u], h)) == if h in acc'.owners then Some(acc'.owners[h]) else None {
      NextClaimant(us, u, h);
      if h in acc'.owners { ClaimAllOwners(acc, hs, u.name, h); }
    }
  }

  lemma ApplyKeepsUpstreams(acc: Acc, us: seq<Use>, u: Use)
    requires OwnersList(acc) && |acc.upstreams| == |us|
    requires forall i :: 0 <= i < |us| ==> acc.upstreams[i] == StreamUpstream(us[i].name, us[i].servers)
    ensures var ups := Apply(acc, u).upstreams;
            && |ups| == |us + [u]|
            && forall i :: 0 <= i < |us + [u]| ==> ups[i] == StreamUpstream((us + [u])[i].name, (us + [u])[i].servers)
  {
    if u.hostnames.Some? && u.hostnames.value != [] {
      ClaimAllExact(acc.(upstreams := acc.upstreams + [StreamUpstream(u.name, u.servers)]), u.hostnames.value, u.name);
    }
  }

  lemma ApplyKeepsSniMirror(acc: Acc, us: seq<Use>, u: Use)
    requires SniMirrors(acc, us)
    ensures SniMirrors(Apply(acc, u), us + [u])
  {
    if u.hostnames.Some? && u.hostnames.value != [] {
      ApplyKeepsSni(acc.(upstreams := acc.upstreams + [StreamUpstream(u.name, u.servers)]), us, u);
    } else {
      forall h ensures FirstClaimant(us + [u], h) == FirstClaimant(us, h) { NextClaimant(us, u, h); }
    }
  }

  lemma ApplyKeepsCatchAll(acc: Acc, us: seq<Use>, u: Use)
    requires OwnersList(acc) && acc.catchAll == NameOf(FirstCatchAll(us))
    ensures Apply(acc, u).catchAll == NameOf(FirstCatchAll(us + [u]))
  {
    NextClaimant(us, u, "");
    if u.hostnames.Some? && u.hostnames.value != [] {
      ClaimAllExact(acc.(upstreams := acc.upstreams + [StreamUpstream(u.name, u.servers)]), u.hostnames.value, u.name);
    }
  }

  lemma ApplyKeepsMirror(acc: Acc, us: seq<Use>, u: Use)
    requires Mirrors(acc, us)
    ensures Mirrors(Apply(acc, u), us + [u])
  {
    ApplyKeepsUpstreams(acc, us, u);
    ApplyKeepsCatchAll(acc, us, u);
    ApplyKeepsSniMirror(acc, us, u);
  }

  lemma {:induction false} ApplyAllMirrors(us: seq<Use>)
    ensures Mirrors(ApplyAll(EMPTY, us), us)
  {
    if us != [] {
      var n := |us| - 1;
      ApplyAllMirrors(us[..n]);
      ApplyKeepsMirror(ApplyAll(EMPTY, us[..n]), us[..n], us[n]);
      assert us[..n] + [us[n]] == us;
    }
  }

  // ---------- The stream it becomes, and how it routes ----------

  function SortedSni(acc: Acc): seq<(string, string)> { InKeyOrder(acc.sni) }

  lemma SortedSniFacts(acc: Acc)
    requires OwnersList(acc)
    ensures DistinctKeys(SortedSni(acc), EntryKey<string>) && forall c :: c in SortedSni(acc) <==> c in acc.sni
  {
    forall i, j | 0 <= i < j < |acc.sni| ensures EntryKey(acc.sni[i]) != EntryKey(acc.sni[j]) {
      if EntryKey(acc.sni[i]) == EntryKey(acc.sni[j]) { CodesInjective(acc.sni[i].0, acc.sni[j].0); }
    }
    SortedEntriesFacts(acc.sni);
  }

  ghost predicate Claimed(us: seq<Use>, h: string) { FirstClaimant(us, h).Some? }

  /** No two claimed hostnames differ only in case. */
  ghost predicate CaseDistinct(us: seq<Use>) {
    forall g, h :: Claimed(us, g) && Claimed(us, h) && ToLower(g) == ToLower(h) ==> g == h
  }

  /** The first claimant of the hostname that reads `host` in lower case. */
  ghost function Owner(us: seq<Use>, host: string): Option<Use> {
    if exists h :: Claimed(us, h) && ToLower(h) == host then
      var h :| Claimed(us, h) && ToLower(h) == host; FirstClaimant(us, h)
    else None
  }

  /** The reference a client name belongs to: the owner of the name itself, else of the wildcard covering
      it, else the first TLSRoute reference without hostnames. */
  ghost function Claimant(us: seq<Use>, host: string): Option<Use> {
    if Owner(us, host).Some? then Owner(us, host)
    else if WildcardKey(host).Some? && Owner(us, WildcardKey(host).value).Some? then Owner(us, WildcardKey(host).value)
    else FirstCatchAll(us)
  }

  lemma SniConsistent(us: seq<Use>, acc: Acc, entries: seq<(string, string)>)
    requires CaseDistinct(us) && SniMirrors(acc, us) && forall c :: c in entries <==> c in acc.sni
    ensures Consistent(entries)
  {
    forall c, d | c in entries && d in entries && LowerKey(c) == LowerKey(d) ensures c.1 == d.1 {
      assert Claimed(us, c.0) && Claimed(us, d.0);
    }
  }

  lemma LookupIsOwner(us: seq<Use>, acc: Acc, entries: seq<(string, string)>, host: string)
    requires CaseDistinct(us) && SniMirrors(acc, us) && forall c :: c in entries <==> c in acc.sni
    ensures Lookup(entries, host) == NameOf(Owner(us, host))
  {
    LookupSound(entries, host);
    assert forall c :: c in entries ==> Claimed(us, c.0);
    if h :| Claimed(us, h) && ToLower(h) == host && Owner(us, host) == FirstClaimant(us, h) {
      var c := (h, acc.owners[h]);
      assert c in entries;
      SniConsistent(us, acc, entries);
      if Lookup(entries, host).None? { NoLookup(entries, host, c); }
    }
  }

  /** The router built from the rendered SNI routes, however their map is enumerated, names the upstream of
      the claimant of every client name. */
  lemma SniReachesFirstClaimant(us: seq<Use>, entries: seq<(string, string)>, sni: string)
    requires CaseDistinct(us) && multiset(entries) == multiset(SortedSni(ApplyAll(EMPTY, us)))
    ensures MatchResult(NewRouter(entries, ApplyAll(EMPTY, us).catchAll), Some(sni))
            == NameOf(Claimant(us, ToLower(sni)))
  {
    var acc := ApplyAll(EMPTY, us);
    var host := ToLower(sni);
    ApplyAllMirrors(us);
    SortedSniFacts(acc);
    SameMembers(entries, SortedSni(acc));
    RouterEqualsIndex(entries, acc.catchAll, sni);
    LookupIsOwner(us, acc, entries, host);
    if WildcardKey(host).Some? { LookupIsOwner(us, acc, entries, WildcardKey(host).value); }
  }

  // ---------- Which servers that is ----------

  /** References that share an upstream name share their servers. */
  ghost predicate UsesUnambiguous(us: seq<Use>) {
    forall u, v :: u in us && v in us && u.name == v.name ==> u.servers == v.servers
  }

  /** Every reference's clients reach its own servers exactly when names are unambiguous. */
  lemma UsesOwnServersIff(us: seq<Use>)
    ensures OwnServers(ApplyAll(EMPTY, us).upstreams) <==> UsesUnambiguous(us)
  {
    var ups := ApplyAll(EMPTY, us).upstreams;
    ApplyAllMirrors(us);
    OwnServersIff(ups);
    if UsesUnambiguous(us) {
      forall i, j | 0 <= i < j < |ups| && ups[i].name == ups[j].name ensures ups[i].servers == ups[j].servers {
        assert us[i] in us && us[j] in us;
      }
    }
    if Unambiguous(ups) {
      forall u, v | u in us && v in us && u.name == v.name ensures u.servers == v.servers {
        var i :| 0 <= i < |us| && us[i] == u;
        var j :| 0 <= j < |us| && us[j] == v;
        assert ups[i].name == ups[j].name;
        assert i < j || j < i || i == j;
      }
    }
  }

  /** End to end: every client name whose connection is routed at all reaches the servers of its claimant. */
  lemma ClientReachesClaimant(us: seq<Use>, entries: seq<(string, string)>, sni: string)
    requires CaseDistinct(us) && UsesUnambiguous(us)
    requires multiset(entries) == multiset(SortedSni(ApplyAll(EMPTY, us)))
    ensures var acc, owner := ApplyAll(EMPTY, us), Claimant(us, ToLower(sni));
            match MatchResult(NewRouter(entries, acc.catchAll), Some(sni))
            case None => owner.None?
            case Some(n) =>
              owner.Some? && n in TableOf(acc.upstreams) && TableOf(acc.upstreams)[n] == owner.value.servers
  {
    var owner := Claimant(us, ToLower(sni));
    SniReachesFirstClaimant(us, entries, sni);
    UsesOwnServersIff(us);
    ApplyAllMirrors(us);
    if owner.Some? {
      assert owner.value in us;
      var i :| 0 <= i < |us| && us[i] == owner.value;
    }
  }

  /** A backend reference of an accepted TLSRoute (`t`) or TCPRoute. */
  ghost predicate IsRef(
    tls: seq<(string, StreamRoute)>, tcp: seq<(string, StreamRoute)>,
    t: bool, e: (string, StreamRoute), k: nat, b: BackendRef)
  {
    e in (if t then tls else tcp) && Accepted(e.1.status) && k < |e.1.rules| && b in e.1.rules[k]
  }

  /** Two references mean one Service under one DNS name and port. */
  predicate SameTarget(t: bool, r: StreamRoute, b: BackendRef, t': bool, r': StreamRoute, b': BackendRef) {
    && TargetKey(StreamNs(r), b) == TargetKey(StreamNs(r'), b')
    && DnsAddr(StreamNs(r), b, DefaultPort(t)) == DnsAddr(StreamNs(r'), b', DefaultPort(t'))
  }

  function UpstreamName(r: StreamRoute, b: BackendRef): string { StreamNs(r) + "-" + b.name }

  /** References that share an upstream name share their target. */
  ghost predicate OneTargetPerName(tls: seq<(string, StreamRoute)>, tcp: seq<(string, StreamRoute)>) {
    forall t, e, k: nat, b, t', e', k': nat, b' ::
      IsRef(tls, tcp, t, e, k, b) && IsRef(tls, tcp, t', e', k', b') && UpstreamName(e.1, b) == UpstreamName(e'.1, b')
      ==> SameTarget(t, e.1, b, t', e'.1, b')
  }

  lemma RefIsUse(st: GatewayState, tls: bool, e: (string, StreamRoute), k: nat, b: BackendRef)
    requires IsRef(st.tlsRoutes, st.tcpRoutes, tls, e, k, b)
    ensures UseOf(st.endpoints, StreamNs(e.1), b, HostnamesFor(e.1, tls)) in Uses(st)
  {
    UsesExact(st);
    assert UseFrom(st.endpoints, if tls then st.tlsRoutes else st.tcpRoutes, tls,
                   UseOf(st.endpoints, StreamNs(e.1), b, HostnamesFor(e.1, tls)));
  }

  lemma UseIsRef(st: GatewayState, u: Use) returns (tls: bool, e: (string, StreamRoute), k: nat, b: BackendRef)
    requires u in Uses(st)
    ensures IsRef(st.tlsRoutes, st.tcpRoutes, tls, e, k, b)
            && u == UseOf(st.endpoints, StreamNs(e.1), b, HostnamesFor(e.1, tls))
  {
    UsesExact(st);
    tls := UseFrom(st.endpoints, st.tlsRoutes, true, u);
    var entries := if tls then st.tlsRoutes else st.tcpRoutes;
    var i: int;
    e, i, b :| e in entries && Accepted(e.1.status) && 0 <= i < |e.1.rules| && b in e.1.rules[i]
               && u == UseOf(st.endpoints, StreamNs(e.1), b, HostnamesFor(e.1, tls));
    k := i;
  }

  /** The condition on the objects alone: clients reach their own servers whatever endpoints the Services
      have, if and only if references that share a name share their target. */
  lemma AlwaysOwnServersIff(st: GatewayState)
    ensures (forall eps :: OwnServers(ApplyAll(EMPTY, Uses(st.(endpoints := eps))).upstreams))
       <==> OneTargetPerName(st.tlsRoutes, st.tcpRoutes)
  {
    if OneTargetPerName(st.tlsRoutes, st.tcpRoutes) {
      forall eps ensures OwnServers(ApplyAll(EMPTY, Uses(st.(endpoints := eps))).upstreams) {
        OneTargetIsUnambiguous(st.(endpoints := eps));
        UsesOwnServersIff(Uses(st.(endpoints := eps)));
      }
    }
    if forall eps :: OwnServers(ApplyAll(EMPTY, Uses(st.(endpoints := eps))).upstreams) {
      forall t, e, k: nat, b, t', e', k': nat, b' |
        IsRef(st.tlsRoutes, st.tcpRoutes, t, e, k, b) && IsRef(st.tlsRoutes, st.tcpRoutes, t', e', k', b')
        && UpstreamName(e.1, b) == UpstreamName(e'.1, b')
        ensures SameTarget(t, e.1, b, t', e'.1, b')
      {
        SharedNameSharesTarget(st, t, e, k, b, t', e', k', b');
      }
    }
  }

  lemma SharedNameSharesTarget(
    st: GatewayState, t: bool, e: (string, StreamRoute), k: nat, b: BackendRef,
    t': bool, e': (string, StreamRoute), k': nat, b': BackendRef)
    requires forall eps :: OwnServers(ApplyAll(EMPTY, Uses(st.(endpoints := eps))).upstreams)
    requires IsRef(st.tlsRoutes, st.tcpRoutes, t, e, k, b) && IsRef(st.tlsRoutes, st.tcpRoutes, t', e', k', b')
    requires UpstreamName(e.1, b) == UpstreamName(e'.1, b')
    ensures SameTarget(t, e.1, b, t', e'.1, b')
  {
    var ns, ns' := StreamNs(e.1), StreamNs(e'.1);
    forall eps ensures BackendAddrs(eps, ns, b, DefaultPort(t)) == BackendAddrs(eps, ns', b', DefaultPort(t')) {
      var s := st.(endpoints := eps);
      RefIsUse(s, t, e, k, b);
      RefIsUse(s, t', e', k', b');
      UsesOwnServersIff(Uses(s));
    }
    SameAddrsIff(ns, b, DefaultPort(t), ns', b', DefaultPort(t'));
  }

  lemma OneTargetIsUnambiguous(st: GatewayState)
    requires OneTargetPerName(st.tlsRoutes, st.tcpRoutes)
    ensures UsesUnambiguous(Uses(st))
  {
    forall u, v | u in Uses(st) && v in Uses(st) && u.name == v.name ensures u.servers == v.servers {
      var t, e, k, b := UseIsRef(st, u);
      var t', e', k', b' := UseIsRef(st, v);
      assert SameTarget(t, e.1, b, t', e'.1, b');
      SameAddrsIff(StreamNs(e.1), b, DefaultPort(t), StreamNs(e'.1), b', DefaultPort(t'));
    }
  }

  /** It can fail: one TLSRoute whose two backends have one name in two namespaces. */
  ghost function TwoNamespaces(ns: string, name: string, x: string, y: string): StreamRoute {
    var x', y' := BackendRef("", "Service", name, Some(x), None), BackendRef("", "Service", name, Some(y), None);
    StreamRoute(Meta(Some(ns), None), [], ["h"], [[x', y']],
                Some([ParentStatus(WICKET_CONTROLLER_NAME, [Condition("Accepted", "True")])]))
  }

  lemma NamespacesCollide(ns: string, name: string, x: string, y: string, key: string)
    requires ObjectKey(x, name) != ObjectKey(y, name)
    ensures var st := GatewayState([], [], [], [(key, TwoNamespaces(ns, name, x, y))], map[], map[]);
            exists eps :: !OwnServers(ApplyAll(EMPTY, Uses(st.(endpoints := eps))).upstreams)
  {
    var r := TwoNamespaces(ns, name, x, y);
    var st := GatewayState([], [], [], [(key, r)], map[], map[]);
    assert AcceptedHere(r.status.value[0]);
    var refs := r.rules[0];
    assert refs[0] in refs && refs[1] in refs && (key, r) in st.tlsRoutes;
    assert IsRef(st.tlsRoutes, st.tcpRoutes, true, (key, r), 0, refs[0])
           && IsRef(st.tlsRoutes, st.tcpRoutes, true, (key, r), 0, refs[1]);
    AlwaysOwnServersIff(st);
  }
}
