/** Hot reload of a stream listener: router and upstreams live in two separately stored slots, and
    every connection loads them one after the other. */
module HotReload {
  import opened Text
  import opened Config
  import opened SniRouting
  import opened StreamTable

  datatype Conn = GotRouter(router: nat) | Snapshot(router: nat, upstreams: nat)

  /** `versions` lists the configurations whose router was ever stored, oldest first; a slot holds a
      version number.  Between its two stores the reloader is `midway`. */
  datatype State = State(versions: seq<StreamConfig>, router: nat, upstreams: nat, midway: bool, conns: map<nat, Conn>)

  datatype Action =
    | Reload(config: StreamConfig)
    | StoreUpstreams
    | LoadRouter(conn: nat)
    | LoadUpstreams(conn: nat)

  /** `parses` says which backend strings parse; one that does not makes the reload fail. */
  ghost predicate Buildable(parses: string -> bool, c: StreamConfig) { AllParse(parses, c.upstreams, |c.upstreams|) }

  /** The two slots of a running proxy. */
  class StreamProxy {
    var router: SniRouter
    var upstreams: Table

    /** Both slots change, or neither: everything that can fail happens before the first store. */
    method Reload(parses: string -> bool, c: StreamConfig) returns (r: Result<(), string>)
      modifies this
      ensures r.Ok? <==> Buildable(parses, c)
      ensures r.Err? ==> router == old(router) && upstreams == old(upstreams) && !parses(r.error)
      ensures r.Ok? ==> router == NewRouter(c.sniRoutes, c.defaultUpstream) && upstreams == TableOf(c.upstreams)
    {
      var newRouter := NewRouter(c.sniRoutes, c.defaultUpstream);
      var table := BuildTable(parses, c.upstreams);
      if table.Err? {
        return Err(table.error);
      }
      router := newRouter;
      upstreams := table.value;
      return Ok(());
    }
  }

  /** The table of a configuration names the upstreams its validation looks at. */
  lemma TableNames(c: StreamConfig)
    ensures TableOf(c.upstreams).Keys == UpstreamNames(c)
  {
    forall n ensures n in TableOf(c.upstreams) <==> n in UpstreamNames(c) { TableExact(c.upstreams, n); }
  }

  function Start(c: StreamConfig): State { State([c], 0, 0, false, map[]) }

  /** One step; an action that is not enabled changes nothing.  There is one reloader, so a reload
      begins only after the previous one has stored both slots. */
  ghost function Next(parses: string -> bool, s: State, a: Action): State {
    match a
    case Reload(c) =>
      if s.midway || !Buildable(parses, c) then s
      else s.(versions := s.versions + [c], router := |s.versions|, midway := true)
    case StoreUpstreams => if s.midway then s.(upstreams := s.router, midway := false) else s
    case LoadRouter(n) => if n in s.conns then s else s.(conns := s.conns[n := GotRouter(s.router)])
    case LoadUpstreams(n) =>
      if n in s.conns && s.conns[n].GotRouter?
      then s.(conns := s.conns[n := Snapshot(s.conns[n].router, s.upstreams)])
      else s
  }

  ghost function Run(parses: string -> bool, s: State, actions: seq<Action>): State
    decreases |actions|
  {
    if actions == [] then s else Run(parses, Next(parses, s, actions[0]), actions[1..])
  }

  /** The upstream the snapshot's router names for a connection, if any, is in its upstream table. */
  predicate Resolves(s: State, c: Conn, sni: Option<string>)
    requires c.Snapshot? && c.router < |s.versions| && c.upstreams < |s.versions|
  {
    var r := s.versions[c.router];
    match MatchResult(NewRouter(r.sniRoutes, r.defaultUpstream), sni)
    case None => true
    case Some(name) => name in UpstreamNames(s.versions[c.upstreams])
  }

  // ---------- Versions ----------

  ghost predicate Inv(s: State) {
    && s.router + 1 == |s.versions|
    && s.router == s.upstreams + (if s.midway then 1 else 0)
    && forall n :: n in s.conns ==>
         match s.conns[n]
         case GotRouter(r) => r <= s.router && r <= s.upstreams + 1
         case Snapshot(r, u) => r <= u + 1 && r <= s.router && u <= s.router
  }

  /** In every run, a snapshot's upstreams are never more than one version behind its router. */
  lemma {:induction false} NeverTwoBehind(parses: string -> bool, s: State, actions: seq<Action>)
    requires Inv(s)
    ensures Inv(Run(parses, s, actions))
    decreases |actions|
  {
    if actions != [] {
      assert Inv(Next(parses, s, actions[0]));
      NeverTwoBehind(parses, Next(parses, s, actions[0]), actions[1..]);
    }
  }

  /** A name present in the version before the router's and in every later one always resolves. */
  lemma StableNameResolves(
    parses: string -> bool, first: StreamConfig, actions: seq<Action>, n: nat, sni: Option<string>, name: string)
    requires var e := Run(parses, Start(first), actions);
             && n in e.conns && e.conns[n].Snapshot?
             && e.conns[n].router < |e.versions|
             && MatchResult(NewRouter(e.versions[e.conns[n].router].sniRoutes,
                e.versions[e.conns[n].router].defaultUpstream), sni) == Some(name)
             && forall v :: 0 <= v < |e.versions| && v + 1 >= e.conns[n].router ==> name in UpstreamNames(e.versions[v])
    ensures var e := Run(parses, Start(first), actions);
            e.conns[n].upstreams < |e.versions| && Resolves(e, e.conns[n], sni)
  {
    NeverTwoBehind(parses, Start(first), actions);
  }

  // ---------- Which names a router can produce ----------

  lemma {:induction false} FirstMatchFromRoutes(routes: seq<Route>, host: string)
    ensures FirstMatch(routes, host).Some? ==> exists r :: r in routes && FirstMatch(routes, host) == Some(r.upstream)
  {
    if routes != [] {
      FirstMatchFromRoutes(routes[1..], host);
      assert routes[0] in routes;
    }
  }

  lemma MatchIsRoutable(c: StreamConfig, sni: Option<string>)
    ensures var m := MatchResult(NewRouter(c.sniRoutes, c.defaultUpstream), sni); m.Some? ==> m.value in Routable(c)
  {
    if sni.Some? {
      var routes := NewRouter(c.sniRoutes, c.defaultUpstream).routes;
      FirstMatchFromRoutes(routes, ToLower(sni.value));
      RouterMembers(c.sniRoutes, c.defaultUpstream);
      if FirstMatch(routes, ToLower(sni.value)).Some? {
        var r :| r in routes && FirstMatch(routes, ToLower(sni.value)) == Some(r.upstream);
        var i :| 0 <= i < |c.sniRoutes| && CompileRoutes(c.sniRoutes)[i] == r;
        assert c.sniRoutes[i].1 in Routable(c);
      }
    }
  }

  /** The router names `name` for some connection. */
  ghost predicate Answers(c: StreamConfig, name: string) {
    exists sni :: MatchResult(NewRouter(c.sniRoutes, c.defaultUpstream), sni) == Some(name)
  }

  /** Exactly the default and what the keys of the table look up. */
  lemma AnswersIff(c: StreamConfig, name: string)
    ensures Answers(c, name) <==>
            || c.defaultUpstream == Some(name)
            || exists e :: e in c.sniRoutes && Lookup(c.sniRoutes, LowerKey(e)) == Some(name)
  {
    if Answers(c, name) {
      var sni :| MatchResult(NewRouter(c.sniRoutes, c.defaultUpstream), sni) == Some(name);
      if sni.Some? { AnswerComesFromEntry(c, sni.value, name); }
    }
    if c.defaultUpstream == Some(name) {
      assert MatchResult(NewRouter(c.sniRoutes, c.defaultUpstream), None) == Some(name);
    }
    if e :| e in c.sniRoutes && Lookup(c.sniRoutes, LowerKey(e)) == Some(name) {
      RouterEqualsIndex(c.sniRoutes, c.defaultUpstream, e.0);
      assert MatchResult(NewRouter(c.sniRoutes, c.defaultUpstream), Some(e.0)) == Some(name);
    }
  }

  lemma AnswerComesFromEntry(c: StreamConfig, sni: string, name: string)
    requires MatchResult(NewRouter(c.sniRoutes, c.defaultUpstream), Some(sni)) == Some(name)
    ensures || c.defaultUpstream == Some(name)
            || exists e :: e in c.sniRoutes && Lookup(c.sniRoutes, LowerKey(e)) == Some(name)
  {
    var host := ToLower(sni);
    RouterEqualsIndex(c.sniRoutes, c.defaultUpstream, sni);
    LookupSound(c.sniRoutes, host);
    if WildcardKey(host).Some? { LookupSound(c.sniRoutes, WildcardKey(host).value); }
  }

  /** When keys that differ only in case share their upstream, these are the names validation checks. */
  lemma AnswersAreRoutable(c: StreamConfig, name: string)
    requires Consistent(c.sniRoutes)
    ensures Answers(c, name) <==> name in Routable(c)
  {
    AnswersIff(c, name);
    forall i | 0 <= i < |c.sniRoutes| ensures Lookup(c.sniRoutes, LowerKey(c.sniRoutes[i])) == Some(c.sniRoutes[i].1) {
      ConsistentLookup(c.sniRoutes, c.sniRoutes[i]);
    }
    if e :| e in c.sniRoutes && Lookup(c.sniRoutes, LowerKey(e)) == Some(name) {
      var i :| 0 <= i < |c.sniRoutes| && c.sniRoutes[i] == e;
      assert c.sniRoutes[i].1 == name;
    }
  }

  lemma ConsistentLookup(entries: seq<(string, string)>, e: (string, string))
    requires Consistent(entries) && e in entries
    ensures Lookup(entries, LowerKey(e)) == Some(e.1)
  {
    LookupSound(entries, LowerKey(e));
    if Lookup(entries, LowerKey(e)).None? { NoLookup(entries, LowerKey(e), e); }
  }

  // ---------- When a reload is seamless ----------

  /** No connection of any run that reloads `next` over `prev` meets an unknown upstream. */
  ghost predicate Seamless(parses: string -> bool, prev: StreamConfig, next: StreamConfig) {
    forall actions: seq<Action>, n: nat, sni: Option<string> ::
      OnlyReloads(actions, next) && SnapshotIn(Run(parses, Start(prev), actions), n) ==>
      Resolves(Run(parses, Start(prev), actions), Run(parses, Start(prev), actions).conns[n], sni)
  }

  predicate OnlyReloads(actions: seq<Action>, next: StreamConfig) {
    forall i :: 0 <= i < |actions| && actions[i].Reload? ==> actions[i].config == next
  }

  predicate SnapshotIn(s: State, n: nat) {
    n in s.conns && s.conns[n].Snapshot? && s.conns[n].router < |s.versions| && s.conns[n].upstreams < |s.versions|
  }

  lemma {:induction false} VersionsOfRun(
    parses: string -> bool, s: State, actions: seq<Action>, prev: StreamConfig, next: StreamConfig)
    requires forall v :: v in s.versions ==> v == prev || v == next
    requires OnlyReloads(actions, next)
    ensures forall v :: v in Run(parses, s, actions).versions ==> v == prev || v == next
    decreases |actions|
  {
    if actions != [] {
      VersionsOfRun(parses, Next(parses, s, actions[0]), actions[1..], prev, next);
    }
  }

  /** The connection loads the router after the first store and the upstreams before the second. */
  function Straddle(next: StreamConfig): seq<Action> { [Reload(next), LoadRouter(0), LoadUpstreams(0)] }

  lemma StraddleSnapshot(parses: string -> bool, prev: StreamConfig, next: StreamConfig)
    requires Buildable(parses, next)
    ensures var e := Run(parses, Start(prev), Straddle(next));
            e.versions == [prev, next] && SnapshotIn(e, 0) && e.conns[0] == Snapshot(1, 0)
  {
    var x := Straddle(next);
    assert x[1..] == [LoadRouter(0), LoadUpstreams(0)] && x[1..][1..] == [LoadUpstreams(0)];
    var s1 := Next(parses, Start(prev), Reload(next));
    var s2 := Next(parses, s1, LoadRouter(0));
    assert Run(parses, s1, x[1..]) == Run(parses, s2, [LoadUpstreams(0)]);
    assert Run(parses, s2, [LoadUpstreams(0)]) == Next(parses, s2, LoadUpstreams(0));
  }

  /** The connection loads the router before the reload and the upstreams after it. */
  function Overtaken(next: StreamConfig): seq<Action> {
    [LoadRouter(0), Reload(next), StoreUpstreams, LoadUpstreams(0)]
  }

  lemma OvertakenSnapshot(parses: string -> bool, prev: StreamConfig, next: StreamConfig)
    requires Buildable(parses, next)
    ensures var e := Run(parses, Start(prev), Overtaken(next));
            e.versions == [prev, next] && SnapshotIn(e, 0) && e.conns[0] == Snapshot(0, 1)
  {
    var x := Overtaken(next);
    assert x[1..] == [Reload(next), StoreUpstreams, LoadUpstreams(0)];
    assert x[1..][1..] == [StoreUpstreams, LoadUpstreams(0)] && x[1..][1..][1..] == [LoadUpstreams(0)];
    var s1 := Next(parses, Start(prev), LoadRouter(0));
    var s2 := Next(parses, s1, Reload(next));
    var s3 := Next(parses, s2, StoreUpstreams);
    assert Run(parses, s1, x[1..]) == Run(parses, s2, [StoreUpstreams, LoadUpstreams(0)]);
    assert Run(parses, s2, [StoreUpstreams, LoadUpstreams(0)]) == Run(parses, s3, [LoadUpstreams(0)]);
    assert Run(parses, s3, [LoadUpstreams(0)]) == Next(parses, s3, LoadUpstreams(0));
  }

  lemma Unresolved(parses: string -> bool, prev: StreamConfig, next: StreamConfig, actions: seq<Action>, name: string)
    requires OnlyReloads(actions, next)
    requires var e := Run(parses, Start(prev), actions);
             && SnapshotIn(e, 0) && Answers(e.versions[e.conns[0].router], name)
             && name !in UpstreamNames(e.versions[e.conns[0].upstreams])
    ensures !Seamless(parses, prev, next)
  {
    var e := Run(parses, Start(prev), actions);
    var r := e.versions[e.conns[0].router];
    var sni :| MatchResult(NewRouter(r.sniRoutes, r.defaultUpstream), sni) == Some(name);
    assert !Resolves(e, e.conns[0], sni);
  }

  /** Every name the router of `c` gives is defined by `d`. */
  ghost predicate Covers(d: StreamConfig, c: StreamConfig) { forall n :: Answers(c, n) ==> n in UpstreamNames(d) }

  lemma ValidCoversItself(c: StreamConfig)
    requires StreamOk(c)
    ensures Covers(c, c)
  {
    forall n | Answers(c, n) ensures n in UpstreamNames(c) {
      var sni :| MatchResult(NewRouter(c.sniRoutes, c.defaultUpstream), sni) == Some(n);
      MatchIsRoutable(c, sni);
    }
  }

  lemma CoveredResolves(
    parses: string -> bool, prev: StreamConfig, next: StreamConfig, actions: seq<Action>, n: nat, sni: Option<string>)
    requires Covers(prev, prev) && Covers(prev, next) && Covers(next, prev) && Covers(next, next)
    requires OnlyReloads(actions, next) && SnapshotIn(Run(parses, Start(prev), actions), n)
    ensures var e := Run(parses, Start(prev), actions); Resolves(e, e.conns[n], sni)
  {
    var e := Run(parses, Start(prev), actions);
    VersionsOfRun(parses, Start(prev), actions, prev, next);
    var r, u := e.versions[e.conns[n].router], e.versions[e.conns[n].upstreams];
    assert r in e.versions && u in e.versions;
    assert Covers(u, r);
  }

  lemma CoveredIsSeamless(parses: string -> bool, prev: StreamConfig, next: StreamConfig)
    requires StreamOk(prev) && StreamOk(next) && Covers(next, prev) && Covers(prev, next)
    ensures Seamless(parses, prev, next)
  {
    ValidCoversItself(prev);
    ValidCoversItself(next);
    forall actions: seq<Action>, n: nat, sni: Option<string> |
      OnlyReloads(actions, next) && SnapshotIn(Run(parses, Start(prev), actions), n)
      ensures Resolves(Run(parses, Start(prev), actions), Run(parses, Start(prev), actions).conns[n], sni)
    {
      CoveredResolves(parses, prev, next, actions, n, sni);
    }
  }

  lemma UncoveredIsNotSeamless(parses: string -> bool, prev: StreamConfig, next: StreamConfig, name: string)
    requires Buildable(parses, next)
    requires || (Answers(next, name) && name !in UpstreamNames(prev))
             || (Answers(prev, name) && name !in UpstreamNames(next))
    ensures !Seamless(parses, prev, next)
  {
    if Answers(next, name) && name !in UpstreamNames(prev) {
      StraddleSnapshot(parses, prev, next);
      Unresolved(parses, prev, next, Straddle(next), name);
    } else {
      OvertakenSnapshot(parses, prev, next);
      Unresolved(parses, prev, next, Overtaken(next), name);
    }
  }

  /** The exact condition: with two validated configurations, a reload is seamless for every
      interleaving exactly when each router names only upstreams that the other version defines, too. */
  lemma SeamlessIffNamesShared(parses: string -> bool, prev: StreamConfig, next: StreamConfig)
    requires StreamOk(prev) && StreamOk(next) && Buildable(parses, next)
    ensures Seamless(parses, prev, next) <==> Covers(next, prev) && Covers(prev, next)
  {
    if Covers(next, prev) && Covers(prev, next) {
      CoveredIsSeamless(parses, prev, next);
    } else {
      var name :| || (Answers(next, name) && name !in UpstreamNames(prev))
                  || (Answers(prev, name) && name !in UpstreamNames(next));
      UncoveredIsNotSeamless(parses, prev, next, name);
    }
  }

  // ---------- Away from reloads ----------

  ghost predicate Quiet(actions: seq<Action>) {
    forall i :: 0 <= i < |actions| ==> actions[i].LoadRouter? || actions[i].LoadUpstreams?
  }

  lemma {:induction false} QuietKeepsSlots(parses: string -> bool, s: State, actions: seq<Action>, n: nat)
    requires Inv(s) && Quiet(actions) && !s.midway
    requires n in s.conns ==> s.conns[n] == GotRouter(s.router) || s.conns[n] == Snapshot(s.router, s.router)
    ensures var e := Run(parses, s, actions);
            && e.versions == s.versions && e.router == s.router && !e.midway && Inv(e)
            && (n in e.conns ==> e.conns[n] == GotRouter(s.router) || e.conns[n] == Snapshot(s.router, s.router))
    decreases |actions|
  {
    if actions != [] {
      QuietKeepsSlots(parses, Next(parses, s, actions[0]), actions[1..], n);
    }
  }

  /** A connection whose two loads see no reload step between them always resolves, for any validated
      current configuration. */
  lemma UndisturbedConnectionResolves(
    parses: string -> bool, s: State, actions: seq<Action>, n: nat, sni: Option<string>)
    requires Inv(s) && !s.midway && n !in s.conns && Quiet(actions) && StreamOk(s.versions[s.router])
    ensures var e := Run(parses, s, actions); SnapshotIn(e, n) ==> Resolves(e, e.conns[n], sni)
  {
    QuietKeepsSlots(parses, s, actions, n);
    MatchIsRoutable(s.versions[s.router], sni);
  }
}
