/** The sockets of the generated configuration, stated on the declared listeners and their port numbers. */
module Listening {
  import opened Text
  import opened Decimal
  import opened GatewayApi
  import opened ControllerState
  import opened Config
  import opened ConfigGenerator

  /** A listener's place: its gateway, by key order, and its index there. */
  type Place = (nat, nat)

  ghost predicate Before(p: Place, q: Place) { p.0 < q.0 || (p.0 == q.0 && p.1 < q.1) }

  ghost predicate Exists(gws: seq<(string, Gateway)>, p: Place) { p.0 < |gws| && p.1 < |gws[p.0].1.listeners| }

  ghost function ListenerAt(gws: seq<(string, Gateway)>, p: Place): Listener
    requires Exists(gws, p)
  {
    gws[p.0].1.listeners[p.1]
  }

  /** The protocols of a family. */
  ghost function ProtocolsOf(f: Family): set<Protocol> {
    match f
    case Http => {HTTP}
    case Https => {HTTPS}
    case Stream => {TCP, TLS}
    case Other => {UDP}
  }

  ghost predicate Declared(gws: seq<(string, Gateway)>, f: Family, p: Place) {
    Exists(gws, p) && ListenerAt(gws, p).protocol in ProtocolsOf(f)
  }

  /** `places` are, in order, exactly those of the family's listeners, which `ls` lists. */
  ghost predicate Lists(gws: seq<(string, Gateway)>, f: Family, ls: seq<Listener>, places: seq<Place>) {
    && |places| == |ls|
    && (forall i :: 0 <= i < |ls| ==> Declared(gws, f, places[i]) && ls[i] == ListenerAt(gws, places[i]))
    && (forall i, j :: 0 <= i < j < |places| ==> Before(places[i], places[j]))
    && (forall p :: Declared(gws, f, p) ==> p in places)
  }

  lemma FamilyIff(l: Listener, f: Family)
    ensures FamilyOf(l.protocol) == f <==> l.protocol in ProtocolsOf(f)
  {
  }

  /** `idx` are, in order, exactly the indices of the family's listeners. */
  ghost predicate ListsIn(ls: seq<Listener>, f: Family, r: seq<Listener>, idx: seq<nat>) {
    && |idx| == |r|
    && (forall i :: 0 <= i < |idx| ==> idx[i] < |ls| && r[i] == ls[idx[i]] && r[i].protocol in ProtocolsOf(f))
    && (forall i, j :: 0 <= i < j < |idx| ==> idx[i] < idx[j])
    && (forall k :: 0 <= k < |ls| && ls[k].protocol in ProtocolsOf(f) ==> k in idx)
  }

  lemma {:induction false} BucketLists(ls: seq<Listener>, f: Family) returns (idx: seq<nat>)
    ensures ListsIn(ls, f, Bucket(ls, f), idx)
  {
    if ls == [] {
      idx := [];
    } else {
      var n := |ls| - 1;
      var before := BucketLists(ls[..n], f);
      FamilyIff(ls[n], f);
      idx := before + if ls[n].protocol in ProtocolsOf(f) then [n] else [];
      forall k | 0 <= k < |ls| && ls[k].protocol in ProtocolsOf(f) ensures k in idx {
        assert k < n ==> ls[..n][k] == ls[k] && k in before;
        assert k == n ==> idx[|before|] == n;
      }
    }
  }

  ghost function InGateway(g: nat, idx: seq<nat>): (r: seq<Place>)
    ensures |r| == |idx| && forall i :: 0 <= i < |idx| ==> r[i] == (g, idx[i])
  {
    seq(|idx|, i requires 0 <= i < |idx| => (g, idx[i]))
  }

  /** A gateway put last leaves the others' places as they are. */
  lemma DeclaredOnAppend(init: seq<(string, Gateway)>, last: (string, Gateway), f: Family, p: Place)
    ensures p.0 < |init| ==> Exists(init + [last], p) == Exists(init, p)
    ensures Exists(init, p) ==> ListenerAt(init + [last], p) == ListenerAt(init, p)
    ensures p.0 >= |init| ==> (Exists(init + [last], p) <==> p.0 == |init| && p.1 < |last.1.listeners|)
  {
  }

  lemma AppendIsComplete(
    init: seq<(string, Gateway)>, last: (string, Gateway), f: Family, ls: seq<Listener>, before: seq<Place>,
    here: seq<Listener>, idx: seq<nat>, p: Place)
    requires Lists(init, f, ls, before) && ListsIn(last.1.listeners, f, here, idx)
    requires Declared(init + [last], f, p)
    ensures p in before + InGateway(|init|, idx)
  {
    DeclaredOnAppend(init, last, f, p);
    if p.0 == |init| {
      var i :| 0 <= i < |idx| && idx[i] == p.1;
      assert InGateway(|init|, idx)[i] == p;
    } else {
      assert Declared(init, f, p);
    }
  }

  lemma AppendIsDeclared(
    init: seq<(string, Gateway)>, last: (string, Gateway), f: Family, ls: seq<Listener>, before: seq<Place>,
    here: seq<Listener>, idx: seq<nat>, i: nat)
    requires Lists(init, f, ls, before) && ListsIn(last.1.listeners, f, here, idx) && i < |ls| + |here|
    ensures var p := (before + InGateway(|init|, idx))[i];
            Declared(init + [last], f, p) && (ls + here)[i] == ListenerAt(init + [last], p)
  {
    if i < |ls| {
      DeclaredOnAppend(init, last, f, before[i]);
    } else {
      assert (ls + here)[i] == here[i - |ls|];
    }
  }

  lemma ListsAppend(
    init: seq<(string, Gateway)>, last: (string, Gateway), f: Family, ls: seq<Listener>, before: seq<Place>,
    here: seq<Listener>, idx: seq<nat>)
    requires Lists(init, f, ls, before) && ListsIn(last.1.listeners, f, here, idx)
    ensures Lists(init + [last], f, ls + here, before + InGateway(|init|, idx))
  {
    var places := before + InGateway(|init|, idx);
    forall p | Declared(init + [last], f, p) ensures p in places {
      AppendIsComplete(init, last, f, ls, before, here, idx, p);
    }
    forall i | 0 <= i < |ls + here|
      ensures Declared(init + [last], f, places[i]) && (ls + here)[i] == ListenerAt(init + [last], places[i])
    {
      AppendIsDeclared(init, last, f, ls, before, here, idx, i);
    }
    forall i, j | 0 <= i < j < |places| ensures Before(places[i], places[j]) {
      assert i < |before| ==> Declared(init, f, before[i]);
    }
  }

  lemma {:induction false} BucketsList(gws: seq<(string, Gateway)>, f: Family) returns (places: seq<Place>)
    ensures Lists(gws, f, Buckets(gws, f), places)
  {
    if gws == [] {
      places := [];
    } else {
      var n := |gws| - 1;
      var before := BucketsList(gws[..n], f);
      var idx := BucketLists(gws[n].1.listeners, f);
      ListsAppend(gws[..n], gws[n], f, Buckets(gws[..n], f), before, Bucket(gws[n].1.listeners, f), idx);
      places := before + InGateway(n, idx);
      assert gws == gws[..n] + [gws[n]];
    }
  }

  /** `p` is the first place that declares a listener of the family. */
  ghost predicate FirstDeclared(gws: seq<(string, Gateway)>, f: Family, p: Place) {
    Declared(gws, f, p) && forall q :: Declared(gws, f, q) ==> q == p || Before(p, q)
  }

  /** `p` is the first place that declares a listener of the family on `port`. */
  ghost predicate FirstOnPort(gws: seq<(string, Gateway)>, f: Family, port: nat, p: Place) {
    && Declared(gws, f, p) && ListenerAt(gws, p).port == port
    && forall q :: Declared(gws, f, q) && ListenerAt(gws, q).port == port ==> q == p || Before(p, q)
  }

  lemma FirstOfFamily(st: GatewayState, f: Family) returns (p: Place)
    requires ListenersOf(st, f) != []
    ensures FirstDeclared(InKeyOrder(st.gateways), f, p)
    ensures ListenersOf(st, f)[0] == ListenerAt(InKeyOrder(st.gateways), p)
  {
    var places := BucketsList(InKeyOrder(st.gateways), f);
    p := places[0];
  }

  /** The addresses the proxy binds for plain HTTP. */
  ghost function HttpSockets(st: GatewayState): seq<Addr> {
    Dedup([Generate(st).server.listen] + Generate(st).server.httpListens)
  }

  /** Bound on every interface, each port once, in order of its first declaration, and exactly the declared
      ports. */
  ghost predicate BindsDeclaredPorts(gws: seq<(string, Gateway)>, addrs: seq<Addr>) {
    && (forall i :: 0 <= i < |addrs| ==> addrs[i].ip == 0 && exists p :: FirstOnPort(gws, Http, addrs[i].port, p))
    && (forall p :: Declared(gws, Http, p) ==> Addr(0, ListenerAt(gws, p).port) in addrs)
    && (forall i, j :: 0 <= i < j < |addrs| ==> addrs[i].port != addrs[j].port)
    && (forall i, j, p, q ::
          (0 <= i < j < |addrs| && FirstOnPort(gws, Http, addrs[i].port, p) && FirstOnPort(gws, Http, addrs[j].port, q))
          ==> Before(p, q))
  }

  /** The place of an address's first occurrence declares its port first. */
  lemma FirstOccurrence(gws: seq<(string, Gateway)>, ls: seq<Listener>, places: seq<Place>, a: Addr)
    requires Lists(gws, Http, ls, places) && a in Addrs(ls)
    ensures a.ip == 0
    ensures forall p :: FirstOnPort(gws, Http, a.port, p) <==> p == places[FirstAt(Addrs(ls), a)]
  {
    OccursAt(gws, ls, places, a, FirstAt(Addrs(ls), a));
    forall p | FirstOnPort(gws, Http, a.port, p) ensures p == places[FirstAt(Addrs(ls), a)] {
      FirstIsUnique(gws, a.port, p, places[FirstAt(Addrs(ls), a)]);
    }
  }

  lemma FirstIsUnique(gws: seq<(string, Gateway)>, port: nat, p: Place, q: Place)
    requires FirstOnPort(gws, Http, port, p) && FirstOnPort(gws, Http, port, q)
    ensures p == q
  {
    assert q == p || Before(p, q);
  }

  lemma OccursAt(gws: seq<(string, Gateway)>, ls: seq<Listener>, places: seq<Place>, a: Addr, i: nat)
    requires Lists(gws, Http, ls, places) && i < |ls| && Addrs(ls)[i] == a && a !in Addrs(ls)[..i]
    ensures a.ip == 0 && FirstOnPort(gws, Http, a.port, places[i])
  {
    forall q | Declared(gws, Http, q) && ListenerAt(gws, q).port == a.port
      ensures q == places[i] || Before(places[i], q)
    {
      var k :| 0 <= k < |places| && places[k] == q;
      assert Addrs(ls)[k] == a;
      assert forall m :: 0 <= m < i ==> Addrs(ls)[m] == Addrs(ls)[..i][m] != a;
    }
  }

  lemma DeclaredIsBound(gws: seq<(string, Gateway)>, ls: seq<Listener>, places: seq<Place>, p: Place)
    requires Lists(gws, Http, ls, places) && Declared(gws, Http, p)
    ensures Addr(0, ListenerAt(gws, p).port) in Addrs(ls)
  {
    var k :| 0 <= k < |places| && places[k] == p;
    assert Addrs(ls)[k] == Addr(0, ListenerAt(gws, p).port);
  }

  lemma FirstInOrder(
    gws: seq<(string, Gateway)>, ls: seq<Listener>, places: seq<Place>, a: Addr, b: Addr, p: Place, q: Place)
    requires Lists(gws, Http, ls, places) && a in Addrs(ls) && b in Addrs(ls)
    requires FirstAt(Addrs(ls), a) < FirstAt(Addrs(ls), b)
    requires FirstOnPort(gws, Http, a.port, p) && FirstOnPort(gws, Http, b.port, q)
    ensures Before(p, q)
  {
    FirstOccurrence(gws, ls, places, a);
    FirstOccurrence(gws, ls, places, b);
  }

  lemma OccursFirst(gws: seq<(string, Gateway)>, ls: seq<Listener>, places: seq<Place>, a: Addr)
    requires Lists(gws, Http, ls, places) && a in Addrs(ls)
    ensures a.ip == 0 && exists p :: FirstOnPort(gws, Http, a.port, p)
  {
    FirstOccurrence(gws, ls, places, a);
    assert FirstOnPort(gws, Http, a.port, places[FirstAt(Addrs(ls), a)]);
  }

  lemma DedupBinds(gws: seq<(string, Gateway)>, ls: seq<Listener>, places: seq<Place>, addrs: seq<Addr>)
    requires Lists(gws, Http, ls, places) && addrs == Dedup(Addrs(ls))
    ensures BindsDeclaredPorts(gws, addrs)
  {
    DedupExact(Addrs(ls));
    forall i | 0 <= i < |addrs|
      ensures addrs[i].ip == 0 && exists p :: FirstOnPort(gws, Http, addrs[i].port, p)
    {
      assert addrs[i] in addrs;
      OccursFirst(gws, ls, places, addrs[i]);
    }
    forall p | Declared(gws, Http, p) ensures Addr(0, ListenerAt(gws, p).port) in addrs {
      DeclaredIsBound(gws, ls, places, p);
    }
    forall i, j | 0 <= i < j < |addrs| ensures addrs[i].port != addrs[j].port {
      assert addrs[i] != addrs[j];
    }
    forall i, j, p, q |
      0 <= i < j < |addrs| && FirstOnPort(gws, Http, addrs[i].port, p) && FirstOnPort(gws, Http, addrs[j].port, q)
      ensures Before(p, q)
    {
      FirstInOrder(gws, ls, places, addrs[i], addrs[j], p, q);
    }
  }

  /** With an HTTP listener declared, the proxy binds exactly the declared HTTP ports. */
  lemma HttpPortsAreDeclared(st: GatewayState)
    requires ListenersOf(st, Http) != []
    ensures BindsDeclaredPorts(InKeyOrder(st.gateways), HttpSockets(st))
  {
    var ls := ListenersOf(st, Http);
    var places := BucketsList(InKeyOrder(st.gateways), Http);
    HttpListensAreDeclared(st);
    DedupBinds(InKeyOrder(st.gateways), ls, places, Dedup(Addrs(ls)));
  }

  /** HTTPS is bound on the port of the first declared HTTPS listener, whether or not HTTP is bound. */
  lemma HttpsPortIsDeclared(st: GatewayState) returns (p: Place)
    requires ListenersOf(st, Https) != []
    ensures FirstDeclared(InKeyOrder(st.gateways), Https, p)
    ensures Generate(st).server.httpsListen == Some(Addr(0, ListenerAt(InKeyOrder(st.gateways), p).port))
  {
    p := FirstOfFamily(st, Https);
  }

  /** The stream is bound on the port of the first declared TCP or TLS listener, and named after it. */
  lemma StreamPortIsDeclared(st: GatewayState) returns (p: Place)
    requires StreamEmitted(st)
    ensures FirstDeclared(InKeyOrder(st.gateways), Stream, p)
    ensures var c, l := Generate(st), ListenerAt(InKeyOrder(st.gateways), p);
            && |c.streams| == 1 && c.streams[0].listen == At(Addr(0, l.port))
            && c.streams[0].name == "stream-" + Print(l.port)
  {
    p := FirstOfFamily(st, Stream);
  }

  /** With no listener for HTTP or HTTPS the server section is the built-in one. */
  lemma DefaultServer(st: GatewayState)
    requires ListenersOf(st, Http) == [] && ListenersOf(st, Https) == []
    ensures Generate(st).server == ServerConfig(Addr(0, 8080), [], None, false)
  {
  }
}
