/** The order of the plan's results, stated on namespaces, names, kinds, listeners and ports. */
module ResultOrder {
  import opened Text
  import opened GatewayApi
  import opened Ordering
  import opened Planner
  import opened AttachmentPlan

  /** `a` comes before `b` in Rust's order of strings, and they differ. */
  ghost predicate StringBefore(a: string, b: string) {
    a < b || exists i: nat :: DifferFirstAt(a, b, i) && a[i] < b[i]
  }

  /** A missing value comes first. */
  ghost predicate NameBefore(a: Option<string>, b: Option<string>) {
    b.Some? && (a.None? || StringBefore(a.value, b.value))
  }

  ghost predicate PortBefore(a: Option<nat>, b: Option<nat>) { b.Some? && (a.None? || a.value < b.value) }

  ghost predicate KindBefore(a: RouteKind, b: RouteKind) {
    (a == HTTPRoute && b != HTTPRoute) || (a == TCPRoute && b == TLSRoute)
  }

  /** The order of the tuples: namespace, name, kind, listener, port. */
  ghost predicate ResultBefore(a: RouteResult, b: RouteResult) {
    if a.namespace != b.namespace then StringBefore(a.namespace, b.namespace)
    else if a.name != b.name then StringBefore(a.name, b.name)
    else if a.kind != b.kind then KindBefore(a.kind, b.kind)
    else if a.listener != b.listener then NameBefore(a.listener, b.listener)
    else PortBefore(a.port, b.port)
  }

  lemma FirstDifference(a: string, b: string) returns (i: nat)
    requires !(a <= b) && !(b <= a)
    ensures DifferFirstAt(a, b, i)
  {
    i := 0;
    while i < |a| && i < |b| && a[i] == b[i]
      invariant i <= |a| && i <= |b| && a[..i] == b[..i]
    {
      i := i + 1;
    }
    assert a[..|a|] == a && b[..|b|] == b;
  }

  lemma CodesPrefix(a: string, b: string)
    ensures Codes(a) <= Codes(b) <==> a <= b
    ensures Codes(a) == Codes(b) <==> a == b
    ensures forall i: nat :: DifferFirstAt(a, b, i) ==> DifferFirstAt(Codes(a), Codes(b), i)
  {
    if Codes(a) <= Codes(b) {
      forall i | 0 <= i < |a| ensures a[i] == b[i] { assert Codes(a)[i] == Codes(b)[i]; }
    }
    if Codes(a) == Codes(b) { CodesInjective(a, b); }
    forall i: nat | DifferFirstAt(a, b, i) ensures DifferFirstAt(Codes(a), Codes(b), i) {
      forall k | 0 <= k < i ensures a[k] == b[k] { assert a[..i][k] == b[..i][k]; }
      assert Codes(a)[..i] == Codes(b)[..i];
    }
  }

  lemma StringOrder(a: string, b: string)
    ensures StrLe(Codes(a), Codes(b)) <==> a == b || StringBefore(a, b)
  {
    CodesPrefix(a, b);
    CodesPrefix(b, a);
    StrLeMeaning(Codes(a), Codes(b));
    if !(a <= b) && !(b <= a) {
      var i := FirstDifference(a, b);
      if k: nat :| DifferFirstAt(a, b, k) && a[k] < b[k] { SameDifference(a, b, i, k); }
    }
  }

  lemma SameDifference(a: string, b: string, i: nat, k: nat)
    requires DifferFirstAt(a, b, i) && DifferFirstAt(a, b, k)
    ensures i == k
  {
    assert forall m :: 0 <= m < k ==> a[m] == a[..k][m] == b[..k][m] == b[m];
    assert forall m :: 0 <= m < i ==> a[m] == a[..i][m] == b[..i][m] == b[m];
  }

  ghost function ListenerField(n: Option<string>): seq<int> { if n.Some? then [0] + Codes(n.value) else [] }

  ghost function PortField(p: Option<nat>): seq<int> { if p.Some? then [p.value] else [] }

  lemma ListenerOrder(a: Option<string>, b: Option<string>)
    ensures StrLe(ListenerField(a), ListenerField(b)) <==> a == b || NameBefore(a, b)
    ensures ListenerField(a) == ListenerField(b) <==> a == b
  {
    if a.Some? && b.Some? {
      var x, y := ListenerField(a), ListenerField(b);
      assert x[1..] == Codes(a.value) && y[1..] == Codes(b.value);
      StringOrder(a.value, b.value);
      CodesPrefix(a.value, b.value);
    }
  }

  lemma OneCode(m: int, n: int)
    ensures StrLe([m], [n]) <==> m <= n
  {
    StrLeMeaning([m], [n]);
    assert m != n ==> [m][..0] == [n][..0] && DifferFirstAt([m], [n], 0);
  }

  lemma PortOrder(a: Option<nat>, b: Option<nat>)
    ensures StrLe(PortField(a), PortField(b)) <==> a == b || PortBefore(a, b)
    ensures PortField(a) == PortField(b) <==> a == b
  {
    if a.Some? && b.Some? {
      OneCode(a.value, b.value);
      assert PortField(a)[0] == a.value && PortField(b)[0] == b.value;
    }
  }

  lemma KindOrder(a: RouteKind, b: RouteKind)
    ensures StrLe([KindIndex(a)], [KindIndex(b)]) <==> a == b || KindBefore(a, b)
    ensures [KindIndex(a)] == [KindIndex(b)] <==> a == b
  {
    OneCode(KindIndex(a), KindIndex(b));
    assert [KindIndex(a)][0] == KindIndex(a) && [KindIndex(b)][0] == KindIndex(b);
  }

  lemma FieldOrders(a: RouteResult, b: RouteResult)
    ensures var x, y := SortKey(a), SortKey(b);
            && |x| == 5 && |y| == 5
            && (x[0] == y[0] <==> a.namespace == b.namespace) && (x[1] == y[1] <==> a.name == b.name)
            && (x[2] == y[2] <==> a.kind == b.kind) && (x[3] == y[3] <==> a.listener == b.listener)
            && (x[4] == y[4] <==> a.port == b.port)
            && (StrLe(x[0], y[0]) <==> a.namespace == b.namespace || StringBefore(a.namespace, b.namespace))
            && (StrLe(x[1], y[1]) <==> a.name == b.name || StringBefore(a.name, b.name))
            && (StrLe(x[2], y[2]) <==> a.kind == b.kind || KindBefore(a.kind, b.kind))
            && (StrLe(x[3], y[3]) <==> a.listener == b.listener || NameBefore(a.listener, b.listener))
            && (StrLe(x[4], y[4]) <==> a.port == b.port || PortBefore(a.port, b.port))
  {
    CodesPrefix(a.namespace, b.namespace);
    CodesPrefix(a.name, b.name);
    StringOrder(a.namespace, b.namespace);
    StringOrder(a.name, b.name);
    KindOrder(a.kind, b.kind);
    ListenerOrder(a.listener, b.listener);
    PortOrder(a.port, b.port);
  }

  /** Keys of five fields compare by the first field that differs. */
  lemma FiveFields(x: seq<seq<int>>, y: seq<seq<int>>, i: nat)
    requires |x| == 5 && |y| == 5 && i < 5 && x[i] != y[i] && forall k :: 0 <= k < i ==> x[k] == y[k]
    ensures KeyLe(x, y) <==> StrLe(x[i], y[i])
  {
    assert x[..i] == y[..i];
    assert DifferFirstAt(x, y, i);
    LexMeaning(StrLe, x, y);
  }

  /** The sort key means the order of the tuples. */
  lemma KeyOrder(a: RouteResult, b: RouteResult)
    ensures KeyLe(SortKey(a), SortKey(b)) <==> SortKey(a) == SortKey(b) || ResultBefore(a, b)
  {
    var x, y := SortKey(a), SortKey(b);
    FieldOrders(a, b);
    if x == y {
      LexMeaning(StrLe, x, y);
    } else {
      var i := if x[0] != y[0] then 0 else if x[1] != y[1] then 1 else if x[2] != y[2] then 2
               else if x[3] != y[3] then 3 else 4;
      FiveFields(x, y, i);
    }
  }

  /** In the plan no result comes after one it precedes by namespace, name, kind, listener and port. */
  lemma PlanIsInOrder(inp: Input)
    requires PlanFor(inp).Ok?
    ensures var rs := PlanFor(inp).value.results;
            forall i, j :: 0 <= i < j < |rs| ==> ResultBefore(rs[i], rs[j]) || SortKey(rs[i]) == SortKey(rs[j])
  {
    PlanResultsExact(inp);
    var rs := PlanFor(inp).value.results;
    forall i, j | 0 <= i < j < |rs| ensures ResultBefore(rs[i], rs[j]) || SortKey(rs[i]) == SortKey(rs[j]) {
      KeyOrder(rs[i], rs[j]);
    }
  }

  /** The summaries are in the order of the listeners' names. */
  lemma SummariesAreInOrder(inp: Input)
    requires PlanFor(inp).Ok?
    ensures var ss := PlanFor(inp).value.summaries;
            forall i, j :: 0 <= i < j < |ss| ==>
              ss[i].listener == ss[j].listener || StringBefore(ss[i].listener, ss[j].listener)
  {
    var gw := inp.snap.gateways[ObjectKey(inp.gwNamespace, inp.gwName)];
    var att := TallyAll(EmptyTally(gw.listeners), gw.listeners, RawResults(inp, gw));
    SortedSummaries(SummarizeAll(att, gw.listeners));
    var ss := PlanFor(inp).value.summaries;
    forall i, j | 0 <= i < j < |ss|
      ensures ss[i].listener == ss[j].listener || StringBefore(ss[i].listener, ss[j].listener)
    {
      assert StrLe(SummaryKey(ss[i]), SummaryKey(ss[j]));
      StringOrder(ss[i].listener, ss[j].listener);
    }
  }
}
