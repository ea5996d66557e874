/** The stream proxy's SNI router: a sorted pattern list scanned for the first match. */
module SniRouting {
  import opened Text
  import opened Names
  import opened Ordering

  datatype Route = Route(pattern: Pattern, upstream: string)

  datatype SniRouter = SniRouter(routes: seq<Route>, default: Option<string>)

  function CompileRoutes(entries: seq<(string, string)>): (r: seq<Route>)
    ensures |r| == |entries|
    ensures forall i :: 0 <= i < |r| ==> r[i] == Route(ParsePattern(entries[i].0), entries[i].1)
  {
    seq(|entries|, i requires 0 <= i < |entries| => Route(ParsePattern(entries[i].0), entries[i].1))
  }

  /** The comparator of `SniRouter::new`: exact patterns first, then wildcards, longest suffix first. */
  function Rank(r: Route): seq<int> {
    match r.pattern
    case Exact(_) => [0, 0]
    case Wildcard(suffix) => [1, -|suffix|]
  }

  /** `entries` is the route map in some enumeration order. */
  function NewRouter(entries: seq<(string, string)>, default: Option<string>): SniRouter {
    SniRouter(Sort(CompileRoutes(entries), Rank, StrLe), default)
  }

  /** Upstream of the first route accepting the lower-cased `host`. */
  function FirstMatch(routes: seq<Route>, host: string): Option<string> {
    if routes == [] then None
    else if PatternMatches(routes[0].pattern, host) then Some(routes[0].upstream)
    else FirstMatch(routes[1..], host)
  }

  function MatchResult(router: SniRouter, sni: Option<string>): Option<string> {
    match sni
    case None => router.default
    case Some(host) =>
      match FirstMatch(router.routes, ToLower(host))
      case Some(u) => Some(u)
      case None => router.default
  }

  method MatchSni(router: SniRouter, sni: Option<string>) returns (upstream: Option<string>)
    ensures upstream == MatchResult(router, sni)
  {
    if sni.Some? {
      var host := ToLower(sni.value);
      var i := 0;
      while i < |router.routes|
        invariant 0 <= i <= |router.routes|
        invariant FirstMatch(router.routes[i..], host) == FirstMatch(router.routes, host)
      {
        if PatternMatches(router.routes[i].pattern, host) {
          return Some(router.routes[i].upstream);
        }
        assert router.routes[i..][1..] == router.routes[i + 1..];
        i := i + 1;
      }
    }
    return router.default;
  }

  // ---------- The hash index it is equivalent to ----------

  function LowerKey(e: (string, string)): string { ToLower(e.0) }

  /** No two route keys coincide after lower-casing. */
  ghost predicate DistinctRoutes(entries: seq<(string, string)>) {
    DistinctKeys(entries, LowerKey)
  }

  /** The upstream of the entry whose lower-cased key is `key`. */
  function Lookup(entries: seq<(string, string)>, key: string): Option<string> {
    if entries == [] then None
    else if LowerKey(entries[0]) == key then Some(entries[0].1)
    else Lookup(entries[1..], key)
  }

  lemma {:induction false} LookupFinds(entries: seq<(string, string)>, i: nat)
    requires DistinctRoutes(entries) && i < |entries|
    ensures Lookup(entries, LowerKey(entries[i])) == Some(entries[i].1)
  {
    if i > 0 {
      assert LowerKey(entries[0]) != LowerKey(entries[i]);
      LookupFinds(entries[1..], i - 1);
    }
  }

  lemma {:induction false} LookupSound(entries: seq<(string, string)>, key: string)
    ensures Lookup(entries, key).Some? ==>
            exists e :: e in entries && LowerKey(e) == key && Lookup(entries, key) == Some(e.1)
  {
    if entries != [] {
      if LowerKey(entries[0]) == key {
        assert entries[0] in entries;
      } else {
        LookupSound(entries[1..], key);
      }
    }
  }

  /** The wildcard key covering `host`: a star in place of its first label.  A name that starts
      with a dot has none. */
  function WildcardKey(host: string): Option<string> {
    var dot := IndexOf(host, '.');
    if 0 < dot < |host| then Some("*" + host[dot..]) else None
  }

  /** Exact entry, else the wildcard at the first dot, else the default. */
  function IndexResult(entries: seq<(string, string)>, default: Option<string>, host: string): Option<string> {
    if Lookup(entries, host).Some? then Lookup(entries, host)
    else if WildcardKey(host).Some? && Lookup(entries, WildcardKey(host).value).Some?
    then Lookup(entries, WildcardKey(host).value)
    else default
  }

  lemma MatchByKey(key: string, host: string)
    ensures PatternMatches(ParsePattern(key), host) <==>
            ToLower(key) == host || WildcardKey(host) == Some(ToLower(key))
  {
    var lower := ToLower(key);
    if "*." <= lower {
      var suffix := "." + lower[2..];
      assert lower == "*" + suffix;
      WildcardMatchesFromFirstDot(suffix, host);
      if lower == host {
        assert IndexOf(host, '.') == 1;
      }
      if WildcardKey(host) == Some(lower) {
        assert host[IndexOf(host, '.')..] == lower[1..];
      }
    } else {
      assert WildcardKey(host).Some? ==> "*." <= WildcardKey(host).value;
    }
  }

  lemma {:induction false} FirstMatchIndex(routes: seq<Route>, host: string) returns (i: nat)
    requires FirstMatch(routes, host).Some?
    ensures i < |routes| && PatternMatches(routes[i].pattern, host)
            && FirstMatch(routes, host) == Some(routes[i].upstream)
    ensures forall j :: 0 <= j < i ==> !PatternMatches(routes[j].pattern, host)
  {
    if PatternMatches(routes[0].pattern, host) {
      i := 0;
    } else {
      var k := FirstMatchIndex(routes[1..], host);
      i := k + 1;
      forall j | 0 <= j < i ensures !PatternMatches(routes[j].pattern, host) {
        assert j == 0 || routes[j] == routes[1..][j - 1];
      }
    }
  }

  lemma {:induction false} FirstMatchNone(routes: seq<Route>, host: string)
    requires FirstMatch(routes, host).None?
    ensures forall r :: r in routes ==> !PatternMatches(r.pattern, host)
  {
    if routes != [] {
      FirstMatchNone(routes[1..], host);
      assert routes == [routes[0]] + routes[1..];
    }
  }

  /** The router's list is a sorted rearrangement of the compiled entries that keeps their order wherever
      the comparator does not decide. */
  lemma RouterMembers(entries: seq<(string, string)>, default: Option<string>)
    ensures var routes := NewRouter(entries, default).routes;
            && SortedBy(routes, Rank, StrLe)
            && multiset(routes) == multiset(CompileRoutes(entries))
            && (forall r :: r in routes <==> r in CompileRoutes(entries))
            && forall k :: Class(routes, Rank, k) == Class(CompileRoutes(entries), Rank, k)
  {
    StrLeTotalOrder();
    SortFacts(CompileRoutes(entries), Rank, StrLe);
    MembersOfSort(CompileRoutes(entries), Rank, StrLe);
  }

  /** `k` is the first rank with a match: no match has a smaller one. */
  ghost predicate Leads(routes: seq<Route>, host: string, k: seq<int>) {
    forall i :: 0 <= i < |routes| && PatternMatches(routes[i].pattern, host) ==> StrLe(k, Rank(routes[i]))
  }

  lemma HeadRank(routes: seq<Route>, host: string, k: seq<int>, w: nat)
    requires SortedBy(routes, Rank, StrLe) && Leads(routes, host, k)
    requires w < |routes| && Rank(routes[w]) == k && PatternMatches(routes[0].pattern, host)
    ensures Rank(routes[0]) == k
  {
    StrLeTotalOrder();
    assert w == 0 || StrLe(Rank(routes[0]), Rank(routes[w]));
  }

  lemma TailLeads(routes: seq<Route>, host: string, k: seq<int>)
    requires routes != [] && SortedBy(routes, Rank, StrLe) && Leads(routes, host, k)
    ensures SortedBy(routes[1..], Rank, StrLe) && Leads(routes[1..], host, k)
  {
    assert forall i :: 0 <= i < |routes| - 1 ==> routes[1..][i] == routes[i + 1];
  }

  /** In a sorted list the first match is that of the first rank with one. */
  lemma {:induction false} FirstMatchInClass(routes: seq<Route>, host: string, k: seq<int>, w: nat)
    requires SortedBy(routes, Rank, StrLe) && Leads(routes, host, k)
    requires w < |routes| && Rank(routes[w]) == k && PatternMatches(routes[w].pattern, host)
    ensures FirstMatch(routes, host) == FirstMatch(Class(routes, Rank, k), host)
    decreases |routes|
  {
    var head, rest := routes[0], routes[1..];
    assert routes == [head] + rest;
    if PatternMatches(head.pattern, host) {
      HeadRank(routes, host, k, w);
      ClassHead(head, rest, k, host);
    } else {
      TailLeads(routes, host, k);
      FirstMatchInClass(rest, host, k, w - 1);
      ClassSkip(head, rest, k, host);
    }
  }

  lemma ClassHead(head: Route, rest: seq<Route>, k: seq<int>, host: string)
    requires Rank(head) == k && PatternMatches(head.pattern, host)
    ensures FirstMatch(Class([head] + rest, Rank, k), host) == Some(head.upstream)
  {
    ClassCons(head, rest, Rank, k);
  }

  lemma ClassSkip(head: Route, rest: seq<Route>, k: seq<int>, host: string)
    requires !PatternMatches(head.pattern, host)
    ensures FirstMatch(Class([head] + rest, Rank, k), host) == FirstMatch(Class(rest, Rank, k), host)
  {
    ClassCons(head, rest, Rank, k);
    var c := Class(rest, Rank, k);
    assert ([head] + c)[1..] == c && [] + c == c;
  }

  lemma ClassOther(head: Route, rest: seq<Route>, k: seq<int>, host: string)
    requires Rank(head) != k
    ensures FirstMatch(Class([head] + rest, Rank, k), host) == FirstMatch(Class(rest, Rank, k), host)
  {
    ClassCons(head, rest, Rank, k);
    assert [] + Class(rest, Rank, k) == Class(rest, Rank, k);
  }

  lemma ClassStep(head: (string, string), rest: seq<Route>, host: string, key: string, k: seq<int>)
    requires LowerKey(head) == key ==> RankOf(head) == k
    requires RankOf(head) == k ==> (Accepts(head, host) <==> LowerKey(head) == key)
    ensures FirstMatch(Class([Route(ParsePattern(head.0), head.1)] + rest, Rank, k), host)
            == if LowerKey(head) == key then Some(head.1) else FirstMatch(Class(rest, Rank, k), host)
  {
    var r := Route(ParsePattern(head.0), head.1);
    if LowerKey(head) == key {
      ClassHead(r, rest, k, host);
    } else if Rank(r) == k {
      ClassSkip(r, rest, k, host);
    } else {
      ClassOther(r, rest, k, host);
    }
  }

  /** Within one rank, the first match in enumeration order is the first entry with the key. */
  lemma {:induction false} ClassLookup(entries: seq<(string, string)>, host: string, key: string, k: seq<int>)
    requires forall e :: e in entries && LowerKey(e) == key ==> RankOf(e) == k
    requires forall e :: e in entries && RankOf(e) == k ==> (Accepts(e, host) <==> LowerKey(e) == key)
    ensures FirstMatch(Class(CompileRoutes(entries), Rank, k), host) == Lookup(entries, key)
  {
    if entries != [] {
      var head, rest := entries[0], entries[1..];
      assert head in entries && forall e :: e in rest ==> e in entries;
      ClassLookup(rest, host, key, k);
      ClassStep(head, CompileRoutes(rest), host, key, k);
      assert CompileRoutes(entries) == [Route(ParsePattern(head.0), head.1)] + CompileRoutes(rest);
    }
  }

  function RankOf(e: (string, string)): seq<int> { Rank(Route(ParsePattern(e.0), e.1)) }

  predicate Accepts(e: (string, string), host: string) { PatternMatches(ParsePattern(e.0), host) }

  lemma RankByKey(e: (string, string))
    ensures RankOf(e) == if "*." <= LowerKey(e) then [1, 1 - |LowerKey(e)|] else [0, 0]
  {
  }

  /** The scan of the sorted list finds the first entry with `key`, if no entry that accepts the host has
      precedence over it. */
  lemma ScanFinds(entries: seq<(string, string)>, default: Option<string>, host: string, key: string, k: seq<int>)
    requires Lookup(entries, key).Some?
    requires forall e :: e in entries && LowerKey(e) == key ==> RankOf(e) == k
    requires forall e :: e in entries && RankOf(e) == k ==> (Accepts(e, host) <==> LowerKey(e) == key)
    requires forall e :: e in entries && Accepts(e, host) ==> StrLe(k, RankOf(e))
    ensures FirstMatch(NewRouter(entries, default).routes, host) == Lookup(entries, key)
  {
    var routes := NewRouter(entries, default).routes;
    RouterMembers(entries, default);
    LookupSound(entries, key);
    var e :| e in entries && LowerKey(e) == key;
    var m :| 0 <= m < |entries| && entries[m] == e;
    assert CompileRoutes(entries)[m] in routes;
    var w :| 0 <= w < |routes| && routes[w] == CompileRoutes(entries)[m];
    forall i | 0 <= i < |routes| && PatternMatches(routes[i].pattern, host) ensures StrLe(k, Rank(routes[i])) {
      RanksFrom(entries, host, k, routes[i]);
    }
    FirstMatchInClass(routes, host, k, w);
    ClassLookup(entries, host, key, k);
  }

  lemma RanksFrom(entries: seq<(string, string)>, host: string, k: seq<int>, r: Route)
    requires r in CompileRoutes(entries) && PatternMatches(r.pattern, host)
    requires forall e :: e in entries && Accepts(e, host) ==> StrLe(k, RankOf(e))
    ensures StrLe(k, Rank(r))
  {
    var j :| 0 <= j < |entries| && CompileRoutes(entries)[j] == r;
    assert entries[j] in entries;
  }

  lemma StarHost(host: string)
    requires "*." <= host
    ensures WildcardKey(host) == Some(host)
  {
    assert IndexOf(host, '.') == 1 && host == "*" + host[1..];
  }

  lemma RankLe(n: int)
    ensures StrLe([0, 0], [0, 0]) && StrLe([0, 0], [1, n]) && StrLe([1, n], [1, n])
  {
    StrLeTotalOrder();
    assert [0, 0][0] == 0 && [1, n][0] == 1;
  }

  /** An entry for the host itself wins over any wildcard. */
  lemma OwnEntryWins(entries: seq<(string, string)>, default: Option<string>, host: string)
    requires Lookup(entries, host).Some?
    ensures FirstMatch(NewRouter(entries, default).routes, host) == Lookup(entries, host)
  {
    var k := if "*." <= host then [1, 1 - |host|] else [0, 0];
    if "*." <= host { StarHost(host); }
    forall e | e in entries
      ensures LowerKey(e) == host ==> RankOf(e) == k
      ensures RankOf(e) == k ==> (Accepts(e, host) <==> LowerKey(e) == host)
      ensures Accepts(e, host) ==> StrLe(k, RankOf(e))
    {
      MatchByKey(e.0, host);
      RankByKey(e);
      RankLe(1 - |LowerKey(e)|);
      assert WildcardKey(host).Some? ==> "*." <= WildcardKey(host).value;
    }
    ScanFinds(entries, default, host, host, k);
  }

  /** Without one, the entry for its wildcard does. */
  lemma WildcardWins(entries: seq<(string, string)>, default: Option<string>, host: string)
    requires Lookup(entries, host).None? && WildcardKey(host).Some? && Lookup(entries, WildcardKey(host).value).Some?
    ensures FirstMatch(NewRouter(entries, default).routes, host) == Lookup(entries, WildcardKey(host).value)
  {
    var key := WildcardKey(host).value;
    var k := [1, 1 - |key|];
    assert "*." <= key;
    forall e | e in entries
      ensures LowerKey(e) == key ==> RankOf(e) == k
      ensures RankOf(e) == k ==> (Accepts(e, host) <==> LowerKey(e) == key)
      ensures Accepts(e, host) ==> StrLe(k, RankOf(e))
    {
      MatchByKey(e.0, host);
      RankByKey(e);
      RankLe(1 - |key|);
      NoLookup(entries, host, e);
    }
    ScanFinds(entries, default, host, key, k);
  }

  lemma {:induction false} NoLookup(entries: seq<(string, string)>, key: string, e: (string, string))
    requires Lookup(entries, key).None? && e in entries
    ensures LowerKey(e) != key
  {
    if e != entries[0] { NoLookup(entries[1..], key, e); }
  }

  /** Sorted scan equals hash index, for every table in every enumeration order: the first entry of the name
      itself, else of its wildcard at the first dot, else the default. */
  lemma RouterEqualsIndex(entries: seq<(string, string)>, default: Option<string>, sni: string)
    ensures MatchResult(NewRouter(entries, default), Some(sni)) == IndexResult(entries, default, ToLower(sni))
  {
    var host := ToLower(sni);
    if Lookup(entries, host).Some? {
      OwnEntryWins(entries, default, host);
    } else if WildcardKey(host).Some? && Lookup(entries, WildcardKey(host).value).Some? {
      WildcardWins(entries, default, host);
    } else {
      NothingMatches(entries, default, host);
    }
  }

  lemma NothingMatches(entries: seq<(string, string)>, default: Option<string>, host: string)
    requires Lookup(entries, host).None?
    requires WildcardKey(host).Some? ==> Lookup(entries, WildcardKey(host).value).None?
    ensures FirstMatch(NewRouter(entries, default).routes, host).None?
  {
    var routes := NewRouter(entries, default).routes;
    if FirstMatch(routes, host).Some? {
      var i := FirstMatchIndex(routes, host);
      RouterMembers(entries, default);
      assert routes[i] in CompileRoutes(entries);
      var m :| 0 <= m < |entries| && CompileRoutes(entries)[m] == routes[i];
      MatchByKey(entries[m].0, host);
      NoLookup(entries, LowerKey(entries[m]), entries[m]);
    }
  }

  // ---------- When the enumeration order does not matter ----------

  /** Entries whose keys differ only in case share their upstream. */
  ghost predicate Consistent(entries: seq<(string, string)>) {
    forall e, f :: e in entries && f in entries && LowerKey(e) == LowerKey(f) ==> e.1 == f.1
  }

  /** Every enumeration of the table routes every name alike. */
  ghost predicate OrderFree(entries: seq<(string, string)>, default: Option<string>) {
    forall other: seq<(string, string)>, sni: string :: multiset(other) == multiset(entries) ==>
      MatchResult(NewRouter(other, default), Some(sni)) == MatchResult(NewRouter(entries, default), Some(sni))
  }

  lemma SameLookup(a: seq<(string, string)>, b: seq<(string, string)>, key: string)
    requires Consistent(a) && forall e :: e in a <==> e in b
    ensures Lookup(a, key) == Lookup(b, key)
  {
    LookupSound(a, key);
    LookupSound(b, key);
    if Lookup(a, key).None? && Lookup(b, key).Some? {
      var e :| e in b && LowerKey(e) == key;
      NoLookup(a, key, e);
    }
    if Lookup(b, key).None? && Lookup(a, key).Some? {
      var e :| e in a && LowerKey(e) == key;
      NoLookup(b, key, e);
    }
  }

  function ToFront(entries: seq<(string, string)>, i: nat): seq<(string, string)>
    requires i < |entries|
  {
    [entries[i]] + (entries[..i] + entries[i + 1..])
  }

  /** The entry enumerated first answers for its key. */
  lemma FrontAnswers(entries: seq<(string, string)>, default: Option<string>, i: nat)
    requires i < |entries|
    ensures multiset(ToFront(entries, i)) == multiset(entries)
    ensures MatchResult(NewRouter(ToFront(entries, i), default), Some(entries[i].0)) == Some(entries[i].1)
  {
    assert entries == entries[..i] + [entries[i]] + entries[i + 1..];
    RouterEqualsIndex(ToFront(entries, i), default, entries[i].0);
  }

  /** The exact condition: the answer never depends on the enumeration order if and only if keys that differ
      only in case share their upstream. */
  lemma OrderFreeIff(entries: seq<(string, string)>, default: Option<string>)
    ensures OrderFree(entries, default) <==> Consistent(entries)
  {
    if Consistent(entries) {
      forall other: seq<(string, string)>, sni: string | multiset(other) == multiset(entries)
        ensures MatchResult(NewRouter(other, default), Some(sni)) == MatchResult(NewRouter(entries, default), Some(sni))
      {
        var host := ToLower(sni);
        SameMembers(entries, other);
        RouterEqualsIndex(other, default, sni);
        RouterEqualsIndex(entries, default, sni);
        SameLookup(entries, other, host);
        if WildcardKey(host).Some? { SameLookup(entries, other, WildcardKey(host).value); }
      }
    }
    if OrderFree(entries, default) {
      forall e, f | e in entries && f in entries && LowerKey(e) == LowerKey(f) ensures e.1 == f.1 {
        var i :| 0 <= i < |entries| && entries[i] == e;
        var j :| 0 <= j < |entries| && entries[j] == f;
        FrontAnswers(entries, default, i);
        FrontAnswers(entries, default, j);
        RouterEqualsIndex(entries, default, e.0);
        RouterEqualsIndex(entries, default, f.0);
      }
    }
  }
}
