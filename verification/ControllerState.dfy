/** The controller's collected state and what every part of the configuration generator reads of it. */
module ControllerState {
  import opened Text
  import opened Decimal
  import opened Ordering
  import opened GatewayApi

  const WICKET_CONTROLLER_NAME := "wicket.io/gateway-controller"

  /** Ready addresses by Service key, and certificate and key paths by Secret key. */
  type Endpoints = map<string, seq<string>>
  type Secrets = map<string, (string, string)>

  /** The object maps are hash maps, so lists in some enumeration order. */
  datatype GatewayState = GatewayState(
    gateways: seq<(string, Gateway)>, httpRoutes: seq<(string, HttpRoute)>,
    tcpRoutes: seq<(string, StreamRoute)>, tlsRoutes: seq<(string, StreamRoute)>,
    endpoints: Endpoints, secrets: Secrets)

  function EntryKey<T>(e: (string, T)): seq<int> { Codes(e.0) }

  function InKeyOrder<T>(entries: seq<(string, T)>): seq<(string, T)> { Sort(entries, EntryKey<T>, StrLe) }

  function SortedStrings(xs: seq<string>): seq<string> { Sort(xs, Codes, StrLe) }

  /** Two enumerations of one map. */
  ghost predicate SameEntries<T(!new)>(xs: seq<(string, T)>, ys: seq<(string, T)>) {
    DistinctKeys(xs, EntryKey<T>) && DistinctKeys(ys, EntryKey<T>) && forall x :: x in xs <==> x in ys
  }

  lemma SortedEntriesAgree<T(!new)>(xs: seq<(string, T)>, ys: seq<(string, T)>)
    requires SameEntries(xs, ys)
    ensures InKeyOrder(xs) == InKeyOrder(ys)
    ensures xs == [] <==> ys == []
  {
    StrLeTotalOrder();
    SortEnumerations(xs, ys, EntryKey<T>, StrLe);
    NoMembers(xs);
    NoMembers(ys);
  }

  lemma SortedEntriesFacts<T(!new)>(xs: seq<(string, T)>)
    requires DistinctKeys(xs, EntryKey<T>)
    ensures SortedBy(InKeyOrder(xs), EntryKey<T>, StrLe) && DistinctKeys(InKeyOrder(xs), EntryKey<T>)
    ensures forall x :: x in InKeyOrder(xs) <==> x in xs
  {
    StrLeTotalOrder();
    SortDistinct(xs, EntryKey<T>, StrLe);
  }

  lemma SortedStringsEmpty(xs: seq<string>)
    ensures SortedStrings(xs) == [] <==> xs == []
  {
    StrLeTotalOrder();
    SortFacts(xs, Codes, StrLe);
    assert |SortedStrings(xs)| == |multiset(SortedStrings(xs))| == |multiset(xs)| == |xs|;
  }

  predicate AcceptedHere(p: ParentStatus) {
    p.controller == WICKET_CONTROLLER_NAME && Condition("Accepted", "True") in p.conditions
  }

  /** A parent status written by this controller carries Accepted=True. */
  predicate Accepted(status: Option<seq<ParentStatus>>) {
    && status.Some?
    && exists i :: 0 <= i < |status.value| && AcceptedHere(status.value[i])
  }

  /** `parents_accepted_by_wicket`. */
  method IsAccepted(status: Option<seq<ParentStatus>>) returns (ok: bool)
    ensures ok <==> Accepted(status)
  {
    if status.None? { return false; }
    var parents := status.value;
    var i := 0;
    while i < |parents|
      invariant 0 <= i <= |parents| && forall k :: 0 <= k < i ==> !AcceptedHere(parents[k])
    {
      if parents[i].controller == "wicket.io/gateway-controller" {
        var j := 0;
        while j < |parents[i].conditions|
          invariant 0 <= j <= |parents[i].conditions|
          invariant forall k :: 0 <= k < j ==> parents[i].conditions[k] != Condition("Accepted", "True")
        {
          var c := parents[i].conditions[j];
          if c.kind == "Accepted" && c.status == "True" { return true; }
          j := j + 1;
        }
      }
      i := i + 1;
    }
    return false;
  }

  /** The Service a backend reference of a route in `ns` means. */
  function TargetKey(ns: string, b: BackendRef): string { ObjectKey(b.namespace.Or(ns), b.name) }

  /** Its cluster DNS name and port. */
  function DnsAddr(ns: string, b: BackendRef, defaultPort: nat): string {
    b.name + "." + b.namespace.Or(ns) + ".svc.cluster.local:" + Print(b.port.Or(defaultPort))
  }

  /** The addresses one backend reference contributes: the sorted endpoints of a known Service, else its
      cluster DNS name. */
  function BackendAddrs(eps: Endpoints, ns: string, b: BackendRef, defaultPort: nat): seq<string> {
    var key := TargetKey(ns, b);
    if key in eps then SortedStrings(eps[key]) else [DnsAddr(ns, b, defaultPort)]
  }

  /** The branch of the rendering loops: sorted endpoints, or one formatted address. */
  method AddressesOf(eps: Endpoints, routeNs: string, b: BackendRef, defaultPort: nat) returns (addrs: seq<string>)
    ensures addrs == BackendAddrs(eps, routeNs, b, defaultPort)
  {
    var backendNs := match b.namespace case Some(ns) => ns case None => routeNs;
    var backendKey := backendNs + "/" + b.name;
    if backendKey in eps {
      addrs := SortedStrings(eps[backendKey]);
    } else {
      var port := match b.port case Some(p) => p case None => defaultPort;
      addrs := [b.name + "." + backendNs + ".svc.cluster.local:" + Print(port)];
    }
  }

  /** Two references give the same addresses whatever endpoints there are, exactly when they mean one
      Service under one DNS name and port. */
  lemma SameAddrsIff(ns: string, b: BackendRef, port: nat, ns': string, b': BackendRef, port': nat)
    ensures (forall eps :: BackendAddrs(eps, ns, b, port) == BackendAddrs(eps, ns', b', port')) <==>
            TargetKey(ns, b) == TargetKey(ns', b') && DnsAddr(ns, b, port) == DnsAddr(ns', b', port')
  {
    if forall eps :: BackendAddrs(eps, ns, b, port) == BackendAddrs(eps, ns', b', port') {
      var none, empty := map[], map[TargetKey(ns, b) := []];
      assert BackendAddrs(none, ns, b, port) == BackendAddrs(none, ns', b', port');
      assert [DnsAddr(ns, b, port)][0] == [DnsAddr(ns', b', port')][0];
      assert BackendAddrs(empty, ns, b, port) == BackendAddrs(empty, ns', b', port') == [];
    }
  }

  /** Known to have no endpoint at all. */
  predicate KnownEmpty(eps: Endpoints, ns: string, b: BackendRef) {
    TargetKey(ns, b) in eps && eps[TargetKey(ns, b)] == []
  }

  lemma BackendAddrsEmpty(eps: Endpoints, ns: string, b: BackendRef, defaultPort: nat)
    ensures BackendAddrs(eps, ns, b, defaultPort) == [] <==> KnownEmpty(eps, ns, b)
  {
    var key := TargetKey(ns, b);
    if key in eps { SortedStringsEmpty(eps[key]); }
  }

  // ---------- Durations ----------

  const U64: nat := 0x1_0000_0000_0000_0000

  /** `str::parse::<u64>`: an optional plus sign, then digits, within range. */
  function ParseU64(s: string): Option<nat> {
    var digits := if "+" <= s then s[1..] else s;
    if digits == "" || !AllDigits(digits) || Read(digits) >= U64 then None else Some(Read(digits))
  }

  /** A number followed by one unit letter; release builds wrap on overflow. */
  function ParseDuration(d: string): Option<nat> {
    var s := Trim(d);
    if s == "" then None
    else
      var n := ParseU64(s[..|s| - 1]);
      if n.None? then None
      else
        match s[|s| - 1]
        case 's' => n
        case 'm' => Some(n.value * 60 % U64)
        case 'h' => Some(n.value * 3600 % U64)
        case _ => None
  }

  /** `parse_duration_to_secs`. */
  method ParseDurationToSecs(duration: string) returns (secs: Option<nat>)
    ensures secs == ParseDuration(duration)
  {
    var d := Trim(duration);
    if |d| == 0 { return None; }
    var num, unit := d[..|d| - 1], d[|d| - 1..];
    var n :- ParseU64(num);
    if unit == "s" {
      return Some(n);
    } else if unit == "m" {
      return Some(n * 60 % 0x1_0000_0000_0000_0000);
    } else if unit == "h" {
      return Some(n * 3600 % 0x1_0000_0000_0000_0000);
    }
    return None;
  }

  /** A printed number below 2^64, with or without a plus sign, and one of three letters, with any white space
      around, is that many seconds, minutes or hours; any other last character, or a larger number, is refused. */
  lemma DurationMeaning(front: string, plus: bool, n: nat, unit: char, back: string)
    requires Blank(front) && Blank(back) && !IsSpace(unit)
    ensures ParseDuration(front + ((if plus then "+" else "") + Print(n) + [unit] + back)) ==
            if n >= 0x1_0000_0000_0000_0000 then None
            else if unit == 's' then Some(n)
            else if unit == 'm' then Some(60 * n % 0x1_0000_0000_0000_0000)
            else if unit == 'h' then Some(3600 * n % 0x1_0000_0000_0000_0000)
            else None
  {
    var num := (if plus then "+" else "") + Print(n);
    NumberParses(plus, n);
    assert (if plus then "+" else "") + Print(n) + [unit] + back == (num + [unit]) + back;
    TrimSkips(front, num + [unit], back);
    TrimmedDuration(front + ((num + [unit]) + back), num, unit);
  }

  /** Text without a digit is no duration. */
  lemma DurationNeedsDigit(d: string)
    requires forall i :: 0 <= i < |d| ==> !('0' <= d[i] <= '9')
    ensures ParseDuration(d).None?
  {
    var front, back := TrimExact(d);
    var s := Trim(d);
    if s != "" {
      forall i | 0 <= i < |s| ensures !('0' <= s[i] <= '9') { assert s[i] == d[|front| + i]; }
      NumberNeedsDigit(s[..|s| - 1]);
    }
  }

  lemma NumberNeedsDigit(s: string)
    requires forall i :: 0 <= i < |s| ==> !('0' <= s[i] <= '9')
    ensures ParseU64(s).None?
  {
    var digits := if "+" <= s then s[1..] else s;
    assert digits != "" ==> !IsDigit(digits[0]);
  }

  lemma TrimmedDuration(d: string, num: string, unit: char)
    requires Trim(d) == num + [unit]
    ensures ParseDuration(d) ==
            if ParseU64(num).None? then None
            else if unit == 's' then ParseU64(num)
            else if unit == 'm' then Some(60 * ParseU64(num).value % 0x1_0000_0000_0000_0000)
            else if unit == 'h' then Some(3600 * ParseU64(num).value % 0x1_0000_0000_0000_0000)
            else None
  {
    var s := num + [unit];
    assert s[..|s| - 1] == num && s[|s| - 1] == unit;
  }

  lemma NumberParses(plus: bool, n: nat)
    ensures ParseU64((if plus then "+" else "") + Print(n))
            == if n < 0x1_0000_0000_0000_0000 then Some(n) else None
  {
    ReadPrint(n);
    if plus {
      assert ("+" + Print(n))[1..] == Print(n);
    } else {
      assert "" + Print(n) == Print(n);
    }
  }
}
