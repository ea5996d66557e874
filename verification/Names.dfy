/** One-label wildcard name matching (section 6.4.3 of RFC 6125), as it is written three times:
    the stream router's `CompiledPattern`, the HTTP data plane's `HostMatcher` and the control
    plane's `hostname_intersects`. */
module Names {
  import opened Text

  // ---------- CompiledPattern (stream router) ----------

  datatype Pattern = Exact(name: string) | Wildcard(suffix: string)

  function ParsePattern(pattern: string): Pattern {
    var lower := ToLower(pattern);
    match StripPrefix(lower, "*.")
    case Some(rest) => Wildcard("." + rest)
    case None => Exact(lower)
  }

  predicate PatternMatches(p: Pattern, host: string) {
    match p
    case Exact(name) => host == name
    case Wildcard(suffix) =>
      match StripSuffix(host, suffix)
      case Some(head) => head != "" && '.' !in head
      case None => false
  }

  /** A wildcard matches exactly the hosts whose part from the first dot on is its suffix, with a
      non-empty first label. */
  lemma WildcardMatchesFromFirstDot(suffix: string, host: string)
    requires suffix != "" && suffix[0] == '.'
    ensures PatternMatches(Wildcard(suffix), host) <==>
            0 < IndexOf(host, '.') < |host| && host[IndexOf(host, '.')..] == suffix
  {
    var dot := IndexOf(host, '.');
    if HasSuffix(host, suffix) {
      var head := host[..|host| - |suffix|];
      assert host[|head|] == suffix[0];
      assert '.' !in head ==> dot == |head|;
      assert host[dot..] == suffix ==> dot == |head|;
    }
  }

  lemma ParsePatternInjective(a: string, b: string)
    requires ParsePattern(a) == ParsePattern(b)
    ensures ToLower(a) == ToLower(b)
  {
    var la, lb := ToLower(a), ToLower(b);
    if "*." <= la {
      assert la == "*." + la[2..] && lb == "*." + lb[2..];
      assert ("." + la[2..])[1..] == la[2..] && ("." + lb[2..])[1..] == lb[2..];
    }
  }

  // ---------- HostMatcher (HTTP data plane) ----------

  datatype HostMatcher = HostExact(expected: string) | HostWildcard(suffix: string)

  datatype HostError = UnsupportedWildcard(pattern: string)

  function CompileHost(pattern: string): Result<HostMatcher, HostError> {
    match StripPrefix(pattern, "*.")
    case Some(rest) => Ok(HostWildcard("." + ToLower(rest)))
    case None =>
      if '*' in pattern then Err(UnsupportedWildcard(pattern))
      else Ok(HostExact(ToLower(pattern)))
  }

  /** The host in lower case, up to the first colon. */
  function HostName(host: string): string {
    var lower := ToLower(host);
    lower[..IndexOf(lower, ':')]
  }

  predicate HostMatches(m: HostMatcher, host: string) {
    var name := HostName(host);
    match m
    case HostExact(expected) => name == expected
    case HostWildcard(suffix) =>
      && HasSuffix(name, suffix)
      && |name| != |suffix|
      && '.' !in name[..|name| - |suffix|]
  }

  // ---------- hostname_intersects (control plane) ----------

  predicate OneLabelUnder(host: string, base: string) {
    match StripSuffix(host, "." + base)
    case Some(head) => head != "" && '.' !in head
    case None => false
  }

  predicate HostnameIntersects(a: string, b: string) {
    if a == b then true
    else if "*." <= a && !("*." <= b) && HasSuffix(b, "." + a[2..]) then OneLabelUnder(b, a[2..])
    else if "*." <= b && !("*." <= a) && HasSuffix(a, "." + b[2..]) then OneLabelUnder(a, b[2..])
    else false
  }

  // ---------- The three agree ----------

  /** A compiled host matcher accepts a host exactly when the stream router's pattern accepts the
      lower-cased, port-free name. */
  lemma HostMatcherAgreesWithPattern(pattern: string, host: string)
    requires CompileHost(pattern).Ok?
    ensures HostMatches(CompileHost(pattern).value, host) <==> PatternMatches(ParsePattern(pattern), HostName(host))
  {
    var lower := ToLower(pattern);
    if "*." <= pattern {
      assert lower[..2] == "*.";
      assert lower[2..] == ToLower(pattern[2..]);
    } else {
      assert !("*." <= lower);
    }
  }

  /** A host every pattern without a colon accepts. */
  function Witness(p: Pattern): string {
    match p
    case Exact(name) => name
    case Wildcard(suffix) => "x" + suffix
  }

  predicate PlainName(s: string) { ToLower(s) == s && ':' !in s }

  lemma PlainHostName(s: string)
    requires PlainName(s)
    ensures HostName(s) == s
  {
    assert IndexOf(s, ':') == |s|;
  }

  lemma HostNameIsPlain(host: string)
    ensures PlainName(HostName(host))
  {
    var name := HostName(host);
    forall i | 0 <= i < |name| ensures LowerChar(name[i]) == name[i] { }
    assert ToLower(name) == name;
  }

  lemma LowerKeepsColons(s: string)
    ensures ':' in s <==> ':' in ToLower(s)
    ensures ToLower(ToLower(s)) == ToLower(s)
  {
    if i :| 0 <= i < |s| && s[i] == ':' { assert ToLower(s)[i] == ':'; }
    if i :| 0 <= i < |s| && ToLower(s)[i] == ':' { assert s[i] == ':'; }
    assert ToLower(ToLower(s)) == ToLower(s);
  }

  /** Intersecting lower-case patterns have a common plain host. */
  lemma IntersectionHasHost(a: string, b: string) returns (host: string)
    requires PlainName(a) && PlainName(b) && HostnameIntersects(a, b)
    ensures PlainName(host) && PatternMatches(ParsePattern(a), host) && PatternMatches(ParsePattern(b), host)
  {
    if a == b {
      host := Witness(ParsePattern(a));
      if "*." <= a {
        assert host == ['x'] + a[1..];
        assert ToLower(host) == host;
        assert host[..|host| - |a[1..]|] == "x";
      }
    } else if "*." <= a && !("*." <= b) && HasSuffix(b, "." + a[2..]) {
      host := b;
    } else {
      host := a;
    }
  }

  /** A common host forces the lower-cased patterns to intersect. */
  lemma CommonHostIntersects(a: string, b: string, host: string)
    requires ToLower(a) == a && ToLower(b) == b
    requires PatternMatches(ParsePattern(a), host) && PatternMatches(ParsePattern(b), host)
    ensures HostnameIntersects(a, b)
  {
    var pa, pb := ParsePattern(a), ParsePattern(b);
    if pa.Wildcard? && pb.Wildcard? {
      WildcardMatchesFromFirstDot(pa.suffix, host);
      WildcardMatchesFromFirstDot(pb.suffix, host);
      ParsePatternInjective(a, b);
    }
  }

  lemma MatchedPatternHasNoColon(a: string, host: string)
    requires ToLower(a) == a && PlainName(host) && PatternMatches(ParsePattern(a), host)
    ensures ':' !in a
  {
    if "*." <= a {
      var suffix := ParsePattern(a).suffix;
      WildcardMatchesFromFirstDot(suffix, host);
      forall i | 0 <= i < |a| ensures a[i] != ':' {
        if i >= 1 { assert a[i] == suffix[i - 1]; assert suffix[i - 1] in host; }
      }
    }
  }

  ghost predicate ShareHost(a: string, b: string)
    requires CompileHost(a).Ok? && CompileHost(b).Ok?
  {
    exists host :: HostMatches(CompileHost(a).value, host) && HostMatches(CompileHost(b).value, host)
  }

  /** Control plane against data plane, for every pair of patterns the data plane compiles: some
      host is accepted by both matchers exactly when neither pattern contains a colon and
      `hostname_intersects` holds of the lower-cased patterns. */
  lemma IntersectsIffShareHost(a: string, b: string)
    requires CompileHost(a).Ok? && CompileHost(b).Ok?
    ensures ShareHost(a, b) <==> ':' !in a && ':' !in b && HostnameIntersects(ToLower(a), ToLower(b))
  {
    var la, lb := ToLower(a), ToLower(b);
    LowerKeepsColons(a);
    LowerKeepsColons(b);
    assert ParsePattern(a) == ParsePattern(la) && ParsePattern(b) == ParsePattern(lb);
    if ShareHost(a, b) {
      var host :| HostMatches(CompileHost(a).value, host) && HostMatches(CompileHost(b).value, host);
      HostMatcherAgreesWithPattern(a, host);
      HostMatcherAgreesWithPattern(b, host);
      HostNameIsPlain(host);
      CommonHostIntersects(la, lb, HostName(host));
      MatchedPatternHasNoColon(la, HostName(host));
      MatchedPatternHasNoColon(lb, HostName(host));
    }
    if ':' !in a && ':' !in b && HostnameIntersects(la, lb) {
      var host := IntersectionHasHost(la, lb);
      PlainHostName(host);
      HostMatcherAgreesWithPattern(a, host);
      HostMatcherAgreesWithPattern(b, host);
    }
  }

  /** The check is symmetric, and two different wildcards never intersect. */
  lemma IntersectsSymmetric(a: string, b: string)
    ensures HostnameIntersects(a, b) == HostnameIntersects(b, a)
    ensures "*." <= a && "*." <= b && a != b ==> !HostnameIntersects(a, b)
  {
  }

  lemma LowerKeepsOneLabel(host: string, base: string)
    requires OneLabelUnder(host, base)
    ensures OneLabelUnder(ToLower(host), ToLower(base))
  {
    var low, suffix := ToLower(host), "." + ToLower(base);
    var n := |host| - |suffix|;
    assert forall i :: n < i < |host| ==> host[i] == host[n..][i - n] == base[i - n - 1];
    assert low[n..] == suffix;
    assert host[..n] != "" && forall i :: 0 <= i < n ==> host[..n][i] == host[i] && low[..n][i] == LowerChar(host[i]);
  }

  lemma LowerKeepsIntersection(a: string, b: string)
    requires HostnameIntersects(a, b)
    ensures HostnameIntersects(ToLower(a), ToLower(b))
  {
    var la, lb := ToLower(a), ToLower(b);
    assert ("*." <= la <==> "*." <= a) && ("*." <= lb <==> "*." <= b);
    if a != b && "*." <= a {
      assert la[2..] == ToLower(a[2..]);
      LowerKeepsOneLabel(b, a[2..]);
    } else if a != b {
      assert lb[2..] == ToLower(b[2..]);
      LowerKeepsOneLabel(a, b[2..]);
    }
  }

  /** Exactly when the check on the patterns as written agrees with the data plane: a pair it takes to
      intersect must be free of colons; a pair it takes not to intersect must contain one, or not intersect in
      lower case either. */
  lemma IntersectsAgreesIff(a: string, b: string)
    requires CompileHost(a).Ok? && CompileHost(b).Ok?
    ensures HostnameIntersects(a, b) == ShareHost(a, b) <==>
            if HostnameIntersects(a, b) then ':' !in a && ':' !in b
            else ':' in a || ':' in b || !HostnameIntersects(ToLower(a), ToLower(b))
  {
    IntersectsIffShareHost(a, b);
    if HostnameIntersects(a, b) { LowerKeepsIntersection(a, b); }
  }

  /** It misses intersections the data plane has: it compares case-sensitively, so a pattern that is not in
      lower case does not intersect its own lower-case form. */
  lemma IntersectsIsCaseSensitive(a: string)
    requires CompileHost(a).Ok? && ':' !in a && ToLower(a) != a
    ensures CompileHost(ToLower(a)).Ok? && ShareHost(a, ToLower(a)) && !HostnameIntersects(a, ToLower(a))
  {
    var b := ToLower(a);
    LowerKeepsColons(a);
    assert '*' in b ==> '*' in a by {
      if i :| 0 <= i < |b| && b[i] == '*' { assert a[i] == '*'; }
    }
    assert "*." <= a <==> "*." <= b;
    IntersectsIffShareHost(a, b);
  }

  /** It sees intersections the data plane does not have: a pattern with a colon accepts no host at all, the
      port being cut off before the comparison, and yet intersects itself. */
  lemma ColonPatternsShareNoHost(a: string)
    requires CompileHost(a).Ok? && ':' in a
    ensures HostnameIntersects(a, a) && !ShareHost(a, a)
  {
    IntersectsIffShareHost(a, a);
  }
}
