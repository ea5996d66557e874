/** The TLS certificate store: two hash maps filled by insertion, and its agreement with the
    stream router's sorted scan. */
module CertStorage {
  import opened Text
  import opened SniRouting

  datatype Outcome = ExactHit | WildcardHit | DefaultHit | Miss

  /** The certificate most recently registered under the lower-cased domain `key`. */
  function LastFor<C>(log: seq<(string, C)>, key: string): Option<C> {
    if log == [] then None
    else if ToLower(log[|log| - 1].0) == key then Some(log[|log| - 1].1)
    else LastFor(log[..|log| - 1], key)
  }

  /** The wildcard domain a name is looked up under: a star in place of everything before its
      first dot, even when that is empty. */
  function ParentWildcard(host: string): Option<string> {
    var dot := IndexOf(host, '.');
    if dot < |host| then Some("*" + host[dot..]) else None
  }

  /** Last registered exact domain, else last registered wildcard, else the default. */
  function ResolveLog<C>(log: seq<(string, C)>, default: Option<C>, sni: string): (Option<C>, Outcome) {
    var host := ToLower(sni);
    if !("*." <= host) && LastFor(log, host).Some? then (LastFor(log, host), ExactHit)
    else if ParentWildcard(host).Some? && LastFor(log, ParentWildcard(host).value).Some?
    then (LastFor(log, ParentWildcard(host).value), WildcardHit)
    else if default.Some? then (default, DefaultHit)
    else (None, Miss)
  }

  ghost predicate ExactIndexes<C>(exact: map<string, C>, log: seq<(string, C)>) {
    forall k :: if k in exact then !("*." <= k) && LastFor(log, k) == Some(exact[k])
                else "*." <= k || LastFor(log, k).None?
  }

  ghost predicate WildcardIndexes<C>(wildcard: map<string, C>, log: seq<(string, C)>) {
    forall k :: if k in wildcard then LastFor(log, "*." + k) == Some(wildcard[k])
                else LastFor(log, "*." + k).None?
  }

  /** One registration, as the loop body of `insert` performs it, keeps both indexes. */
  lemma RegisterKeepsIndexes<C>(
    exact: map<string, C>, wildcard: map<string, C>, log: seq<(string, C)>, domain: string, cert: C)
    requires ExactIndexes(exact, log) && WildcardIndexes(wildcard, log)
    ensures var lower := ToLower(domain);
            var log' := log + [(domain, cert)];
            if "*." <= lower then ExactIndexes(exact, log') && WildcardIndexes(wildcard[lower[2..] := cert], log')
            else ExactIndexes(exact[lower := cert], log') && WildcardIndexes(wildcard, log')
  {
    var lower := ToLower(domain);
    var log' := log + [(domain, cert)];
    assert log'[..|log'| - 1] == log;
    assert forall k :: LastFor(log', k) == if k == lower then Some(cert) else LastFor(log, k);
    forall k ensures "*." + k == lower <==> "*." <= lower && k == lower[2..] {
      assert ("*." + k)[2..] == k;
    }
  }

  class CertStore<C> {
    var exact: map<string, C>
    var wildcard: map<string, C>
    var default: Option<C>
    /** Every (domain, certificate) registration so far, oldest first. */
    ghost var log: seq<(string, C)>

    ghost predicate Valid()
      reads this
    {
      ExactIndexes(exact, log) && WildcardIndexes(wildcard, log)
    }

    constructor ()
      ensures Valid() && log == [] && default == None
    {
      exact, wildcard, default, log := map[], map[], None, [];
    }

    method Insert(domains: seq<string>, cert: C)
      requires Valid()
      modifies this
      ensures Valid() && default == old(default)
      ensures log == old(log) + seq(|domains|, i requires 0 <= i < |domains| => (domains[i], cert))
    {
      var i := 0;
      while i < |domains|
        invariant 0 <= i <= |domains|
        invariant Valid() && default == old(default)
        invariant log == old(log) + seq(i, j requires 0 <= j < i => (domains[j], cert))
      {
        var lower := ToLower(domains[i]);
        RegisterKeepsIndexes(exact, wildcard, log, domains[i], cert);
        log := log + [(domains[i], cert)];
        if "*." <= lower {
          wildcard := wildcard[lower[2..] := cert];
        } else {
          exact := exact[lower := cert];
        }
        i := i + 1;
      }
    }

    method SetDefault(cert: C)
      requires Valid()
      modifies this
      ensures Valid() && default == Some(cert) && log == old(log)
    {
      default := Some(cert);
    }

    method Resolve(sni: string) returns (cert: Option<C>, outcome: Outcome)
      requires Valid()
      ensures (cert, outcome) == ResolveLog(log, default, sni)
    {
      var host := ToLower(sni);
      if host in exact {
        return Some(exact[host]), ExactHit;
      }
      var dot := IndexOf(host, '.');
      if dot < |host| {
        var parent := host[dot + 1..];
        assert "*" + host[dot..] == "*." + parent;
        if parent in wildcard {
          return Some(wildcard[parent]), WildcardHit;
        }
      }
      if default.Some? {
        return default, DefaultHit;
      }
      return None, Miss;
    }
  }

  // ---------- Agreement with the SNI router ----------

  lemma {:induction false} LastForIsLookup(entries: seq<(string, string)>, key: string)
    requires DistinctRoutes(entries)
    ensures LastFor(entries, key) == Lookup(entries, key)
  {
    if entries != [] {
      var n := |entries| - 1;
      assert DistinctRoutes(entries[..n]) by {
        assert forall i :: 0 <= i < n ==> entries[..n][i] == entries[i];
      }
      LastForIsLookup(entries[..n], key);
      if LowerKey(entries[n]) == key {
        LookupFinds(entries, n);
      } else {
        LookupPrefix(entries, n, key);
      }
    }
  }

  lemma {:induction false} LookupPrefix(entries: seq<(string, string)>, n: nat, key: string)
    requires n == |entries| - 1 && LowerKey(entries[n]) != key
    ensures Lookup(entries[..n], key) == Lookup(entries, key)
  {
    if n == 0 {
      assert entries[1..] == [];
    } else {
      LookupPrefix(entries[1..], n - 1, key);
      assert entries[..n][1..] == entries[1..][..n - 1];
    }
  }

  /** Registered with the same table, store and router resolve a name alike, except exactly when it
      starts with a dot, has no entry of its own, and the wildcard made of a star and the whole name
      is registered with something other than the default. */
  lemma RouterAgreesWithStore(entries: seq<(string, string)>, default: Option<string>, sni: string)
    requires DistinctRoutes(entries)
    ensures MatchResult(NewRouter(entries, default), Some(sni)) == ResolveLog(entries, default, sni).0
       <==> !(&& "." <= ToLower(sni)
              && Lookup(entries, ToLower(sni)).None?
              && Lookup(entries, "*" + ToLower(sni)).Some?
              && Lookup(entries, "*" + ToLower(sni)) != default)
  {
    var host := ToLower(sni);
    RouterEqualsIndex(entries, default, sni);
    LastForIsLookup(entries, host);
    var dot := IndexOf(host, '.');
    if dot < |host| {
      LastForIsLookup(entries, "*" + host[dot..]);
      if dot == 0 {
        assert host[dot..] == host;
      }
    }
    if "*." <= host {
      assert host[0] == '*' && host[1..][0] == '.';
      assert dot == 1 && host == "*" + host[1..];
    }
  }
}
