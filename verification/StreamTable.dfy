/** The table of upstreams a stream proxy builds from its configuration. */
module StreamTable {
  import opened Text
  import opened Config

  type Table = map<string, seq<string>>

  /** Inserting one upstream after the other: a later one replaces an earlier one of the same name. */
  function TableOf(ups: seq<StreamUpstream>): Table {
    if ups == [] then map[] else TableOf(ups[..|ups| - 1])[ups[|ups| - 1].name := ups[|ups| - 1].servers]
  }

  /** Entry `i` is the last of its name. */
  ghost predicate IsLast(ups: seq<StreamUpstream>, i: nat)
    requires i < |ups|
  {
    forall j :: i < j < |ups| ==> ups[j].name != ups[i].name
  }

  lemma {:induction false} LastIsKept(ups: seq<StreamUpstream>, i: nat)
    requires i < |ups| && IsLast(ups, i)
    ensures ups[i].name in TableOf(ups) && TableOf(ups)[ups[i].name] == ups[i].servers
  {
    var n := |ups| - 1;
    if i < n {
      assert ups[n].name != ups[i].name;
      assert forall j :: 0 <= j < n ==> ups[..n][j] == ups[j];
      LastIsKept(ups[..n], i);
    }
  }

  lemma {:induction false} LastOfName(ups: seq<StreamUpstream>, i: nat) returns (k: nat)
    requires i < |ups|
    ensures i <= k < |ups| && ups[k].name == ups[i].name && IsLast(ups, k)
    decreases |ups| - i
  {
    if j :| i < j < |ups| && ups[j].name == ups[i].name { k := LastOfName(ups, j); } else { k := i; }
  }

  /** The table names exactly the configured upstreams, and gives each the servers of its last entry. */
  lemma {:induction false} TableExact(ups: seq<StreamUpstream>, name: string)
    ensures name in TableOf(ups) <==> exists i :: 0 <= i < |ups| && ups[i].name == name
    ensures name in TableOf(ups) ==>
              exists i :: 0 <= i < |ups| && ups[i].name == name && IsLast(ups, i)
                && TableOf(ups)[name] == ups[i].servers
  {
    if i :| 0 <= i < |ups| && ups[i].name == name {
      var k := LastOfName(ups, i);
      LastIsKept(ups, k);
    } else {
      NameAbsent(ups, name);
    }
  }

  lemma {:induction false} NameAbsent(ups: seq<StreamUpstream>, name: string)
    requires forall i :: 0 <= i < |ups| ==> ups[i].name != name
    ensures name !in TableOf(ups)
  {
    if ups != [] {
      assert forall j :: 0 <= j < |ups| - 1 ==> ups[..|ups| - 1][j] == ups[j];
      NameAbsent(ups[..|ups| - 1], name);
    }
  }

  /** Every entry is reached under its name. */
  ghost predicate OwnServers(ups: seq<StreamUpstream>) {
    forall i :: 0 <= i < |ups| ==> ups[i].name in TableOf(ups) && TableOf(ups)[ups[i].name] == ups[i].servers
  }

  /** Entries that share a name share their servers. */
  ghost predicate Unambiguous(ups: seq<StreamUpstream>) {
    forall i, j :: 0 <= i < j < |ups| && ups[i].name == ups[j].name ==> ups[i].servers == ups[j].servers
  }

  /** The exact condition, since the last entry of a name hides the others. */
  lemma OwnServersIff(ups: seq<StreamUpstream>)
    ensures OwnServers(ups) <==> Unambiguous(ups)
  {
    if Unambiguous(ups) {
      forall i | 0 <= i < |ups| ensures ups[i].name in TableOf(ups) && TableOf(ups)[ups[i].name] == ups[i].servers {
        var k := LastOfName(ups, i);
        LastIsKept(ups, k);
      }
    }
  }

  // ---------- Building it ----------

  /** Every server of the first `n` upstreams parses. */
  ghost predicate AllParse(parses: string -> bool, ups: seq<StreamUpstream>, n: nat)
    requires n <= |ups|
  {
    forall i, k :: 0 <= i < n && 0 <= k < |ups[i].servers| ==> parses(ups[i].servers[k])
  }

  method FirstBad(parses: string -> bool, servers: seq<string>) returns (bad: Option<string>)
    ensures bad.None? <==> forall k :: 0 <= k < |servers| ==> parses(servers[k])
    ensures bad.Some? ==> exists k :: 0 <= k < |servers| && servers[k] == bad.value && !parses(servers[k])
                                      && forall j :: 0 <= j < k ==> parses(servers[j])
  {
    var k := 0;
    while k < |servers|
      invariant 0 <= k <= |servers| && forall j :: 0 <= j < k ==> parses(servers[j])
    {
      if !parses(servers[k]) {
        return Some(servers[k]);
      }
      k := k + 1;
    }
    return None;
  }

  /** The build loop, which stops at the first upstream with a server that does not parse. */
  method BuildTable(parses: string -> bool, ups: seq<StreamUpstream>) returns (r: Result<Table, string>)
    ensures r.Ok? <==> AllParse(parses, ups, |ups|)
    ensures r.Ok? ==> r.value == TableOf(ups)
    ensures r.Err? ==>
            !parses(r.error) && exists i :: 0 <= i < |ups| && r.error in ups[i].servers && AllParse(parses, ups, i)
  {
    var table: Table := map[];
    var i := 0;
    while i < |ups|
      invariant 0 <= i <= |ups| && AllParse(parses, ups, i) && table == TableOf(ups[..i])
    {
      assert ups[..i + 1][..i] == ups[..i];
      var bad := FirstBad(parses, ups[i].servers);
      if bad.Some? {
        return Err(bad.value);
      }
      table := table[ups[i].name := ups[i].servers];
      i := i + 1;
    }
    assert ups[..|ups|] == ups;
    return Ok(table);
  }
}
