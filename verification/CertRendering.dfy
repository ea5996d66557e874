/** Listener certificates rendered to file certificates, one per Secret. */
module CertRendering {
  import opened Text
  import opened Ordering
  import opened GatewayApi
  import opened ControllerState
  import opened Config

  /** A certificate reference of a listener with a hostname whose Secret has been materialized. */
  datatype CertUse = CertUse(key: string, name: string, paths: (string, string), hostname: string)

  function RefUses(secrets: Secrets, gwNs: string, l: Listener, refs: seq<SecretRef>): seq<CertUse> {
    if refs == [] then []
    else
      var ref := refs[|refs| - 1];
      var key := ObjectKey(ref.namespace.Or(gwNs), ref.name);
      RefUses(secrets, gwNs, l, refs[..|refs| - 1])
      + if l.hostname.Some? && key in secrets then [CertUse(key, ref.name, secrets[key], l.hostname.value)] else []
  }

  function ListenerUses(secrets: Secrets, gwNs: string, l: Listener): seq<CertUse> {
    RefUses(secrets, gwNs, l, l.certificateRefs.Or([]))
  }

  function ListenersUses(secrets: Secrets, gwNs: string, ls: seq<Listener>): seq<CertUse> {
    if ls == [] then [] else ListenersUses(secrets, gwNs, ls[..|ls| - 1]) + ListenerUses(secrets, gwNs, ls[|ls| - 1])
  }

  function GatewaysUses(secrets: Secrets, gws: seq<(string, Gateway)>): seq<CertUse> {
    if gws == [] then []
    else
      var gw := gws[|gws| - 1].1;
      GatewaysUses(secrets, gws[..|gws| - 1]) + ListenersUses(secrets, gw.namespace.Or("default"), gw.listeners)
  }

  function CertUses(st: GatewayState): seq<CertUse> { GatewaysUses(st.secrets, InKeyOrder(st.gateways)) }

  /** What a certificate reference of a listener gives: something only if the listener has a hostname and
      the Secret is known. */
  predicate RefGives(secrets: Secrets, gwNs: string, l: Listener, ref: SecretRef, u: CertUse) {
    var key := ObjectKey(ref.namespace.Or(gwNs), ref.name);
    l.hostname.Some? && key in secrets && u == CertUse(key, ref.name, secrets[key], l.hostname.value)
  }

  lemma {:induction false} RefUsesExact(secrets: Secrets, gwNs: string, l: Listener, refs: seq<SecretRef>)
    ensures forall u :: u in RefUses(secrets, gwNs, l, refs) <==>
            exists ref :: ref in refs && RefGives(secrets, gwNs, l, ref, u)
  {
    if refs != [] {
      var init, last := refs[..|refs| - 1], refs[|refs| - 1];
      RefUsesExact(secrets, gwNs, l, init);
      assert refs == init + [last];
      forall u | u in RefUses(secrets, gwNs, l, refs)
        ensures exists ref :: ref in refs && RefGives(secrets, gwNs, l, ref, u)
      {
        if u in RefUses(secrets, gwNs, l, init) {
          var ref :| ref in init && RefGives(secrets, gwNs, l, ref, u);
          assert ref in refs;
        } else {
          assert RefGives(secrets, gwNs, l, last, u);
        }
      }
      forall ref, u | ref in refs && RefGives(secrets, gwNs, l, ref, u) ensures u in RefUses(secrets, gwNs, l, refs) {
        assert ref in init || ref == last;
      }
    }
  }

  ghost predicate ListenerGives(secrets: Secrets, gwNs: string, l: Listener, u: CertUse) {
    exists ref :: ref in l.certificateRefs.Or([]) && RefGives(secrets, gwNs, l, ref, u)
  }

  lemma {:induction false} ListenersUsesExact(secrets: Secrets, gwNs: string, ls: seq<Listener>)
    ensures forall u :: u in ListenersUses(secrets, gwNs, ls) <==>
            exists l :: l in ls && ListenerGives(secrets, gwNs, l, u)
  {
    if ls != [] {
      var init, last := ls[..|ls| - 1], ls[|ls| - 1];
      ListenersUsesExact(secrets, gwNs, init);
      RefUsesExact(secrets, gwNs, last, last.certificateRefs.Or([]));
      assert forall l :: l in ls <==> l in init || l == last;
      assert forall u :: u in ListenerUses(secrets, gwNs, last) <==> ListenerGives(secrets, gwNs, last, u);
    }
  }

  ghost predicate GatewayGives(secrets: Secrets, gw: Gateway, u: CertUse) {
    exists l :: l in gw.listeners && ListenerGives(secrets, gw.namespace.Or("default"), l, u)
  }

  lemma {:induction false} GatewaysUsesExact(secrets: Secrets, gws: seq<(string, Gateway)>)
    ensures forall u :: u in GatewaysUses(secrets, gws) <==> exists g :: g in gws && GatewayGives(secrets, g.1, u)
  {
    if gws != [] {
      var gw := gws[|gws| - 1].1;
      GatewaysUsesExact(secrets, gws[..|gws| - 1]);
      ListenersUsesExact(secrets, gw.namespace.Or("default"), gw.listeners);
      assert gws == gws[..|gws| - 1] + [gws[|gws| - 1]];
    }
  }

  /** The uses are those of all listeners of all gateways. */
  lemma CertUsesExact(st: GatewayState)
    ensures forall u :: u in CertUses(st) <==> exists g :: g in st.gateways && GatewayGives(st.secrets, g.1, u)
  {
    StrLeTotalOrder();
    GatewaysUsesExact(st.secrets, InKeyOrder(st.gateways));
    MembersOfSort(st.gateways, EntryKey<Gateway>, StrLe);
  }

  // ---------- Merging uses per Secret ----------

  /** The certificate map, and its keys in the order they were first inserted. */
  datatype Acc = Acc(order: seq<string>, certs: map<string, FileCert>)

  const EMPTY := Acc([], map[])

  function AddUse(acc: Acc, u: CertUse): Acc {
    var entry := if u.key in acc.certs then acc.certs[u.key] else FileCert(u.name, u.paths.0, u.paths.1, []);
    Acc(if u.key in acc.certs then acc.order else acc.order + [u.key],
        acc.certs[u.key := if u.hostname in entry.domains then entry
          else entry.(domains := entry.domains + [u.hostname])])
  }

  function AddUses(acc: Acc, us: seq<CertUse>): Acc {
    if us == [] then acc else AddUse(AddUses(acc, us[..|us| - 1]), us[|us| - 1])
  }

  lemma {:induction false} AddConcat(acc: Acc, x: seq<CertUse>, y: seq<CertUse>)
    ensures AddUses(AddUses(acc, x), y) == AddUses(acc, x + y)
  {
    if y == [] {
      assert x + y == x;
    } else {
      var n := |y| - 1;
      AddConcat(acc, x, y[..n]);
      assert (x + y)[..|x + y| - 1] == x + y[..n];
    }
  }

  lemma AddOne(acc: Acc, us: seq<CertUse>, u: CertUse)
    ensures AddUses(acc, us + [u]) == AddUse(AddUses(acc, us), u)
  {
    assert (us + [u])[..|us|] == us;
  }

  method MergeUse(acc0: Acc, u: CertUse) returns (acc: Acc)
    ensures acc == AddUse(acc0, u)
  {
    var order, entry := acc0.order, FileCert(u.name, u.paths.0, u.paths.1, []);
    if u.key in acc0.certs {
      entry := acc0.certs[u.key];
    } else {
      order := order + [u.key];
    }
    if u.hostname !in entry.domains {
      entry := entry.(domains := entry.domains + [u.hostname]);
    }
    acc := Acc(order, acc0.certs[u.key := entry]);
  }

  lemma NextRef(secrets: Secrets, gwNs: string, l: Listener, refs: seq<SecretRef>, i: nat)
    requires i < |refs|
    ensures var key, before := refs[i].namespace.Or(gwNs) + "/" + refs[i].name, RefUses(secrets, gwNs, l, refs[..i]);
            RefUses(secrets, gwNs, l, refs[..i + 1]) ==
            if l.hostname.Some? && key in secrets
            then before + [CertUse(key, refs[i].name, secrets[key], l.hostname.value)] else before
  {
    assert refs[..i + 1][..i] == refs[..i];
  }

  method CollectRefs(secrets: Secrets, gwNs: string, l: Listener, refs: seq<SecretRef>, acc0: Acc) returns (acc: Acc)
    ensures acc == AddUses(acc0, RefUses(secrets, gwNs, l, refs))
  {
    acc := acc0;
    var i := 0;
    while i < |refs|
      invariant 0 <= i <= |refs| && acc == AddUses(acc0, RefUses(secrets, gwNs, l, refs[..i]))
    {
      NextRef(secrets, gwNs, l, refs, i);
      var certNs := match refs[i].namespace case Some(ns) => ns case None => gwNs;
      var key := certNs + "/" + refs[i].name;
      if l.hostname.Some? && key in secrets {
        var u := CertUse(key, refs[i].name, secrets[key], l.hostname.value);
        AddOne(acc0, RefUses(secrets, gwNs, l, refs[..i]), u);
        acc := MergeUse(acc, u);
      }
      i := i + 1;
    }
    assert refs[..|refs|] == refs;
  }

  lemma NextListener(secrets: Secrets, gwNs: string, ls: seq<Listener>, i: nat, acc: Acc)
    requires i < |ls|
    ensures AddUses(acc, ListenersUses(secrets, gwNs, ls[..i + 1]))
            == AddUses(AddUses(acc, ListenersUses(secrets, gwNs, ls[..i])),
              RefUses(secrets, gwNs, ls[i], ls[i].certificateRefs.Or([])))
  {
    assert ls[..i + 1][..i] == ls[..i];
    AddConcat(acc, ListenersUses(secrets, gwNs, ls[..i]), ListenerUses(secrets, gwNs, ls[i]));
  }

  method CollectListeners(secrets: Secrets, gwNs: string, ls: seq<Listener>, acc0: Acc) returns (acc: Acc)
    ensures acc == AddUses(acc0, ListenersUses(secrets, gwNs, ls))
  {
    acc := acc0;
    var i := 0;
    while i < |ls|
      invariant 0 <= i <= |ls| && acc == AddUses(acc0, ListenersUses(secrets, gwNs, ls[..i]))
    {
      NextListener(secrets, gwNs, ls, i, acc0);
      if ls[i].certificateRefs.Some? {
        acc := CollectRefs(secrets, gwNs, ls[i], ls[i].certificateRefs.value, acc);
      }
      i := i + 1;
    }
    assert ls[..|ls|] == ls;
  }

  lemma NextGateway(secrets: Secrets, gws: seq<(string, Gateway)>, i: nat)
    requires i < |gws|
    ensures AddUses(EMPTY, GatewaysUses(secrets, gws[..i + 1]))
            == AddUses(AddUses(EMPTY, GatewaysUses(secrets, gws[..i])),
              ListenersUses(secrets, gws[i].1.namespace.Or("default"), gws[i].1.listeners))
  {
    assert gws[..i + 1][..i] == gws[..i];
    AddConcat(EMPTY, GatewaysUses(secrets, gws[..i]),
      ListenersUses(secrets, gws[i].1.namespace.Or("default"), gws[i].1.listeners));
  }

  method CollectCerts(st: GatewayState) returns (acc: Acc)
    ensures acc == AddUses(EMPTY, CertUses(st))
  {
    var gws := InKeyOrder(st.gateways);
    acc := Acc([], map[]);
    var i := 0;
    while i < |gws|
      invariant 0 <= i <= |gws| && acc == AddUses(EMPTY, GatewaysUses(st.secrets, gws[..i]))
    {
      var gw := gws[i].1;
      NextGateway(st.secrets, gws, i);
      var gwNs := match gw.namespace case Some(ns) => ns case None => "default";
      acc := CollectListeners(st.secrets, gwNs, gw.listeners, acc);
      i := i + 1;
    }
    assert gws[..|gws|] == gws;
  }

  // ---------- What the merged certificates are ----------

  ghost predicate NoRepeats(xs: seq<string>) { forall i, j :: 0 <= i < j < |xs| ==> xs[i] != xs[j] }

  ghost predicate Keyed(acc: Acc) { NoRepeats(acc.order) && forall k :: k in acc.order <==> k in acc.certs }

  /** One entry per Secret used, whose domains are the hostnames of its uses, each once. */
  ghost predicate Merges(acc: Acc, us: seq<CertUse>) {
    && Keyed(acc)
    && (forall u :: u in us ==> u.key in acc.certs && u.hostname in acc.certs[u.key].domains)
    && (forall k :: k in acc.certs ==> acc.certs[k].domains != [] && NoRepeats(acc.certs[k].domains))
    && (forall k, d :: k in acc.certs && d in acc.certs[k].domains ==>
       exists u :: u in us && u.key == k && u.hostname == d)
  }

  lemma AddKeepsMerge(acc: Acc, us: seq<CertUse>, u: CertUse)
    requires Merges(acc, us)
    ensures Merges(AddUse(acc, u), us + [u])
  {
    var certs', us' := AddUse(acc, u).certs, us + [u];
    assert us'[|us|] == u;
    assert forall v :: v in us' <==> v in us || v == u;
    forall k, d | k in certs' && d in certs'[k].domains ensures exists v :: v in us' && v.key == k && v.hostname == d {
      if k in acc.certs && d in acc.certs[k].domains {
        var v :| v in us && v.key == k && v.hostname == d;
        assert v in us';
      }
    }
  }

  lemma {:induction false} CertsMergeUses(us: seq<CertUse>)
    ensures Merges(AddUses(EMPTY, us), us)
  {
    if us != [] {
      var init, u := us[..|us| - 1], us[|us| - 1];
      assert us == init + [u];
      CertsMergeUses(init);
      AddKeepsMerge(AddUses(EMPTY, init), init, u);
    }
  }

  /** `c` carries the name and the paths of a use of its Secret. */
  ghost predicate CopiesUse(c: FileCert, key: string, us: seq<CertUse>) {
    exists u :: u in us && u.key == key && u.name == c.name && u.paths == (c.cert, c.key)
  }

  lemma {:induction false} CertsCopyUses(us: seq<CertUse>, k: string)
    requires k in AddUses(EMPTY, us).certs
    ensures CopiesUse(AddUses(EMPTY, us).certs[k], k, us)
  {
    if us != [] {
      var init, u := us[..|us| - 1], us[|us| - 1];
      assert us == init + [u];
      var certs := AddUses(EMPTY, init).certs;
      if k in certs {
        CertsCopyUses(init, k);
        var v :| v in init && v.key == k && v.name == certs[k].name && v.paths == (certs[k].cert, certs[k].key);
        assert v in us;
      } else {
        assert u in us;
      }
    }
  }

  // ---------- The rendered list ----------

  /** The certificates in key order. */
  function CertList(acc: Acc): (r: seq<FileCert>)
    requires forall k :: k in acc.order ==> k in acc.certs
    ensures |r| == |SortedStrings(acc.order)|
    ensures forall i :: 0 <= i < |r| ==>
            SortedStrings(acc.order)[i] in acc.certs && r[i] == acc.certs[SortedStrings(acc.order)[i]]
  {
    var keys := SortedStrings(acc.order);
    StrLeTotalOrder();
    MembersOfSort(acc.order, Codes, StrLe);
    assert forall i :: 0 <= i < |keys| ==> keys[i] in keys;
    seq(|keys|, i requires 0 <= i < |keys| => acc.certs[keys[i]])
  }

  function GeneratedCerts(st: GatewayState): seq<FileCert> {
    CertsMergeUses(CertUses(st));
    CertList(AddUses(EMPTY, CertUses(st)))
  }

  /** Every emitted certificate has a domain, so none is a default certificate. */
  lemma CertsHaveDomains(st: GatewayState)
    ensures forall i :: 0 <= i < |GeneratedCerts(st)| ==> GeneratedCerts(st)[i].domains != []
  {
    CertsMergeUses(CertUses(st));
  }

  /** The emitted certificates and the (Secret, hostname) uses correspond: a certificate lists exactly the
      hostnames its Secret is used for, under that Secret's name and paths. */
  lemma CertsExact(st: GatewayState, i: nat)
    requires i < |GeneratedCerts(st)|
    ensures var c, k := GeneratedCerts(st)[i], SortedStrings(AddUses(EMPTY, CertUses(st)).order)[i];
            && CopiesUse(c, k, CertUses(st)) && NoRepeats(c.domains)
            && forall d :: d in c.domains <==> exists u :: u in CertUses(st) && u.key == k && u.hostname == d
  {
    var us := CertUses(st);
    CertsMergeUses(us);
    CertsCopyUses(us, SortedStrings(AddUses(EMPTY, us).order)[i]);
  }

  /** Each Secret that is used appears exactly once. */
  lemma CertsOncePerSecret(st: GatewayState, u: CertUse)
    requires u in CertUses(st)
    ensures var keys := SortedStrings(AddUses(EMPTY, CertUses(st)).order);
            |keys| == |GeneratedCerts(st)| && NoRepeats(keys) && u.key in keys
  {
    var us := CertUses(st);
    var acc := AddUses(EMPTY, us);
    CertsMergeUses(us);
    StrLeTotalOrder();
    MembersOfSort(acc.order, Codes, StrLe);
    forall i, j | 0 <= i < j < |acc.order| ensures Codes(acc.order[i]) != Codes(acc.order[j]) {
      if Codes(acc.order[i]) == Codes(acc.order[j]) { CodesInjective(acc.order[i], acc.order[j]); }
    }
    SortDistinct(acc.order, Codes, StrLe);
  }
}
