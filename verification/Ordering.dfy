/** Total orders, the lexicographic order Rust uses for strings and tuples, and the stable
    sort behind `sort_by` / `sort_by_key`.

    The central fact is `SortDeterminedByClasses`: the result of a stable sort depends only on
    the subsequence of each key class.  Every "any HashMap enumeration order gives the same
    output" theorem in this project is an instance of it. */
module Ordering {

  ghost predicate TotalOrder<K(!new)>(le: (K, K) -> bool) {
    && (forall a :: le(a, a))
    && (forall a, b :: le(a, b) && le(b, a) ==> a == b)
    && (forall a, b, c :: le(a, b) && le(b, c) ==> le(a, c))
    && (forall a, b :: le(a, b) || le(b, a))
  }

  // ---------- Lexicographic order ----------

  predicate LexLe<T(==)>(le: (T, T) -> bool, a: seq<T>, b: seq<T>) {
    if a == [] then true
    else if b == [] then false
    else if a[0] == b[0] then LexLe(le, a[1..], b[1..])
    else le(a[0], b[0])
  }

  lemma {:induction false} LexReflexive<T>(le: (T, T) -> bool, a: seq<T>)
    ensures LexLe(le, a, a)
  {
    if a != [] { LexReflexive(le, a[1..]); }
  }

  lemma {:induction false} LexAntisymmetric<T(!new)>(le: (T, T) -> bool, a: seq<T>, b: seq<T>)
    requires TotalOrder(le) && LexLe(le, a, b) && LexLe(le, b, a)
    ensures a == b
  {
    if a != [] && b != [] {
      if a[0] == b[0] {
        LexAntisymmetric(le, a[1..], b[1..]);
        assert a == [a[0]] + a[1..] && b == [b[0]] + b[1..];
      }
    }
  }

  lemma {:induction false} LexTransitive<T(!new)>(le: (T, T) -> bool, a: seq<T>, b: seq<T>, c: seq<T>)
    requires TotalOrder(le) && LexLe(le, a, b) && LexLe(le, b, c)
    ensures LexLe(le, a, c)
  {
    if a != [] && b != [] && c != [] && a[0] == b[0] && b[0] == c[0] {
      LexTransitive(le, a[1..], b[1..], c[1..]);
    }
  }

  lemma {:induction false} LexTotal<T(!new)>(le: (T, T) -> bool, a: seq<T>, b: seq<T>)
    requires TotalOrder(le)
    ensures LexLe(le, a, b) || LexLe(le, b, a)
  {
    if a != [] && b != [] && a[0] == b[0] {
      LexTotal(le, a[1..], b[1..]);
    }
  }

  predicate IntLe(a: int, b: int) { a <= b }

  /** Rust's order on byte strings: first difference decides, a proper prefix is smaller. */
  predicate StrLe(a: seq<int>, b: seq<int>) { LexLe(IntLe, a, b) }

  /** Rust's order on a tuple whose fields are encoded as integer sequences. */
  predicate KeyLe(a: seq<seq<int>>, b: seq<seq<int>>) { LexLe(StrLe, a, b) }

  /** `i` is where `a` and `b` first differ. */
  ghost predicate DifferFirstAt<T>(a: seq<T>, b: seq<T>, i: nat) {
    i < |a| && i < |b| && a[..i] == b[..i] && a[i] != b[i]
  }

  lemma {:induction false} LexMeaning<T>(le: (T, T) -> bool, a: seq<T>, b: seq<T>)
    ensures a <= b ==> LexLe(le, a, b)
    ensures b < a ==> !LexLe(le, a, b)
    ensures forall i: nat :: DifferFirstAt(a, b, i) ==> (LexLe(le, a, b) <==> le(a[i], b[i]))
  {
    if a != [] && b != [] && a[0] == b[0] {
      LexMeaning(le, a[1..], b[1..]);
      assert a == [a[0]] + a[1..] && b == [b[0]] + b[1..];
      forall i: nat | DifferFirstAt(a, b, i) ensures LexLe(le, a, b) <==> le(a[i], b[i]) {
        assert i > 0;
        assert a[..i][1..] == a[1..][..i - 1] && b[..i][1..] == b[1..][..i - 1];
        assert DifferFirstAt(a[1..], b[1..], i - 1);
      }
    } else {
      assert forall i: nat :: DifferFirstAt(a, b, i) && i > 0 ==> a[..i][0] == b[..i][0];
    }
  }

  /** What the string order says: a prefix comes first; otherwise the smaller code at the first difference. */
  lemma StrLeMeaning(a: seq<int>, b: seq<int>)
    ensures a <= b ==> StrLe(a, b)
    ensures b < a ==> !StrLe(a, b)
    ensures forall i: nat :: DifferFirstAt(a, b, i) ==> (StrLe(a, b) <==> a[i] < b[i])
  {
    LexMeaning(IntLe, a, b);
  }

  lemma StrLeTotalOrder()
    ensures TotalOrder(StrLe)
  {
    forall a ensures StrLe(a, a) { LexReflexive(IntLe, a); }
    forall a, b | StrLe(a, b) && StrLe(b, a) ensures a == b { LexAntisymmetric(IntLe, a, b); }
    forall a, b, c | StrLe(a, b) && StrLe(b, c) ensures StrLe(a, c) { LexTransitive(IntLe, a, b, c); }
    forall a, b ensures StrLe(a, b) || StrLe(b, a) { LexTotal(IntLe, a, b); }
  }

  lemma KeyLeTotalOrder()
    ensures TotalOrder(KeyLe)
  {
    StrLeTotalOrder();
    forall a ensures KeyLe(a, a) { LexReflexive(StrLe, a); }
    forall a, b | KeyLe(a, b) && KeyLe(b, a) ensures a == b { LexAntisymmetric(StrLe, a, b); }
    forall a, b, c | KeyLe(a, b) && KeyLe(b, c) ensures KeyLe(a, c) { LexTransitive(StrLe, a, b, c); }
    forall a, b ensures KeyLe(a, b) || KeyLe(b, a) { LexTotal(StrLe, a, b); }
  }

  // ---------- Stable sort ----------

  /** Inserts `x` in front of the first element whose key is not smaller. */
  function Insert<T, K>(x: T, s: seq<T>, key: T -> K, le: (K, K) -> bool): seq<T> {
    if s == [] || le(key(x), key(s[0])) then [x] + s
    else [s[0]] + Insert(x, s[1..], key, le)
  }

  /** The stable sort of `xs` by `key`. */
  function Sort<T, K>(xs: seq<T>, key: T -> K, le: (K, K) -> bool): seq<T> {
    if xs == [] then [] else Insert(xs[0], Sort(xs[1..], key, le), key, le)
  }

  ghost predicate SortedBy<T, K>(s: seq<T>, key: T -> K, le: (K, K) -> bool) {
    forall i, j :: 0 <= i < j < |s| ==> le(key(s[i]), key(s[j]))
  }

  /** The elements of `xs` whose key is `k`, in order. */
  function Class<T, K(==)>(xs: seq<T>, key: T -> K, k: K): seq<T> {
    if xs == [] then []
    else (if key(xs[0]) == k then [xs[0]] else []) + Class(xs[1..], key, k)
  }

  lemma {:induction false} InsertPermutes<T, K>(x: T, s: seq<T>, key: T -> K, le: (K, K) -> bool)
    ensures multiset(Insert(x, s, key, le)) == multiset{x} + multiset(s)
  {
    if s != [] && !le(key(x), key(s[0])) {
      InsertPermutes(x, s[1..], key, le);
      assert s == [s[0]] + s[1..];
    }
  }

  lemma {:induction false} InsertSorts<T, K(!new)>(x: T, s: seq<T>, key: T -> K, le: (K, K) -> bool)
    requires TotalOrder(le) && SortedBy(s, key, le)
    ensures SortedBy(Insert(x, s, key, le), key, le)
  {
    if s == [] {
    } else if le(key(x), key(s[0])) {
      forall j | 0 <= j < |s| ensures le(key(x), key(s[j])) {
        assert j == 0 || le(key(s[0]), key(s[j]));
      }
    } else {
      var rest := Insert(x, s[1..], key, le);
      InsertSorts(x, s[1..], key, le);
      InsertPermutes(x, s[1..], key, le);
      forall j | 0 <= j < |rest| ensures le(key(s[0]), key(rest[j])) {
        assert rest[j] in multiset(rest);
        assert rest[j] == x || rest[j] in s[1..];
      }
    }
  }

  lemma ClassCons<T, K>(x: T, s: seq<T>, key: T -> K, k: K)
    ensures Class([x] + s, key, k) == (if key(x) == k then [x] else []) + Class(s, key, k)
  {
    assert ([x] + s)[1..] == s;
  }

  /** Inserting past an element of another key keeps the class: `front` and `own` are not both filled. */
  lemma ClassSwap<T>(front: seq<T>, own: seq<T>, rest: seq<T>)
    requires front == [] || own == []
    ensures front + (own + rest) == own + (front + rest)
  {
  }

  lemma {:induction false} InsertClass<T, K(!new)>(x: T, s: seq<T>, key: T -> K, le: (K, K) -> bool, k: K)
    requires TotalOrder(le)
    ensures Class(Insert(x, s, key, le), key, k) == (if key(x) == k then [x] else []) + Class(s, key, k)
  {
    if s == [] || le(key(x), key(s[0])) {
      ClassCons(x, s, key, k);
    } else {
      InsertClass(x, s[1..], key, le, k);
      ClassCons(s[0], Insert(x, s[1..], key, le), key, k);
      assert key(s[0]) == k ==> key(x) != k;
      ClassSwap(if key(s[0]) == k then [s[0]] else [], if key(x) == k then [x] else [], Class(s[1..], key, k));
    }
  }

  /** Sort sorts, permutes, and is stable: it keeps the subsequence of every key class. */
  lemma {:induction false} SortFacts<T, K(!new)>(xs: seq<T>, key: T -> K, le: (K, K) -> bool)
    requires TotalOrder(le)
    ensures SortedBy(Sort(xs, key, le), key, le)
    ensures multiset(Sort(xs, key, le)) == multiset(xs)
    ensures forall k :: Class(Sort(xs, key, le), key, k) == Class(xs, key, k)
  {
    if xs != [] {
      SortFacts(xs[1..], key, le);
      InsertSorts(xs[0], Sort(xs[1..], key, le), key, le);
      InsertPermutes(xs[0], Sort(xs[1..], key, le), key, le);
      assert xs == [xs[0]] + xs[1..];
      forall k ensures Class(Sort(xs, key, le), key, k) == Class(xs, key, k) {
        InsertClass(xs[0], Sort(xs[1..], key, le), key, le, k);
      }
    }
  }

  lemma MembersOfSort<T(!new), K(!new)>(xs: seq<T>, key: T -> K, le: (K, K) -> bool)
    requires TotalOrder(le)
    ensures forall x :: x in Sort(xs, key, le) <==> x in xs
  {
    SortFacts(xs, key, le);
    forall x ensures x in Sort(xs, key, le) <==> x in xs {
      assert x in Sort(xs, key, le) <==> x in multiset(Sort(xs, key, le));
      assert x in xs <==> x in multiset(xs);
    }
  }

  lemma SameMembers<T(!new)>(xs: seq<T>, ys: seq<T>)
    requires multiset(xs) == multiset(ys)
    ensures forall x :: x in xs <==> x in ys
  {
    forall x ensures x in xs <==> x in ys {
      assert x in xs <==> x in multiset(xs);
      assert x in ys <==> x in multiset(ys);
    }
  }

  lemma {:induction false} ClassHasMember<T, K>(xs: seq<T>, key: T -> K, i: nat)
    requires i < |xs|
    ensures Class(xs, key, key(xs[i])) != []
  {
    if i > 0 { ClassHasMember(xs[1..], key, i - 1); }
  }

  lemma EmptyOrHasClass<T, K(!new)>(xs: seq<T>, key: T -> K)
    ensures xs == [] || exists k :: Class(xs, key, k) != []
  {
    if xs != [] { ClassHasMember(xs, key, 0); }
  }

  lemma {:induction false} ClassMembers<T(!new), K>(xs: seq<T>, key: T -> K, k: K)
    ensures forall x :: x in Class(xs, key, k) <==> x in xs && key(x) == k
  {
    if xs != [] {
      ClassMembers(xs[1..], key, k);
      assert xs == [xs[0]] + xs[1..];
    }
  }

  lemma NoMembers<T(!new)>(c: seq<T>)
    ensures c == [] || exists x :: x in c
  {
    assert c == [] || c[0] in c;
  }

  lemma ConcatAssoc<T>(a: seq<T>, b: seq<T>, c: seq<T>)
    ensures a + (b + c) == (a + b) + c
  {
  }

  lemma {:induction false} ClassConcat<T, K>(xs: seq<T>, ys: seq<T>, key: T -> K, k: K)
    ensures Class(xs + ys, key, k) == Class(xs, key, k) + Class(ys, key, k)
  {
    if xs == [] {
      assert xs + ys == ys;
    } else {
      ClassConcat(xs[1..], ys, key, k);
      assert xs + ys == [xs[0]] + (xs[1..] + ys);
      ClassCons(xs[0], xs[1..] + ys, key, k);
      ConcatAssoc(if key(xs[0]) == k then [xs[0]] else [], Class(xs[1..], key, k), Class(ys, key, k));
    }
  }

  /** A sorted sequence is determined by its key classes. */
  lemma {:induction false} SortedDeterminedByClasses<T(!new), K(!new)>(
    a: seq<T>, b: seq<T>, key: T -> K, le: (K, K) -> bool)
    requires TotalOrder(le) && SortedBy(a, key, le) && SortedBy(b, key, le)
    requires forall k :: Class(a, key, k) == Class(b, key, k)
    ensures a == b
  {
    if a == [] {
      EmptyOrHasClass(b, key);
    } else {
      ClassHasMember(a, key, 0);
      HeadNotLarger(b, a, key, le);
      ClassHasMember(b, key, 0);
      HeadNotLarger(a, b, key, le);
      assert Class(a, key, key(a[0]))[0] == a[0];
      assert Class(b, key, key(b[0]))[0] == b[0];
      forall k ensures Class(a[1..], key, k) == Class(b[1..], key, k) {
        var h := if key(a[0]) == k then [a[0]] else [];
        assert Class(a, key, k) == h + Class(a[1..], key, k);
        assert Class(b, key, k) == h + Class(b[1..], key, k);
        assert Class(a[1..], key, k) == Class(a, key, k)[|h|..];
        assert Class(b[1..], key, k) == Class(b, key, k)[|h|..];
      }
      SortedDeterminedByClasses(a[1..], b[1..], key, le);
    }
  }

  lemma HeadNotLarger<T(!new), K(!new)>(b: seq<T>, a: seq<T>, key: T -> K, le: (K, K) -> bool)
    requires TotalOrder(le) && SortedBy(b, key, le)
    requires a != [] && Class(a, key, key(a[0])) == Class(b, key, key(a[0]))
    ensures b != [] && le(key(b[0]), key(a[0]))
  {
    ClassHasMember(a, key, 0);
    var c := Class(b, key, key(a[0]));
    ClassMembers(b, key, key(a[0]));
    assert c[0] in c;
    var j :| 0 <= j < |b| && b[j] == c[0];
  }

  /** The stable sort of a sequence is determined by its key classes. */
  lemma SortDeterminedByClasses<T(!new), K(!new)>(xs: seq<T>, ys: seq<T>, key: T -> K, le: (K, K) -> bool)
    requires TotalOrder(le)
    requires forall k :: Class(xs, key, k) == Class(ys, key, k)
    ensures Sort(xs, key, le) == Sort(ys, key, le)
  {
    SortFacts(xs, key, le);
    SortFacts(ys, key, le);
    SortedDeterminedByClasses(Sort(xs, key, le), Sort(ys, key, le), key, le);
  }

  // ---------- Entries with distinct keys (the contents of a map) ----------

  ghost predicate DistinctKeys<T, K>(xs: seq<T>, key: T -> K) {
    forall i, j :: 0 <= i < j < |xs| ==> key(xs[i]) != key(xs[j])
  }

  lemma {:induction false} ClassOfDistinct<T(!new), K>(xs: seq<T>, key: T -> K, i: nat)
    requires DistinctKeys(xs, key) && i < |xs|
    ensures Class(xs, key, key(xs[i])) == [xs[i]]
  {
    if i == 0 {
      ClassMembers(xs[1..], key, key(xs[0]));
      NoMembers(Class(xs[1..], key, key(xs[0])));
      assert forall j :: 0 <= j < |xs[1..]| ==> key(xs[1..][j]) == key(xs[j + 1]) != key(xs[0]);
    } else {
      assert key(xs[0]) != key(xs[i]);
      ClassOfDistinct(xs[1..], key, i - 1);
    }
  }

  /** Any two enumerations of one map sort to the same list. */
  lemma SortEnumerations<T(!new), K(!new)>(xs: seq<T>, ys: seq<T>, key: T -> K, le: (K, K) -> bool)
    requires TotalOrder(le)
    requires DistinctKeys(xs, key) && DistinctKeys(ys, key)
    requires forall x :: x in xs <==> x in ys
    ensures Sort(xs, key, le) == Sort(ys, key, le)
  {
    forall k ensures Class(xs, key, k) == Class(ys, key, k) {
      ClassMembers(xs, key, k);
      ClassMembers(ys, key, k);
      if x :| x in xs && key(x) == k {
        var i :| 0 <= i < |xs| && xs[i] == x;
        var j :| 0 <= j < |ys| && ys[j] == x;
        ClassOfDistinct(xs, key, i);
        ClassOfDistinct(ys, key, j);
      } else {
        NoMembers(Class(xs, key, k));
        NoMembers(Class(ys, key, k));
      }
    }
    SortDeterminedByClasses(xs, ys, key, le);
  }

  /** Sorting entries with distinct keys gives strictly increasing keys and the same entries. */
  lemma SortDistinct<T(!new), K(!new)>(xs: seq<T>, key: T -> K, le: (K, K) -> bool)
    requires TotalOrder(le) && DistinctKeys(xs, key)
    ensures SortedBy(Sort(xs, key, le), key, le)
    ensures DistinctKeys(Sort(xs, key, le), key)
    ensures forall x :: x in Sort(xs, key, le) <==> x in xs
  {
    SortFacts(xs, key, le);
    MembersOfSort(xs, key, le);
    var s := Sort(xs, key, le);
    forall i, j | 0 <= i < j < |s| ensures key(s[i]) != key(s[j]) {
      if key(s[i]) == key(s[j]) {
        assert s[i] in xs;
        var m :| 0 <= m < |xs| && xs[m] == s[i];
        ClassOfDistinct(xs, key, m);
        ClassTwo(s, key, i, j);
      }
    }
  }

  lemma {:induction false} ClassTwo<T, K>(s: seq<T>, key: T -> K, i: nat, j: nat)
    requires i < j < |s| && key(s[i]) == key(s[j])
    ensures |Class(s, key, key(s[i]))| >= 2
  {
    if i == 0 {
      ClassHasMember(s[1..], key, j - 1);
    } else {
      ClassTwo(s[1..], key, i - 1, j - 1);
    }
  }
}
