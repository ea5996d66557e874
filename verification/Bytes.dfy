/** Bytes, big-endian integers, and a sequence found inside a longer one. */
module Bytes {
  type Byte = x: int | 0 <= x < 256

  function U16(b: seq<Byte>, p: nat): nat
    requires p + 2 <= |b|
  {
    b[p] as int * 0x100 + b[p + 1]
  }

  function U24(b: seq<Byte>, p: nat): nat
    requires p + 3 <= |b|
  {
    b[p] as int * 0x1_0000 + b[p + 1] as int * 0x100 + b[p + 2]
  }

  /** The low sixteen bits of `n`. */
  function PutU16(n: int): seq<Byte> {
    [n / 0x100 % 0x100, n % 0x100]
  }

  /** The low twenty-four bits of `n`. */
  function PutU24(n: int): seq<Byte> {
    [n / 0x1_0000 % 0x100, n / 0x100 % 0x100, n % 0x100]
  }

  ghost predicate ByteAt(b: seq<Byte>, pos: nat, s: seq<Byte>, i: nat) {
    i < |s| && pos + i < |b| && s[i] == b[pos + i]
  }

  /** `s` stands at position `pos` of `b`. */
  ghost predicate At(b: seq<Byte>, pos: nat, s: seq<Byte>) {
    pos + |s| <= |b| && forall i :: 0 <= i < |s| ==> ByteAt(b, pos, s, i)
  }

  lemma AtStart(s: seq<Byte>, rest: seq<Byte>)
    ensures At(s + rest, 0, s)
  {
    forall i | 0 <= i < |s| ensures ByteAt(s + rest, 0, s, i) { assert (s + rest)[i] == s[i]; }
  }

  lemma AtSplit(b: seq<Byte>, pos: nat, x: seq<Byte>, y: seq<Byte>)
    requires At(b, pos, x + y)
    ensures At(b, pos, x) && At(b, pos + |x|, y)
  {
    forall i | 0 <= i < |x| ensures ByteAt(b, pos, x, i) { assert ByteAt(b, pos, x + y, i); }
    var next := pos + |x|;
    forall i | 0 <= i < |y| ensures ByteAt(b, next, y, i) {
      assert ByteAt(b, pos, x + y, |x| + i);
    }
  }

  lemma AtSlice(b: seq<Byte>, pos: nat, s: seq<Byte>)
    requires At(b, pos, s)
    ensures b[pos..pos + |s|] == s
  {
    forall i | 0 <= i < |s| ensures b[pos + i] == s[i] { assert ByteAt(b, pos, s, i); }
  }

  lemma AtU8(b: seq<Byte>, pos: nat, v: Byte)
    requires At(b, pos, [v])
    ensures pos < |b| && b[pos] == v
  {
    assert ByteAt(b, pos, [v], 0);
  }

  lemma AtU16(b: seq<Byte>, pos: nat, n: nat)
    requires n < 0x1_0000 && At(b, pos, PutU16(n))
    ensures pos + 2 <= |b| && U16(b, pos) == n
  {
    assert ByteAt(b, pos, PutU16(n), 0) && ByteAt(b, pos, PutU16(n), 1);
  }

  lemma AtU24(b: seq<Byte>, pos: nat, n: nat)
    requires n < 0x100_0000 && At(b, pos, PutU24(n))
    ensures pos + 3 <= |b| && U24(b, pos) == n
  {
    assert ByteAt(b, pos, PutU24(n), 0) && ByteAt(b, pos, PutU24(n), 1) && ByteAt(b, pos, PutU24(n), 2);
  }
}
