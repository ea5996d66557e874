/** How much of a buffer the ClientHello parser needs, and whether the name lies inside the record. */
module PeekLength {
  import opened Text
  import opened Bytes
  import opened ClientHello

  /** Where the name stands that the scan of a name list returns. */
  ghost function NameIn(b: seq<Byte>, pos: nat, end: nat): (i: nat)
    requires ParseNames(b, pos, end).Some?
    ensures i >= pos + 3 && FoundAt(b, ParseNames(b, pos, end).value, i)
    decreases |b| - pos
  {
    if b[pos] == HOST_NAME then pos + 3 else NameIn(b, pos + 3 + U16(b, pos + 1), end)
  }

  ghost function NameInExtensions(b: seq<Byte>, pos: nat, end: nat): (i: nat)
    requires ParseExtensions(b, pos, end).Some?
    ensures i >= pos + 9 && FoundAt(b, ParseExtensions(b, pos, end).value, i)
    decreases if pos < end then end - pos else 0
  {
    if U16(b, pos) == SERVER_NAME then NameIn(b, pos + 6, pos + 6 + U16(b, pos + 4))
    else NameInExtensions(b, pos + 4 + U16(b, pos + 2), end)
  }

  /** Where the returned name stands. */
  ghost function NameStart(b: seq<Byte>): (i: nat)
    requires Parse(b).Some?
    ensures FoundAt(b, Parse(b).value, i)
  {
    var p := AfterCompression(b).value;
    NameInExtensions(b, p + 2, p + 2 + U16(b, p))
  }

  ghost function NameEnd(b: seq<Byte>): nat
    requires Parse(b).Some?
  {
    NameStart(b) + |Parse(b).value|
  }

  ghost predicate SameByte(b: seq<Byte>, m: seq<Byte>, i: nat) { i < |b| && i < |m| && m[i] == b[i] }

  /** `m` is no longer than `b` and has the same bytes from position `from` on. */
  ghost predicate Agrees(b: seq<Byte>, m: seq<Byte>, from: nat) {
    |m| <= |b| && forall i :: from <= i < |m| ==> SameByte(b, m, i)
  }

  lemma AgreeU16(b: seq<Byte>, m: seq<Byte>, from: nat, p: nat)
    requires Agrees(b, m, from) && from <= p && p + 2 <= |m|
    ensures m[p] == b[p] && U16(m, p) == U16(b, p)
  {
    assert SameByte(b, m, p) && SameByte(b, m, p + 1);
  }

  lemma AgreeSlice(b: seq<Byte>, m: seq<Byte>, from: nat, p: nat, q: nat)
    requires Agrees(b, m, from) && from <= p <= q <= |m|
    ensures m[p..q] == b[p..q]
  {
    forall i | p <= i < q ensures m[i] == b[i] { assert SameByte(b, m, i); }
  }

  lemma {:induction false} NamesNeed(b: seq<Byte>, m: seq<Byte>, pos: nat, end: nat)
    requires ParseNames(b, pos, end).Some? && Agrees(b, m, pos)
    ensures ParseNames(m, pos, end).Some? <==> NameIn(b, pos, end) + |ParseNames(b, pos, end).value| <= |m|
    decreases |b| - pos
  {
    if pos + 3 <= |m| {
      AgreeU16(b, m, pos, pos);
      AgreeU16(b, m, pos, pos + 1);
      var next := pos + 3 + U16(b, pos + 1);
      if next <= |m| {
        if b[pos] == HOST_NAME { AgreeSlice(b, m, pos, pos + 3, next); } else { NamesNeed(b, m, next, end); }
      }
    }
  }

  lemma ServerNameList(b: seq<Byte>, pos: nat, end: nat)
    requires pos < end && pos + 4 <= |b| && U16(b, pos) == SERVER_NAME
    ensures ParseExtensions(b, pos, end) ==
            if pos + 6 <= |b| then ParseNames(b, pos + 6, pos + 6 + U16(b, pos + 4)) else None
  {
  }

  lemma ServerNameNeeds(b: seq<Byte>, m: seq<Byte>, pos: nat, end: nat)
    requires ParseExtensions(b, pos, end).Some? && Agrees(b, m, pos) && U16(b, pos) == SERVER_NAME
    ensures ParseExtensions(m, pos, end).Some? ==> pos + 6 <= |m|
    ensures pos + 6 <= |m| ==> ParseExtensions(m, pos, end) == ParseNames(m, pos + 6, pos + 6 + U16(b, pos + 4))
  {
    if pos + 4 <= |m| {
      AgreeU16(b, m, pos, pos);
      ServerNameList(m, pos, end);
      if pos + 6 <= |m| { AgreeU16(b, m, pos, pos + 4); }
    }
  }

  lemma SkippedExtension(b: seq<Byte>, m: seq<Byte>, pos: nat, end: nat)
    requires ParseExtensions(b, pos, end).Some? && Agrees(b, m, pos) && U16(b, pos) != SERVER_NAME
    ensures ParseExtensions(m, pos, end) ==
            if pos + 4 <= |m| then ParseExtensions(m, pos + 4 + U16(b, pos + 2), end) else None
  {
    if pos + 4 <= |m| {
      AgreeU16(b, m, pos, pos);
      AgreeU16(b, m, pos, pos + 2);
    }
  }

  /** The scan of `m` from `pos` finds a name exactly when the name found in `b` is all there. */
  ghost predicate NeedsName(b: seq<Byte>, m: seq<Byte>, pos: nat, end: nat)
    requires ParseExtensions(b, pos, end).Some?
  {
    ParseExtensions(m, pos, end).Some? <==>
    NameInExtensions(b, pos, end) + |ParseExtensions(b, pos, end).value| <= |m|
  }

  lemma ServerNameDecides(b: seq<Byte>, m: seq<Byte>, pos: nat, end: nat)
    requires ParseExtensions(b, pos, end).Some? && Agrees(b, m, pos) && U16(b, pos) == SERVER_NAME
    ensures NeedsName(b, m, pos, end)
  {
    ServerNameNeeds(b, m, pos, end);
    NamesNeed(b, m, pos + 6, pos + 6 + U16(b, pos + 4));
  }

  lemma SkippedDecides(b: seq<Byte>, m: seq<Byte>, pos: nat, end: nat, next: nat)
    requires ParseExtensions(b, pos, end).Some? && Agrees(b, m, pos) && U16(b, pos) != SERVER_NAME
    requires next == pos + 4 + U16(b, pos + 2) && NeedsName(b, m, next, end)
    ensures NeedsName(b, m, pos, end)
  {
    SkippedExtension(b, m, pos, end);
  }

  lemma {:induction false} ExtensionsNeed(b: seq<Byte>, m: seq<Byte>, pos: nat, end: nat)
    requires ParseExtensions(b, pos, end).Some? && Agrees(b, m, pos)
    ensures NeedsName(b, m, pos, end)
    decreases if pos < end then end - pos else 0
  {
    if U16(b, pos) == SERVER_NAME {
      ServerNameDecides(b, m, pos, end);
    } else {
      var next := pos + 4 + U16(b, pos + 2);
      ExtensionsNeed(b, m, next, end);
      SkippedDecides(b, m, pos, end, next);
    }
  }

  lemma FixedPartNeeds(b: seq<Byte>, m: seq<Byte>)
    requires AfterCompression(b).Some? && Agrees(b, m, 9)
    ensures AfterCompression(m) == if AfterCompression(b).value <= |m| then AfterCompression(b) else None
  {
    if 45 <= |m| {
      AgreeU16(b, m, 9, 43);
      var p1: nat := 44 + b[43] as int;
      if p1 + 2 <= |m| {
        AgreeU16(b, m, 9, p1);
        var p2 := p1 + 2 + U16(b, p1);
        if p2 < |m| { assert SameByte(b, m, p2); }
      }
    } else if 44 <= |m| {
      assert SameByte(b, m, 43);
    }
  }

  /** The header fields fit the buffer. */
  ghost predicate HeaderFits(m: seq<Byte>) {
    |m| >= 9 && m[0] == HANDSHAKE && m[5] == CLIENT_HELLO && 5 + U16(m, 3) <= |m| && 9 + U24(m, 6) <= |m|
  }

  /** The extensions block of a parsed buffer, from `p`. */
  lemma ParsedBlock(b: seq<Byte>, p: nat, end: nat)
    requires Parse(b).Some? && AfterCompression(b) == Some(p)
    ensures p + 2 <= |b|
    ensures end == p + 2 + U16(b, p) ==>
              && ParseExtensions(b, p + 2, end).Some?
              && NameEnd(b) == NameInExtensions(b, p + 2, end) + |ParseExtensions(b, p + 2, end).value|
  {
  }

  lemma BlockNeeds(b: seq<Byte>, m: seq<Byte>, q: nat, end: nat, n: nat)
    requires ParseExtensions(b, q, end).Some? && Agrees(b, m, 9) && 9 <= q
    requires n == NameInExtensions(b, q, end) + |ParseExtensions(b, q, end).value|
    ensures n > q
    ensures ParseExtensions(m, q, end).Some? <==> n <= |m|
  {
    ExtensionsNeed(b, m, q, end);
  }

  /** A buffer with fitting header fields, whose block from `p` to `end` yields a name exactly if `n` bytes
      are there. */
  lemma TailFinds(m: seq<Byte>, p: nat, end: nat, n: nat)
    requires HeaderFits(m) && AfterCompression(m) == (if p <= |m| then Some(p) else None)
    requires p + 2 <= |m| ==> end == p + 2 + U16(m, p)
    requires p + 2 < n && (ParseExtensions(m, p + 2, end).Some? <==> n <= |m|)
    requires p < 9 + U24(m, 6) || n > |m|
    ensures Parse(m).Some? <==> n <= |m|
  {
  }

  lemma BlockDecides(b: seq<Byte>, m: seq<Byte>, p: nat, end: nat, n: nat)
    requires Agrees(b, m, 9) && HeaderFits(m) && AfterCompression(b) == Some(p)
    requires p + 2 <= |b| && end == p + 2 + U16(b, p)
    requires p + 2 < n && (ParseExtensions(m, p + 2, end).Some? <==> n <= |m|)
    requires p < 9 + U24(m, 6) || n > |m|
    ensures Parse(m).Some? <==> n <= |m|
  {
    FixedPartNeeds(b, m);
    if p + 2 <= |m| { AgreeU16(b, m, 9, p); }
    TailFinds(m, p, end, n);
  }

  /** Behind the header, `m` finds the name exactly when it is all there and its message length reaches the
      extensions. */
  lemma BodyNeeds(b: seq<Byte>, m: seq<Byte>)
    requires Parse(b).Some? && Agrees(b, m, 9) && HeaderFits(m)
    requires AfterCompression(b).value < 9 + U24(m, 6) || NameEnd(b) > |m|
    ensures Parse(m).Some? <==> NameEnd(b) <= |m|
  {
    var p := AfterCompression(b).value;
    var end := p + 2 + U16(b, p);
    ParsedBlock(b, p, end);
    BlockNeeds(b, m, p + 2, end, NameEnd(b));
    BlockDecides(b, m, p, end, NameEnd(b));
  }

  lemma PrefixAgrees(b: seq<Byte>, k: nat)
    requires k <= |b|
    ensures Agrees(b, b[..k], 0)
  {
    forall i | 0 <= i < k ensures SameByte(b, b[..k], i) { }
  }

  /** Exactly how long a peek must be: it finds the name if and only if it reaches the end of the record, of
      the message, and of the name. */
  lemma PeekFindsIff(b: seq<Byte>, k: nat)
    requires Parse(b).Some? && k <= |b|
    ensures Parse(b[..k]) == Parse(b) <==> 5 + U16(b, 3) <= k && 9 + U24(b, 6) <= k && NameEnd(b) <= k
  {
    var m := b[..k];
    PeekNeverMisleads(b, k);
    if k >= 9 {
      PrefixAgrees(b, k);
      assert U16(m, 3) == U16(b, 3) && U24(m, 6) == U24(b, 6);
      assert Agrees(b, m, 9);
      if 5 + U16(b, 3) <= k && 9 + U24(b, 6) <= k { BodyNeeds(b, m); }
    }
  }

  /** The record by itself, as if it held one whole handshake message. */
  ghost function RecordAlone(b: seq<Byte>): (m: seq<Byte>)
    requires |b| >= 9 && 4 <= U16(b, 3) && 5 + U16(b, 3) <= |b|
    ensures |m| == 5 + U16(b, 3)
  {
    b[..6] + (PutU24(U16(b, 3) - 4) + b[9..5 + U16(b, 3)])
  }

  lemma RecordAloneHeader(b: seq<Byte>)
    requires |b| >= 9 && 4 <= U16(b, 3) && 5 + U16(b, 3) <= |b|
    ensures var m := RecordAlone(b);
            m[0] == b[0] && m[5] == b[5] && U16(m, 3) == U16(b, 3) && U24(m, 6) == U16(b, 3) - 4 && Agrees(b, m, 9)
  {
    var m, n := RecordAlone(b), PutU24(U16(b, 3) - 4);
    assert forall i :: 0 <= i < 6 ==> m[i] == b[i];
    assert m[6] == n[0] && m[7] == n[1] && m[8] == n[2];
    forall i | 9 <= i < |m| ensures SameByte(b, m, i) { }
  }

  /** The code does not keep the name inside the record.  It is inside if and only if the record by itself
      parses. */
  lemma NameInsideRecordIff(b: seq<Byte>)
    requires Parse(b).Some?
    ensures NameEnd(b) <= 5 + U16(b, 3) <==> U16(b, 3) >= 4 && Parse(RecordAlone(b)).Some?
  {
    if U16(b, 3) >= 4 {
      RecordAloneHeader(b);
      BodyNeeds(b, RecordAlone(b));
    }
  }

  // ---------- A guard on the lengths ----------

  /** The host name entry that is returned ends inside its list. */
  ghost predicate NestedNames(b: seq<Byte>, pos: nat, end: nat)
    requires ParseNames(b, pos, end).Some?
    decreases |b| - pos
  {
    var next := pos + 3 + U16(b, pos + 1);
    if b[pos] == HOST_NAME then next <= end else NestedNames(b, next, end)
  }

  /** The server name list ends inside the extensions block, and the entry inside the list. */
  ghost predicate NestedExtensions(b: seq<Byte>, pos: nat, end: nat)
    requires ParseExtensions(b, pos, end).Some?
    decreases if pos < end then end - pos else 0
  {
    if U16(b, pos) == SERVER_NAME then
      var listEnd := pos + 6 + U16(b, pos + 4);
      listEnd <= end && NestedNames(b, pos + 6, listEnd)
    else NestedExtensions(b, pos + 4 + U16(b, pos + 2), end)
  }

  /** Where the extensions block of a parsed buffer ends. */
  ghost function BlockEnd(b: seq<Byte>): nat
    requires Parse(b).Some?
  {
    var p := AfterCompression(b).value;
    p + 2 + U16(b, p)
  }

  ghost predicate Nested(b: seq<Byte>)
    requires Parse(b).Some?
  {
    NestedExtensions(b, AfterCompression(b).value + 2, BlockEnd(b))
  }

  lemma {:induction false} NestedNameEnds(b: seq<Byte>, pos: nat, end: nat)
    requires ParseNames(b, pos, end).Some? && NestedNames(b, pos, end)
    ensures NameIn(b, pos, end) + |ParseNames(b, pos, end).value| <= end
    decreases |b| - pos
  {
    if b[pos] != HOST_NAME { NestedNameEnds(b, pos + 3 + U16(b, pos + 1), end); }
  }

  lemma {:induction false} NestedBlockEnds(b: seq<Byte>, pos: nat, end: nat)
    requires ParseExtensions(b, pos, end).Some? && NestedExtensions(b, pos, end)
    ensures NameInExtensions(b, pos, end) + |ParseExtensions(b, pos, end).value| <= end
    decreases if pos < end then end - pos else 0
  {
    if U16(b, pos) == SERVER_NAME {
      NestedNameEnds(b, pos + 6, pos + 6 + U16(b, pos + 4));
    } else {
      NestedBlockEnds(b, pos + 4 + U16(b, pos + 2), end);
    }
  }

  /** The lengths decide: a name is inside the record if its entry lies inside its list, the list inside the
      extensions block, and the block inside the record. */
  lemma NestedInsideRecord(b: seq<Byte>)
    requires Parse(b).Some? && Nested(b) && BlockEnd(b) <= 5 + U16(b, 3)
    ensures NameEnd(b) <= 5 + U16(b, 3)
  {
    NestedBlockEnds(b, AfterCompression(b).value + 2, BlockEnd(b));
  }

  /** Whatever follows it, a well-formed ClientHello record contains the name it announces. */
  lemma WellFormedInsideRecord(h: Hello, trailing: seq<Byte>)
    requires HelloOk(h) && 4 + |EncodeBody(h)| < 0x1_0000 && AnnouncedName(h).Some?
    ensures var b := EncodeRecord(h) + trailing;
            Parse(b).Some? && 5 + U16(b, 3) == |EncodeRecord(h)| && NameEnd(b) <= |EncodeRecord(h)|
  {
    var record := EncodeRecord(h);
    var b := record + trailing;
    ParseRoundTrip(h, []);
    assert record + [] == record;
    ParseRoundTrip(h, trailing);
    assert b[..|record|] == record;
    AtStart(record, trailing);
    RecordHeader(b, h);
    PeekFindsIff(b, |record|);
  }

  // ---------- Names outside the record ----------

  /** A buffer that holds a ClientHello for the name "a", with any record length and any length of the
      extensions block. */
  ghost function StrayHello(record: Byte, block: Byte): (b: seq<Byte>)
    ensures |b| == 59
  {
    [22, 3, 1, 0, record, 1, 0, 0, 50]
    + (seq(38, i => 0) + [0, block, 0, 0, 0, 0, 0, 1, 0, 0, 1, 97])
  }

  lemma StrayBytes(record: Byte, block: Byte)
    ensures var b := StrayHello(record, block);
            && b[0] == 22 && U16(b, 3) == record && b[5] == 1 && U24(b, 6) == 50
            && b[43] == 0 && U16(b, 44) == 0 && b[46] == 0 && U16(b, 47) == block
            && U16(b, 49) == 0 && U16(b, 53) == 1 && b[55] == 0 && U16(b, 56) == 1 && b[58..59] == [97]
  {
  }

  /** Such a buffer yields the name although it ends at byte 59, wherever the record and the block end.  With
      6 bytes of block and 50 of record, even the block is inside the record; the list is not inside it. */
  lemma NameOutsideRecord(record: Byte, block: Byte)
    requires record <= 53 && 0 < block
    ensures var b := StrayHello(record, block);
            && Parse(b) == Some([97]) && U16(b, 3) == record
            && BlockEnd(b) == 49 + block && NameEnd(b) == 59 > 5 + record
  {
    var b := StrayHello(record, block);
    StrayBytes(record, block);
    assert Utf8Valid([97]) by { assert [97][1..] == []; }
    assert ParseNames(b, 55, 56) == Some([97]) && NameIn(b, 55, 56) == 58;
    assert ParseExtensions(b, 49, 49 + block) == Some([97]) && NameInExtensions(b, 49, 49 + block) == 58;
    assert AfterCompression(b) == Some(47);
  }
}
