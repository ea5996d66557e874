/** Extraction of the server name from a TLS ClientHello: the record of section 5.1 and the message
    of section 4.1.2 of RFC 8446, the server_name extension of section 3 of RFC 6066. */
module ClientHello {
  import opened Text
  import opened Bytes

  const HANDSHAKE: Byte := 22
  const CLIENT_HELLO: Byte := 1
  const SERVER_NAME := 0
  const HOST_NAME: Byte := 0
  const MAX_HOSTNAME_LEN := 253

  predicate Continuation(b: seq<Byte>, from: nat, to: nat) {
    to <= |b| && forall i :: from <= i < to ==> 0x80 <= b[i] <= 0xBF
  }

  /** How many bytes the UTF-8 character takes that `b` begins with; 0 if it begins with none. */
  function Utf8Head(b: seq<Byte>): (n: nat)
    requires b != []
    ensures n <= |b|
  {
    if b[0] < 0x80 then 1
    else if 0xC2 <= b[0] <= 0xDF && Continuation(b, 1, 2) then 2
    else if && 0xE0 <= b[0] <= 0xEF && Continuation(b, 1, 3)
            && (b[0] == 0xE0 ==> b[1] >= 0xA0) && (b[0] == 0xED ==> b[1] <= 0x9F) then 3
    else if && 0xF0 <= b[0] <= 0xF4 && Continuation(b, 1, 4)
            && (b[0] == 0xF0 ==> b[1] >= 0x90) && (b[0] == 0xF4 ==> b[1] <= 0x8F) then 4
    else 0
  }

  /** `std::str::from_utf8` accepts the bytes. */
  predicate Utf8Valid(b: seq<Byte>) {
    b == [] || (Utf8Head(b) > 0 && Utf8Valid(b[Utf8Head(b)..]))
  }

  // ---------- What the parser computes ----------

  function ParseNames(b: seq<Byte>, pos: nat, end: nat): Option<seq<Byte>>
    decreases |b| - pos
  {
    if pos >= end || pos + 3 > |b| then None
    else
      var len := U16(b, pos + 1);
      if b[pos] == HOST_NAME then
        if len > MAX_HOSTNAME_LEN || pos + 3 + len > |b| || !Utf8Valid(b[pos + 3..pos + 3 + len]) then None
        else Some(b[pos + 3..pos + 3 + len])
      else if pos + 3 + len > |b| then None
      else ParseNames(b, pos + 3 + len, end)
  }

  function ParseExtensions(b: seq<Byte>, pos: nat, end: nat): Option<seq<Byte>>
    decreases if pos < end then end - pos else 0
  {
    if pos >= end || pos + 4 > |b| then None
    else if U16(b, pos) == SERVER_NAME then
      if pos + 6 > |b| then None
      else ParseNames(b, pos + 6, pos + 6 + U16(b, pos + 4))
    else ParseExtensions(b, pos + 4 + U16(b, pos + 2), end)
  }

  /** The position just after the compression methods, if the buffer reaches it. */
  function AfterCompression(b: seq<Byte>): Option<nat> {
    if 44 > |b| then None
    else
      var p1: nat := 44 + b[43] as int;
      if p1 + 2 > |b| then None
      else
        var p2 := p1 + 2 + U16(b, p1);
        if p2 + 1 > |b| then None
        else
          var p3: nat := p2 + 1 + b[p2];
          if p3 > |b| then None else Some(p3)
  }

  function Parse(b: seq<Byte>): Option<seq<Byte>> {
    if |b| < 9 || b[0] != HANDSHAKE || 5 + U16(b, 3) > |b| || b[5] != CLIENT_HELLO || 9 + U24(b, 6) > |b| then None
    else
      match AfterCompression(b)
      case None => None
      case Some(p) =>
        if p >= 9 + U24(b, 6) || p + 2 > |b| then None
        else ParseExtensions(b, p + 2, p + 2 + U16(b, p))
  }

  // ---------- The cursor parser ----------

  class Cursor {
    const buf: seq<Byte>
    var pos: nat

    constructor (buf: seq<Byte>)
      ensures this.buf == buf && pos == 0
    {
      this.buf, pos := buf, 0;
    }

    method ReadU8() returns (v: Option<Byte>)
      modifies this
      ensures if old(pos) >= |buf| then v == None && pos == old(pos)
              else v == Some(buf[old(pos)]) && pos == old(pos) + 1
    {
      if pos >= |buf| { return None; }
      v := Some(buf[pos]);
      pos := pos + 1;
    }

    method ReadU16() returns (v: Option<nat>)
      modifies this
      ensures if old(pos) + 2 > |buf| then v == None && pos == old(pos)
              else v == Some(U16(buf, old(pos))) && pos == old(pos) + 2
    {
      if pos + 2 > |buf| { return None; }
      v := Some(U16(buf, pos));
      pos := pos + 2;
    }

    method ReadU24() returns (v: Option<nat>)
      modifies this
      ensures if old(pos) + 3 > |buf| then v == None && pos == old(pos)
              else v == Some(U24(buf, old(pos))) && pos == old(pos) + 3
    {
      if pos + 3 > |buf| { return None; }
      v := Some(U24(buf, pos));
      pos := pos + 3;
    }

    method Skip(n: nat) returns (v: Option<()>)
      modifies this
      ensures if old(pos) + n > |buf| then v == None && pos == old(pos)
              else v == Some(()) && pos == old(pos) + n
    {
      if pos + n > |buf| { return None; }
      pos := pos + n;
      v := Some(());
    }

    /** The inner loop: the server name list. */
    method ScanNames(end: nat) returns (name: Option<seq<Byte>>)
      modifies this
      ensures name == ParseNames(buf, old(pos), end)
    {
      while pos < end
        invariant ParseNames(buf, pos, end) == ParseNames(buf, old(pos), end)
        decreases |buf| - pos
      {
        var kind :- ReadU8();
        var len :- ReadU16();
        if kind == HOST_NAME {
          if len > MAX_HOSTNAME_LEN { return None; }
          var nameEnd := pos + len;
          if nameEnd > |buf| { return None; }
          if !Utf8Valid(buf[pos..nameEnd]) { return None; }
          return Some(buf[pos..nameEnd]);
        } else {
          var _ :- Skip(len);
        }
      }
      return None;
    }

    /** The outer loop: the extensions block. */
    method ScanExtensions(end: nat) returns (name: Option<seq<Byte>>)
      modifies this
      ensures name == ParseExtensions(buf, old(pos), end)
    {
      while pos < end
        invariant ParseExtensions(buf, pos, end) == ParseExtensions(buf, old(pos), end)
        decreases end - pos
      {
        var kind :- ReadU16();
        var len :- ReadU16();
        var start := pos;
        if kind == SERVER_NAME {
          var listLen :- ReadU16();
          name := ScanNames(pos + listLen);
          return;
        } else {
          pos := start + len;
        }
      }
      return None;
    }

    /** Skips session id, cipher suites and compression methods. */
    method SkipFixedPart() returns (v: Option<()>)
      requires pos == 9
      modifies this
      ensures v.Some? <==> AfterCompression(buf).Some?
      ensures v.Some? ==> pos == AfterCompression(buf).value
    {
      var _ :- Skip(2);
      var _ :- Skip(32);
      var sessionLen :- ReadU8();
      var _ :- Skip(sessionLen);
      var cipherLen :- ReadU16();
      var _ :- Skip(cipherLen);
      var compressionLen :- ReadU8();
      v := Skip(compressionLen);
    }
  }

  method ExtractSni(buf: seq<Byte>) returns (name: Option<seq<Byte>>)
    ensures name == Parse(buf)
  {
    var c := new Cursor(buf);
    var contentType :- c.ReadU8();
    if contentType != HANDSHAKE { return None; }
    var _ :- c.Skip(2);
    var recordLen :- c.ReadU16();
    if c.pos + recordLen > |buf| { return None; }
    var handshakeType :- c.ReadU8();
    if handshakeType != CLIENT_HELLO { return None; }
    var handshakeLen :- c.ReadU24();
    var handshakeStart := c.pos;
    if handshakeStart + handshakeLen > |buf| { return None; }
    var _ :- c.SkipFixedPart();
    if c.pos >= handshakeStart + handshakeLen { return None; }
    var extensionsLen :- c.ReadU16();
    name := c.ScanExtensions(c.pos + extensionsLen);
  }

  // ---------- Prefix stability ----------

  lemma {:induction false} NamesStable(b: seq<Byte>, more: seq<Byte>, pos: nat, end: nat)
    requires ParseNames(b, pos, end).Some?
    ensures ParseNames(b + more, pos, end) == ParseNames(b, pos, end)
    decreases |b| - pos
  {
    var len := U16(b, pos + 1);
    if b[pos] == HOST_NAME {
      assert (b + more)[pos + 3..pos + 3 + len] == b[pos + 3..pos + 3 + len];
    } else {
      NamesStable(b, more, pos + 3 + len, end);
    }
  }

  lemma {:induction false} ExtensionsStable(b: seq<Byte>, more: seq<Byte>, pos: nat, end: nat)
    requires ParseExtensions(b, pos, end).Some?
    ensures ParseExtensions(b + more, pos, end) == ParseExtensions(b, pos, end)
    decreases if pos < end then end - pos else 0
  {
    if U16(b, pos) == SERVER_NAME {
      NamesStable(b, more, pos + 6, pos + 6 + U16(b, pos + 4));
    } else {
      ExtensionsStable(b, more, pos + 4 + U16(b, pos + 2), end);
    }
  }

  /** A name found in a buffer is still found, unchanged, after appending any bytes. */
  lemma ParseStable(b: seq<Byte>, more: seq<Byte>)
    requires Parse(b).Some?
    ensures Parse(b + more) == Parse(b)
  {
    var p := AfterCompression(b).value;
    ExtensionsStable(b, more, p + 2, p + 2 + U16(b, p));
  }

  /** A short peek finds either nothing or the same name as the whole input. */
  lemma PeekNeverMisleads(b: seq<Byte>, n: nat)
    requires n <= |b|
    ensures Parse(b[..n]) == None || Parse(b[..n]) == Parse(b)
  {
    if Parse(b[..n]).Some? {
      ParseStable(b[..n], b[n..]);
      assert b[..n] + b[n..] == b;
    }
  }

  // ---------- Soundness ----------

  /** `name` sits in the buffer behind type 0 and its own two-byte length. */
  ghost predicate FoundAt(b: seq<Byte>, name: seq<Byte>, i: nat) {
    && 3 <= i && i + |name| <= |b|
    && b[i..i + |name|] == name
    && b[i - 3] == 0
    && U16(b, i - 2) == |name|
  }

  lemma {:induction false} NamesSound(b: seq<Byte>, pos: nat, end: nat)
    requires ParseNames(b, pos, end).Some?
    ensures var name := ParseNames(b, pos, end).value;
            |name| <= MAX_HOSTNAME_LEN && Utf8Valid(name) && exists i :: FoundAt(b, name, i)
    decreases |b| - pos
  {
    var len := U16(b, pos + 1);
    if b[pos] == HOST_NAME {
      assert FoundAt(b, b[pos + 3..pos + 3 + len], pos + 3);
    } else {
      NamesSound(b, pos + 3 + len, end);
    }
  }

  lemma {:induction false} ExtensionsSound(b: seq<Byte>, pos: nat, end: nat)
    requires ParseExtensions(b, pos, end).Some?
    ensures var name := ParseExtensions(b, pos, end).value;
            |name| <= MAX_HOSTNAME_LEN && Utf8Valid(name) && exists i :: FoundAt(b, name, i)
    decreases if pos < end then end - pos else 0
  {
    if U16(b, pos) == SERVER_NAME {
      NamesSound(b, pos + 6, pos + 6 + U16(b, pos + 4));
    } else {
      ExtensionsSound(b, pos + 4 + U16(b, pos + 2), end);
    }
  }

  /** On every byte string: a returned name is at most 253 bytes of valid UTF-8, a slice of the
      buffer preceded by type 0 and its own length; and the record announced is all in the buffer. */
  lemma ParseSound(b: seq<Byte>)
    requires Parse(b).Some?
    ensures var name := Parse(b).value;
            && |name| <= 253 && Utf8Valid(name) && (exists i :: FoundAt(b, name, i))
            && b[0] == 22 && b[5] == 1 && 5 + U16(b, 3) <= |b|
  {
    var p := AfterCompression(b).value;
    ExtensionsSound(b, p + 2, p + 2 + U16(b, p));
  }

  // ---------- Serialization ----------

  datatype NameEntry = NameEntry(kind: Byte, name: seq<Byte>)

  datatype Extension =
    | ServerName(names: seq<NameEntry>)
    | Other(kind: nat, data: seq<Byte>)

  datatype Hello = Hello(
    version: seq<Byte>, random: seq<Byte>, sessionId: seq<Byte>, ciphers: seq<Byte>,
    compression: seq<Byte>, extensions: Option<seq<Extension>>)

  function NamesLen(names: seq<NameEntry>): nat {
    if names == [] then 0 else 3 + |names[0].name| + NamesLen(names[1..])
  }

  /** One entry of a name list in front of the bytes `tail`. */
  function EntryBytes(kind: Byte, name: seq<Byte>, tail: seq<Byte>): seq<Byte> {
    [kind] + (PutU16(|name|) + (name + tail))
  }

  function EncodeNames(names: seq<NameEntry>): (r: seq<Byte>)
    requires NamesLen(names) < 0x1_0000
    ensures |r| == NamesLen(names)
  {
    if names == [] then []
    else EntryBytes(names[0].kind, names[0].name, EncodeNames(names[1..]))
  }

  function ServerNameBytes(n: nat, list: seq<Byte>): seq<Byte> {
    PutU16(0) + (PutU16(2 + n) + (PutU16(n) + list))
  }

  function OtherBytes(kind: nat, data: seq<Byte>): seq<Byte> {
    PutU16(kind) + (PutU16(|data|) + data)
  }

  function ExtensionLen(x: Extension): nat {
    match x
    case ServerName(names) => 6 + NamesLen(names)
    case Other(_, data) => 4 + |data|
  }

  predicate ExtensionOk(x: Extension) {
    ExtensionLen(x) < 0x1_0000 && (x.Other? ==> 0 < x.kind < 0x1_0000)
  }

  function EncodeExtension(x: Extension): (r: seq<Byte>)
    requires ExtensionOk(x)
    ensures |r| == ExtensionLen(x)
  {
    match x
    case ServerName(names) => ServerNameBytes(NamesLen(names), EncodeNames(names))
    case Other(kind, data) => OtherBytes(kind, data)
  }

  function EncodeExtensions(xs: seq<Extension>): seq<Byte>
    requires forall x :: x in xs ==> ExtensionOk(x)
  {
    if xs == [] then [] else EncodeExtension(xs[0]) + EncodeExtensions(xs[1..])
  }

  predicate HelloOk(h: Hello) {
    && |h.version| == 2 && |h.random| == 32
    && |h.sessionId| < 0x100 && |h.ciphers| < 0x1_0000 && |h.compression| < 0x100
    && (h.extensions.Some? ==>
          && (forall x :: x in h.extensions.value ==> ExtensionOk(x))
          && |EncodeExtensions(h.extensions.value)| < 0x1_0000)
  }

  function EncodeBody(h: Hello): seq<Byte>
    requires HelloOk(h)
  {
    h.version + (h.random + ([|h.sessionId|] + (h.sessionId + (PutU16(|h.ciphers|) + (h.ciphers
    + ([|h.compression|] + (h.compression + EncodeBlock(h))))))))
  }

  function EncodeBlock(h: Hello): seq<Byte>
    requires HelloOk(h)
  {
    match h.extensions
    case None => []
    case Some(xs) => PutU16(|EncodeExtensions(xs)|) + EncodeExtensions(xs)
  }

  /** One handshake record carrying the whole ClientHello. */
  function EncodeRecord(h: Hello): seq<Byte>
    requires HelloOk(h) && 4 + |EncodeBody(h)| < 0x1_0000
  {
    [22, 3, 1] + (PutU16(4 + |EncodeBody(h)|) + ([1] + (PutU24(|EncodeBody(h)|) + EncodeBody(h))))
  }

  /** A host name of at most 253 bytes of valid UTF-8; nothing otherwise. */
  function Acceptable(name: seq<Byte>): Option<seq<Byte>> {
    if |name| <= 253 && Utf8Valid(name) then Some(name) else None
  }

  /** The host name a ClientHello announces: the first host_name entry of the first server_name
      extension, when it is acceptable. */
  function FirstHost(names: seq<NameEntry>): Option<seq<Byte>> {
    if names == [] then None
    else if names[0].kind == 0 then Acceptable(names[0].name)
    else FirstHost(names[1..])
  }

  function FirstServerName(xs: seq<Extension>): Option<seq<Byte>> {
    if xs == [] then None
    else if xs[0].ServerName? then FirstHost(xs[0].names)
    else FirstServerName(xs[1..])
  }

  function AnnouncedName(h: Hello): Option<seq<Byte>> {
    match h.extensions
    case None => None
    case Some(xs) => FirstServerName(xs)
  }

  // ---------- Round trip ----------

  /** Wherever the bytes `s` stand as a name list, its scan returns `r`. */
  ghost predicate NamesYield(s: seq<Byte>, r: Option<seq<Byte>>) {
    forall b, pos: nat :: At(b, pos, s) ==> ParseNames(b, pos, pos + |s|) == r
  }

  /** Wherever the bytes `s` stand as an extensions block, its scan returns `r`. */
  ghost predicate BlockYields(s: seq<Byte>, r: Option<seq<Byte>>) {
    forall b, pos: nat :: At(b, pos, s) ==> ParseExtensions(b, pos, pos + |s|) == r
  }

  lemma EntryAt(b: seq<Byte>, pos: nat, kind: Byte, name: seq<Byte>, tail: seq<Byte>)
    requires |name| < 0x1_0000 && At(b, pos, EntryBytes(kind, name, tail))
    ensures pos + 3 + |name| <= |b| && b[pos] == kind && U16(b, pos + 1) == |name|
    ensures b[pos + 3..pos + 3 + |name|] == name && At(b, pos + 3 + |name|, tail)
  {
    AtSplit(b, pos, [kind], PutU16(|name|) + (name + tail));
    AtU8(b, pos, kind);
    AtSplit(b, pos + 1, PutU16(|name|), name + tail);
    AtU16(b, pos + 1, |name|);
    AtSplit(b, pos + 3, name, tail);
    AtSlice(b, pos + 3, name);
  }

  lemma HostAt(b: seq<Byte>, pos: nat, end: nat, name: seq<Byte>, tail: seq<Byte>)
    requires |name| < 0x1_0000 && At(b, pos, EntryBytes(HOST_NAME, name, tail)) && pos < end
    ensures ParseNames(b, pos, end) == Acceptable(name)
  {
    EntryAt(b, pos, HOST_NAME, name, tail);
  }

  lemma HostEntry(name: seq<Byte>, tail: seq<Byte>)
    requires |name| < 0x1_0000
    ensures NamesYield(EntryBytes(HOST_NAME, name, tail), Acceptable(name))
  {
    var s := EntryBytes(HOST_NAME, name, tail);
    forall b, pos: nat | At(b, pos, s) ensures ParseNames(b, pos, pos + |s|) == Acceptable(name) {
      HostAt(b, pos, pos + |s|, name, tail);
    }
  }

  lemma ForeignEntry(kind: Byte, name: seq<Byte>, tail: seq<Byte>, r: Option<seq<Byte>>)
    requires kind != HOST_NAME && |name| < 0x1_0000 && NamesYield(tail, r)
    ensures NamesYield(EntryBytes(kind, name, tail), r)
  {
    var s := EntryBytes(kind, name, tail);
    forall b, pos: nat | At(b, pos, s) ensures ParseNames(b, pos, pos + |s|) == r {
      EntryAt(b, pos, kind, name, tail);
    }
  }

  lemma {:induction false} NamesRoundTrip(names: seq<NameEntry>)
    requires NamesLen(names) < 0x1_0000
    ensures NamesYield(EncodeNames(names), FirstHost(names))
  {
    if names != [] {
      var tail := EncodeNames(names[1..]);
      if names[0].kind == HOST_NAME {
        HostEntry(names[0].name, tail);
      } else {
        NamesRoundTrip(names[1..]);
        ForeignEntry(names[0].kind, names[0].name, tail, FirstHost(names));
      }
    }
  }

  lemma OtherAt(b: seq<Byte>, pos: nat, end: nat, kind: nat, data: seq<Byte>)
    requires kind < 0x1_0000 && |data| < 0x1_0000 && At(b, pos, OtherBytes(kind, data)) && pos < end
    requires kind != SERVER_NAME
    ensures ParseExtensions(b, pos, end) == ParseExtensions(b, pos + 4 + |data|, end)
  {
    AtSplit(b, pos, PutU16(kind), PutU16(|data|) + data);
    AtU16(b, pos, kind);
    AtSplit(b, pos + 2, PutU16(|data|), data);
    AtU16(b, pos + 2, |data|);
  }

  lemma OtherFirst(kind: nat, data: seq<Byte>, rest: seq<Byte>, r: Option<seq<Byte>>)
    requires 0 < kind < 0x1_0000 && |data| < 0x1_0000 && BlockYields(rest, r)
    ensures BlockYields(OtherBytes(kind, data) + rest, r)
  {
    var s := OtherBytes(kind, data) + rest;
    forall b, pos: nat | At(b, pos, s) ensures ParseExtensions(b, pos, pos + |s|) == r {
      AtSplit(b, pos, OtherBytes(kind, data), rest);
      OtherAt(b, pos, pos + |s|, kind, data);
    }
  }

  lemma ServerNameAt(b: seq<Byte>, pos: nat, end: nat, n: nat, list: seq<Byte>)
    requires n + 2 < 0x1_0000 && At(b, pos, ServerNameBytes(n, list)) && pos < end
    ensures ParseExtensions(b, pos, end) == ParseNames(b, pos + 6, pos + 6 + n) && At(b, pos + 6, list)
  {
    AtSplit(b, pos, PutU16(SERVER_NAME), PutU16(2 + n) + (PutU16(n) + list));
    AtU16(b, pos, SERVER_NAME);
    AtSplit(b, pos + 2, PutU16(2 + n), PutU16(n) + list);
    AtSplit(b, pos + 4, PutU16(n), list);
    AtU16(b, pos + 4, n);
  }

  lemma ServerNameFirst(list: seq<Byte>, rest: seq<Byte>, r: Option<seq<Byte>>)
    requires |list| + 2 < 0x1_0000 && NamesYield(list, r)
    ensures BlockYields(ServerNameBytes(|list|, list) + rest, r)
  {
    var s := ServerNameBytes(|list|, list) + rest;
    forall b, pos: nat | At(b, pos, s) ensures ParseExtensions(b, pos, pos + |s|) == r {
      AtSplit(b, pos, ServerNameBytes(|list|, list), rest);
      ServerNameAt(b, pos, pos + |s|, |list|, list);
    }
  }

  lemma {:induction false} ExtensionsRoundTrip(xs: seq<Extension>)
    requires forall x :: x in xs ==> ExtensionOk(x)
    ensures BlockYields(EncodeExtensions(xs), FirstServerName(xs))
  {
    if xs != [] {
      var rest := EncodeExtensions(xs[1..]);
      assert ExtensionOk(xs[0]);
      match xs[0]
      case ServerName(names) =>
        NamesRoundTrip(names);
        ServerNameFirst(EncodeNames(names), rest, FirstHost(names));
      case Other(kind, data) =>
        ExtensionsRoundTrip(xs[1..]);
        OtherFirst(kind, data, rest, FirstServerName(xs[1..]));
    }
  }

  /** Session identifier up to the cipher suites. */
  lemma BodyFront(b: seq<Byte>, version: seq<Byte>, random: seq<Byte>, sid: seq<Byte>, rest: seq<Byte>)
    requires |version| == 2 && |random| == 32 && |sid| < 0x100
    requires At(b, 9, version + (random + ([|sid|] + (sid + rest))))
    ensures 44 <= |b| && b[43] == |sid| && At(b, 44 + |sid|, rest)
  {
    AtSplit(b, 9, version, random + ([|sid|] + (sid + rest)));
    AtSplit(b, 11, random, [|sid|] + (sid + rest));
    AtSplit(b, 43, [|sid|], sid + rest);
    AtU8(b, 43, |sid|);
    AtSplit(b, 44, sid, rest);
  }

  /** Cipher suites and compression methods. */
  lemma BodyBack(b: seq<Byte>, p1: nat, ciphers: seq<Byte>, compression: seq<Byte>, rest: seq<Byte>)
    requires |ciphers| < 0x1_0000 && |compression| < 0x100
    requires At(b, p1, PutU16(|ciphers|) + (ciphers + ([|compression|] + (compression + rest))))
    ensures p1 + 2 <= |b| && U16(b, p1) == |ciphers|
    ensures var p2 := p1 + 2 + |ciphers|; p2 < |b| && b[p2] == |compression| && At(b, p2 + 1 + |compression|, rest)
  {
    var p2 := p1 + 2 + |ciphers|;
    AtSplit(b, p1, PutU16(|ciphers|), ciphers + ([|compression|] + (compression + rest)));
    AtU16(b, p1, |ciphers|);
    AtSplit(b, p1 + 2, ciphers, [|compression|] + (compression + rest));
    AtSplit(b, p2, [|compression|], compression + rest);
    AtU8(b, p2, |compression|);
    AtSplit(b, p2 + 1, compression, rest);
  }

  lemma FixedPartRoundTrip(b: seq<Byte>, version: seq<Byte>, random: seq<Byte>, sid: seq<Byte>, rest: seq<Byte>,
                           ciphers: seq<Byte>, compression: seq<Byte>, block: seq<Byte>)
    requires |version| == 2 && |random| == 32 && |sid| < 0x100 && |ciphers| < 0x1_0000 && |compression| < 0x100
    requires rest == PutU16(|ciphers|) + (ciphers + ([|compression|] + (compression + block)))
    requires At(b, 9, version + (random + ([|sid|] + (sid + rest))))
    ensures var p := 47 + |sid| + |ciphers| + |compression|; AfterCompression(b) == Some(p) && At(b, p, block)
  {
    BodyFront(b, version, random, sid, rest);
    BodyBack(b, 44 + |sid|, ciphers, compression, block);
  }

  lemma BodyRoundTrip(b: seq<Byte>, h: Hello)
    requires HelloOk(h) && At(b, 9, EncodeBody(h))
    ensures AfterCompression(b) == Some(9 + |EncodeBody(h)| - |EncodeBlock(h)|)
    ensures At(b, 9 + |EncodeBody(h)| - |EncodeBlock(h)|, EncodeBlock(h))
  {
    var block := EncodeBlock(h);
    var rest := PutU16(|h.ciphers|) + (h.ciphers + ([|h.compression|] + (h.compression + block)));
    FixedPartRoundTrip(b, h.version, h.random, h.sessionId, rest, h.ciphers, h.compression, block);
  }

  lemma RecordHeader(b: seq<Byte>, h: Hello)
    requires HelloOk(h) && 4 + |EncodeBody(h)| < 0x1_0000 && At(b, 0, EncodeRecord(h))
    ensures |b| >= 9 && b[0] == 22 && U16(b, 3) == 4 + |EncodeBody(h)|
    ensures b[5] == 1 && U24(b, 6) == |EncodeBody(h)| && At(b, 9, EncodeBody(h))
  {
    var n := |EncodeBody(h)|;
    var r3 := PutU24(n) + EncodeBody(h);
    var r2 := [1] + r3;
    AtSplit(b, 0, [22, 3, 1], PutU16(4 + n) + r2);
    assert ByteAt(b, 0, [22, 3, 1], 0);
    AtSplit(b, 3, PutU16(4 + n), r2);
    AtU16(b, 3, 4 + n);
    AtSplit(b, 5, [1], r3);
    AtU8(b, 5, 1);
    AtSplit(b, 6, PutU24(n), EncodeBody(h));
    AtU24(b, 6, n);
  }

  /** The header fields of a record holding one ClientHello of `n` bytes. */
  predicate HeaderOk(b: seq<Byte>, n: nat) {
    |b| >= 9 + n && b[0] == 22 && U16(b, 3) == 4 + n && b[5] == 1 && U24(b, 6) == n
  }

  /** Past the fixed part only the extensions block decides. */
  lemma ParseFromBlock(b: seq<Byte>, n: nat, p: nat, len: nat, r: Option<seq<Byte>>)
    requires HeaderOk(b, n) && AfterCompression(b) == Some(p) && p + 2 <= 9 + n && U16(b, p) == len
    requires ParseExtensions(b, p + 2, p + 2 + len) == r
    ensures Parse(b) == r
  {
  }

  lemma BlockLength(b: seq<Byte>, p: nat, body: seq<Byte>)
    requires |body| < 0x1_0000 && At(b, p, PutU16(|body|) + body)
    ensures p + 2 <= |b| && U16(b, p) == |body| && At(b, p + 2, body)
  {
    AtSplit(b, p, PutU16(|body|), body);
    AtU16(b, p, |body|);
  }

  lemma BlockAt(b: seq<Byte>, n: nat, p: nat, body: seq<Byte>, r: Option<seq<Byte>>)
    requires |body| < 0x1_0000 && BlockYields(body, r)
    requires HeaderOk(b, n) && AfterCompression(b) == Some(p)
    requires At(b, p, PutU16(|body|) + body) && 9 + n == p + 2 + |body|
    ensures Parse(b) == r
  {
    BlockLength(b, p, body);
    ParseFromBlock(b, n, p, |body|, r);
  }

  /** A buffer with the right header fields parses to what its extensions block announces. */
  lemma BlockRoundTrip(b: seq<Byte>, h: Hello, n: nat, p: nat)
    requires HelloOk(h) && HeaderOk(b, n) && AfterCompression(b) == Some(p)
    requires At(b, p, EncodeBlock(h)) && 9 + n == p + |EncodeBlock(h)|
    ensures Parse(b) == AnnouncedName(h)
  {
    match h.extensions
    case None =>
    case Some(xs) =>
      ExtensionsRoundTrip(xs);
      BlockAt(b, n, p, EncodeExtensions(xs), FirstServerName(xs));
  }

  /** Round trip: for every well-formed ClientHello and any trailing bytes, the parser returns
      exactly the announced name, and nothing when none is announced. */
  lemma ParseRoundTrip(h: Hello, trailing: seq<Byte>)
    requires HelloOk(h) && 4 + |EncodeBody(h)| < 0x1_0000
    ensures Parse(EncodeRecord(h) + trailing) == AnnouncedName(h)
  {
    var b := EncodeRecord(h) + trailing;
    AtStart(EncodeRecord(h), trailing);
    RecordHeader(b, h);
    BodyRoundTrip(b, h);
    BlockRoundTrip(b, h, |EncodeBody(h)|, 9 + |EncodeBody(h)| - |EncodeBlock(h)|);
  }

  /** In particular: foreign extensions first, foreign name types first, then the host name. */
  lemma {:induction false} AnnouncedHostIsFound(
    h: Hello, pre: seq<Extension>, post: seq<Extension>, others: seq<NameEntry>, host: seq<Byte>, rest: seq<NameEntry>)
    requires h.extensions == Some(pre + [ServerName(others + [NameEntry(0, host)] + rest)] + post)
    requires forall x :: x in pre ==> x.Other?
    requires forall e :: e in others ==> e.kind != 0
    requires |host| <= 253 && Utf8Valid(host)
    ensures AnnouncedName(h) == Some(host)
  {
    SkipOthers(pre, [ServerName(others + [NameEntry(0, host)] + rest)] + post);
    assert pre + [ServerName(others + [NameEntry(0, host)] + rest)] + post
        == pre + ([ServerName(others + [NameEntry(0, host)] + rest)] + post);
    SkipForeignNames(others, [NameEntry(0, host)] + rest);
    assert others + [NameEntry(0, host)] + rest == others + ([NameEntry(0, host)] + rest);
  }

  lemma {:induction false} SkipOthers(pre: seq<Extension>, xs: seq<Extension>)
    requires forall x :: x in pre ==> x.Other?
    ensures FirstServerName(pre + xs) == FirstServerName(xs)
  {
    if pre == [] {
      assert pre + xs == xs;
    } else {
      assert (pre + xs)[0] == pre[0] && pre[0] in pre;
      assert (pre + xs)[1..] == pre[1..] + xs;
      SkipOthers(pre[1..], xs);
    }
  }

  lemma {:induction false} SkipForeignNames(others: seq<NameEntry>, names: seq<NameEntry>)
    requires forall e :: e in others ==> e.kind != 0
    ensures FirstHost(others + names) == FirstHost(names)
  {
    if others == [] {
      assert others + names == names;
    } else {
      assert (others + names)[0] == others[0] && others[0] in others;
      assert (others + names)[1..] == others[1..] + names;
      SkipForeignNames(others[1..], names);
    }
  }
}
