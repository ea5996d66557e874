/** The PROXY protocol header encoder: the text form of section 2.1 and the binary form of section 2.2 of
    HAProxy's "The PROXY protocol, Versions 1 & 2". */
module ProxyProtocol {
  import opened Text
  import opened Bytes
  import opened Decimal

  type Octets4 = s: seq<Byte> | |s| == 4 witness [0, 0, 0, 0]
  type Octets16 = s: seq<Byte> | |s| == 16 witness [0, 0, 0, 0, 0, 0, 0, 0, 0, 0, 0, 0, 0, 0, 0, 0]
  type Port = x: int | 0 <= x < 0x1_0000

  datatype Ip = V4(v4: Octets4) | V6(v6: Octets16)
  datatype Socket = Socket(ip: Ip, port: Port)

  // ---------- One family for both addresses ----------

  const MAPPED_PREFIX: seq<Byte> := [0, 0, 0, 0, 0, 0, 0, 0, 0, 0, 0xFF, 0xFF]
  const UNSPECIFIED: Octets4 := [0, 0, 0, 0]

  function ToIpv6Mapped(a: Octets4): Octets16 { MAPPED_PREFIX + a }

  function ToIpv4Mapped(a: Octets16): Option<Octets4> { if a[..12] == MAPPED_PREFIX then Some(a[12..]) else None }

  function AsV4(ip: Ip): Octets4 {
    match ip
    case V4(a) => a
    case V6(a) => ToIpv4Mapped(a).Or(UNSPECIFIED)
  }

  function AsV6(ip: Ip): Octets16 {
    match ip
    case V4(a) => ToIpv6Mapped(a)
    case V6(a) => a
  }

  /** `s` in the family of the client. */
  function Normalised(client: Socket, s: Socket): Socket {
    Socket(if client.ip.V4? then V4(AsV4(s.ip)) else V6(AsV6(s.ip)), s.port)
  }

  /** The destination survives normalisation exactly unless an IPv4 client reached a proper IPv6 address. */
  lemma DestinationKeptIff(client: Socket, proxy: Socket)
    ensures AsV6(Normalised(client, proxy).ip) == AsV6(proxy.ip) <==>
            !(client.ip.V4? && proxy.ip.V6? && ToIpv4Mapped(proxy.ip.v6).None?)
  {
    if proxy.ip.V6? {
      var a := proxy.ip.v6;
      assert a == a[..12] + a[12..];
      assert ToIpv6Mapped(AsV4(proxy.ip))[..12] == MAPPED_PREFIX;
    }
  }

  /** Which address an IPv4 client's header names as the destination: an IPv6 one only if it maps an IPv4 one
      (section 2.5.5.2 of RFC 4291), and otherwise 0.0.0.0; and how an IPv6 client's header writes an IPv4 one. */
  lemma NormalisedExact(client: Socket, proxy: Socket)
    ensures Normalised(client, proxy).port == proxy.port
    ensures client.ip.V4? && proxy.ip.V4? ==> Normalised(client, proxy).ip == proxy.ip
    ensures client.ip.V6? && proxy.ip.V6? ==> Normalised(client, proxy).ip == proxy.ip
    ensures client.ip.V6? && proxy.ip.V4? ==>
              Normalised(client, proxy).ip == V6([0, 0, 0, 0, 0, 0, 0, 0, 0, 0, 0xFF, 0xFF] + proxy.ip.v4)
    ensures client.ip.V4? && proxy.ip.V6? ==>
              Normalised(client, proxy).ip ==
              if proxy.ip.v6[..12] == [0, 0, 0, 0, 0, 0, 0, 0, 0, 0, 0xFF, 0xFF] then V4(proxy.ip.v6[12..])
              else V4([0, 0, 0, 0])
  {
  }

  lemma ClientIsKept(client: Socket)
    ensures Normalised(client, client) == client
  {
  }

  // ---------- Version 2 ----------

  const SIGNATURE: seq<Byte> := [0x0D, 0x0A, 0x0D, 0x0A, 0x00, 0x0D, 0x0A, 0x51, 0x55, 0x49, 0x54, 0x0A]

  function Octets(ip: Ip): seq<Byte> {
    match ip
    case V4(a) => a
    case V6(a) => a
  }

  function AddressBlock(src: Socket, dst: Socket): seq<Byte> {
    Octets(src.ip) + (Octets(dst.ip) + (PutU16(src.port) + PutU16(dst.port)))
  }

  /** Address family and stream transport, then the length of the addresses. */
  function Family(client: Socket): seq<Byte> { if client.ip.V4? then [0x11, 0x00, 0x0C] else [0x21, 0x00, 0x24] }

  function HeaderV2(client: Socket, proxy: Socket): seq<Byte> {
    SIGNATURE + ([0x21] + (Family(client) + AddressBlock(Normalised(client, client), Normalised(client, proxy))))
  }

  method EncodeV2(client: Socket, proxy: Socket) returns (buf: seq<Byte>)
    ensures buf == HeaderV2(client, proxy)
  {
    buf := SIGNATURE;
    buf := buf + [0x21];
    if client.ip.V4? {
      buf := buf + [0x11];
      buf := buf + [0x00, 0x0C];
      buf := buf + AsV4(client.ip);
      buf := buf + AsV4(proxy.ip);
    } else {
      buf := buf + [0x21];
      buf := buf + [0x00, 0x24];
      buf := buf + AsV6(client.ip);
      buf := buf + AsV6(proxy.ip);
    }
    buf := buf + PutU16(client.port);
    buf := buf + PutU16(proxy.port);
  }

  datatype Decoded<T> = Decoded(src: Socket, dst: Socket, payload: seq<T>)

  function SocketAt4(b: seq<Byte>, addr: nat, port: nat): Socket
    requires addr + 4 <= |b| && port + 2 <= |b|
  {
    Socket(V4(b[addr..addr + 4]), U16(b, port))
  }

  function SocketAt16(b: seq<Byte>, addr: nat, port: nat): Socket
    requires addr + 16 <= |b| && port + 2 <= |b|
  {
    Socket(V6(b[addr..addr + 16]), U16(b, port))
  }

  /** A receiver that follows section 2.2: the payload starts after the announced length. */
  function DecodeV2(b: seq<Byte>): Option<Decoded<Byte>> {
    if |b| < 16 || b[..12] != [13, 10, 13, 10, 0, 13, 10, 81, 85, 73, 84, 10] || b[12] != 0x21
       || |b| < 16 + U16(b, 14) then None
    else
      var len := U16(b, 14);
      if b[13] == 0x11 && len >= 12 then Some(Decoded(SocketAt4(b, 16, 24), SocketAt4(b, 20, 26), b[16 + len..]))
      else if b[13] == 0x21 && len >= 36 then
        Some(Decoded(SocketAt16(b, 16, 48), SocketAt16(b, 32, 50), b[16 + len..]))
      else None
  }

  /** The length field is the number of bytes that follow it in the header. */
  lemma LengthFieldExact(client: Socket, proxy: Socket)
    ensures var h := HeaderV2(client, proxy); |h| == 16 + U16(h, 14)
  {
    var h := HeaderV2(client, proxy);
    assert |h| == 16 + (if client.ip.V4? then 12 else 36);
    assert h[14] == 0 && h[15] == if client.ip.V4? then 0x0C else 0x24;
  }

  /** Where the parts of an address block lie when each address takes `n` bytes. */
  lemma BlockParts(b: seq<Byte>, src: Socket, dst: Socket, n: nat)
    requires At(b, 16, AddressBlock(src, dst)) && |Octets(src.ip)| == |Octets(dst.ip)| == n
    ensures |b| >= 20 + n + n && b[16..16 + n] == Octets(src.ip) && b[16 + n..16 + n + n] == Octets(dst.ip)
    ensures U16(b, 16 + n + n) == src.port && U16(b, 18 + n + n) == dst.port
  {
    AtSplit(b, 16, Octets(src.ip), Octets(dst.ip) + (PutU16(src.port) + PutU16(dst.port)));
    AtSplit(b, 16 + n, Octets(dst.ip), PutU16(src.port) + PutU16(dst.port));
    AtSplit(b, 16 + n + n, PutU16(src.port), PutU16(dst.port));
    AtSlice(b, 16, Octets(src.ip));
    AtSlice(b, 16 + n, Octets(dst.ip));
    AtU16(b, 16 + n + n, src.port);
    AtU16(b, 18 + n + n, dst.port);
  }

  lemma BlockAt(b: seq<Byte>, src: Socket, dst: Socket)
    requires At(b, 16, AddressBlock(src, dst)) && src.ip.V4? == dst.ip.V4?
    ensures src.ip.V4? ==> |b| >= 28 && SocketAt4(b, 16, 24) == src && SocketAt4(b, 20, 26) == dst
    ensures src.ip.V6? ==> |b| >= 52 && SocketAt16(b, 16, 48) == src && SocketAt16(b, 32, 50) == dst
  {
    BlockParts(b, src, dst, |Octets(src.ip)|);
  }

  lemma HeaderAt(b: seq<Byte>, client: Socket, proxy: Socket)
    requires At(b, 0, HeaderV2(client, proxy))
    ensures |b| >= 16 && b[..12] == SIGNATURE && b[12] == 0x21 && At(b, 13, Family(client))
    ensures At(b, 16, AddressBlock(Normalised(client, client), Normalised(client, proxy)))
  {
    var block := AddressBlock(Normalised(client, client), Normalised(client, proxy));
    AtSplit(b, 0, SIGNATURE, [0x21] + (Family(client) + block));
    AtSlice(b, 0, SIGNATURE);
    AtSplit(b, 12, [0x21], Family(client) + block);
    AtU8(b, 12, 0x21);
    AtSplit(b, 13, Family(client), block);
  }

  lemma FamilyAt(b: seq<Byte>, client: Socket)
    requires At(b, 13, Family(client))
    ensures |b| >= 16 && b[13] == (if client.ip.V4? then 0x11 else 0x21)
            && U16(b, 14) == if client.ip.V4? then 12 else 36
  {
    var f := Family(client);
    assert ByteAt(b, 13, f, 0) && ByteAt(b, 13, f, 1) && ByteAt(b, 13, f, 2);
  }

  /** A version 2 header in front of any payload decodes to the normalised addresses and that payload. */
  lemma RoundTripV2(client: Socket, proxy: Socket, payload: seq<Byte>)
    ensures DecodeV2(HeaderV2(client, proxy) + payload)
            == Some(Decoded(client, Normalised(client, proxy), payload))
  {
    var h := HeaderV2(client, proxy);
    var b := h + payload;
    AtStart(h, payload);
    HeaderAt(b, client, proxy);
    FamilyAt(b, client);
    BlockAt(b, Normalised(client, client), Normalised(client, proxy));
    assert |h| == 16 + U16(b, 14);
    assert b[|h|..] == payload;
  }

  // ---------- Version 1 ----------

  function ReadBelow(s: string, bound: nat): Option<nat> {
    if s == "" || !AllDigits(s) || Read(s) >= bound then None else Some(Read(s))
  }

  lemma ReadBelowPrint(n: nat, bound: nat)
    requires n < bound
    ensures ReadBelow(Print(n), bound) == Some(n) && forall c :: !IsDigit(c) ==> c !in Print(n)
  {
    ReadPrint(n);
  }

  function Dotted(w: string, x: string, y: string, z: string): string {
    w + (['.'] + (x + (['.'] + (y + (['.'] + z)))))
  }

  function SplitDots(s: string): Option<(string, string, string, string)> {
    var a :- Token(s, '.');
    var b :- Token(a.1, '.');
    var c :- Token(b.1, '.');
    Some((a.0, b.0, c.0, c.1))
  }

  lemma SplitDotted(w: string, x: string, y: string, z: string)
    requires '.' !in w && '.' !in x && '.' !in y
    ensures SplitDots(Dotted(w, x, y, z)) == Some((w, x, y, z))
  {
    TokenSplits(w, '.', x + (['.'] + (y + (['.'] + z))));
    TokenSplits(x, '.', y + (['.'] + z));
    TokenSplits(y, '.', z);
  }

  lemma DottedHasNoBlank(w: string, x: string, y: string, z: string)
    requires ' ' !in w && ' ' !in x && ' ' !in y && ' ' !in z
    ensures ' ' !in Dotted(w, x, y, z)
  {
  }

  function ShowV4(a: Octets4): string { Dotted(Print(a[0]), Print(a[1]), Print(a[2]), Print(a[3])) }

  function ReadV4(s: string): Option<Octets4> {
    var p :- SplitDots(s);
    var w :- ReadBelow(p.0, 256);
    var x :- ReadBelow(p.1, 256);
    var y :- ReadBelow(p.2, 256);
    var z :- ReadBelow(p.3, 256);
    Some([w, x, y, z])
  }

  lemma ReadShowV4(a: Octets4)
    ensures ReadV4(ShowV4(a)) == Some(a) && ' ' !in ShowV4(a)
  {
    var w, x, y, z := Print(a[0]), Print(a[1]), Print(a[2]), Print(a[3]);
    ReadBelowPrint(a[0], 256);
    ReadBelowPrint(a[1], 256);
    ReadBelowPrint(a[2], 256);
    ReadBelowPrint(a[3], 256);
    SplitDotted(w, x, y, z);
    DottedHasNoBlank(w, x, y, z);
    assert a == [a[0], a[1], a[2], a[3]];
  }

  /** `show6` stands for the standard library's IPv6 text form. */
  function Show(ip: Ip, show6: Octets16 -> string): string {
    match ip
    case V4(a) => ShowV4(a)
    case V6(a) => show6(a)
  }

  function FamilyName(ip: Ip): string { if ip.V4? then "TCP4" else "TCP6" }

  function Line(family: string, src: string, dst: string, sport: string, dport: string): string {
    "PROXY " + (family + ([' '] + (src + ([' '] + (dst + ([' '] + (sport + ([' '] + (dport + "\r\n")))))))))
  }

  function ShownLine(src: Socket, dst: Socket, show6: Octets16 -> string): string {
    Line(FamilyName(src.ip), Show(src.ip, show6), Show(dst.ip, show6), Print(src.port), Print(dst.port))
  }

  function HeaderV1(client: Socket, proxy: Socket, show6: Octets16 -> string): string {
    ShownLine(Normalised(client, client), Normalised(client, proxy), show6)
  }

  datatype Fields = Fields(family: string, src: string, dst: string, sport: string, dport: string, payload: string)

  function SplitLine(s: string): Option<Fields> {
    if !("PROXY " <= s) then None
    else
      var family :- Token(s[6..], ' ');
      var src :- Token(family.1, ' ');
      var dst :- Token(src.1, ' ');
      var sport :- Token(dst.1, ' ');
      var dport :- Token(sport.1, '\r');
      if !("\n" <= dport.1) then None
      else Some(Fields(family.0, src.0, dst.0, sport.0, dport.0, dport.1[1..]))
  }

  lemma SplitJoinedLine(f: Fields)
    requires ' ' !in f.family && ' ' !in f.src && ' ' !in f.dst && ' ' !in f.sport && '\r' !in f.dport
    ensures SplitLine(Line(f.family, f.src, f.dst, f.sport, f.dport) + f.payload) == Some(f)
  {
    var t5 := "\n" + f.payload;
    var t4 := f.dport + (['\r'] + t5);
    var t3 := f.sport + ([' '] + t4);
    var t2 := f.dst + ([' '] + t3);
    var t1 := f.src + ([' '] + t2);
    var t0 := f.family + ([' '] + t1);
    var s := Line(f.family, f.src, f.dst, f.sport, f.dport) + f.payload;
    assert s == "PROXY " + t0 && s[6..] == t0;
    TokenSplits(f.family, ' ', t1);
    TokenSplits(f.src, ' ', t2);
    TokenSplits(f.dst, ' ', t3);
    TokenSplits(f.sport, ' ', t4);
    TokenSplits(f.dport, '\r', t5);
    assert t5[1..] == f.payload;
  }

  function ReadIp(family: string, s: string, read6: string -> Option<Octets16>): Option<Ip> {
    if family == "TCP4" then var a :- ReadV4(s); Some(V4(a))
    else if family == "TCP6" then var a :- read6(s); Some(V6(a))
    else None
  }

  /** A receiver that follows section 2.1. */
  function DecodeV1(s: string, read6: string -> Option<Octets16>): Option<Decoded<char>> {
    var f :- SplitLine(s);
    DecodeFields(f, read6)
  }

  function DecodeFields(f: Fields, read6: string -> Option<Octets16>): Option<Decoded<char>> {
    var srcIp :- ReadIp(f.family, f.src, read6);
    var dstIp :- ReadIp(f.family, f.dst, read6);
    var srcPort :- ReadBelow(f.sport, 0x1_0000);
    var dstPort :- ReadBelow(f.dport, 0x1_0000);
    Some(Decoded(Socket(srcIp, srcPort), Socket(dstIp, dstPort), f.payload))
  }

  /** An IPv6 text form without blanks that can be read back. */
  ghost predicate Reads6(show6: Octets16 -> string, read6: string -> Option<Octets16>) {
    forall a :: ' ' !in show6(a) && read6(show6(a)) == Some(a)
  }

  lemma ReadShow(ip: Ip, show6: Octets16 -> string, read6: string -> Option<Octets16>)
    requires Reads6(show6, read6)
    ensures ' ' !in Show(ip, show6) && ReadIp(FamilyName(ip), Show(ip, show6), read6) == Some(ip)
  {
    if ip.V4? { ReadShowV4(ip.v4); }
  }

  lemma DecodeShownFields(
    src: Socket, dst: Socket, payload: string, show6: Octets16 -> string, read6: string -> Option<Octets16>)
    requires Reads6(show6, read6) && src.ip.V4? == dst.ip.V4?
    ensures DecodeFields(Fields(FamilyName(src.ip), Show(src.ip, show6), Show(dst.ip, show6), Print(src.port),
            Print(dst.port), payload), read6)
            == Some(Decoded(src, dst, payload))
  {
    ReadShow(src.ip, show6, read6);
    ReadShow(dst.ip, show6, read6);
    ReadBelowPrint(src.port, 0x1_0000);
    ReadBelowPrint(dst.port, 0x1_0000);
  }

  lemma SplitShownLine(
    src: Socket, dst: Socket, payload: string, show6: Octets16 -> string, read6: string -> Option<Octets16>)
    requires Reads6(show6, read6)
    ensures var f := Fields(FamilyName(src.ip), Show(src.ip, show6), Show(dst.ip, show6), Print(src.port),
            Print(dst.port), payload);
            SplitLine(Line(f.family, f.src, f.dst, f.sport, f.dport) + payload) == Some(f)
  {
    ReadShow(src.ip, show6, read6);
    ReadShow(dst.ip, show6, read6);
    ReadBelowPrint(src.port, 0x1_0000);
    ReadBelowPrint(dst.port, 0x1_0000);
    SplitJoinedLine(Fields(FamilyName(src.ip), Show(src.ip, show6), Show(dst.ip, show6), Print(src.port),
      Print(dst.port), payload));
  }

  lemma DecodeOfSplit(s: string, f: Fields, read6: string -> Option<Octets16>)
    requires SplitLine(s) == Some(f)
    ensures DecodeV1(s, read6) == DecodeFields(f, read6)
  {
  }

  lemma RoundTripShown(
    src: Socket, dst: Socket, payload: string, show6: Octets16 -> string, read6: string -> Option<Octets16>)
    requires Reads6(show6, read6) && src.ip.V4? == dst.ip.V4?
    ensures DecodeV1(ShownLine(src, dst, show6) + payload, read6) == Some(Decoded(src, dst, payload))
  {
    var f := Fields(FamilyName(src.ip), Show(src.ip, show6), Show(dst.ip, show6), Print(src.port), Print(dst.port),
      payload);
    SplitShownLine(src, dst, payload, show6, read6);
    DecodeOfSplit(ShownLine(src, dst, show6) + payload, f, read6);
    DecodeShownFields(src, dst, payload, show6, read6);
  }

  /** A version 1 header in front of any payload decodes to the normalised addresses and that payload. */
  lemma RoundTripV1(
    client: Socket, proxy: Socket, payload: string, show6: Octets16 -> string, read6: string -> Option<Octets16>)
    requires Reads6(show6, read6)
    ensures DecodeV1(HeaderV1(client, proxy, show6) + payload, read6)
            == Some(Decoded(client, Normalised(client, proxy), payload))
  {
    ClientIsKept(client);
    RoundTripShown(client, Normalised(client, proxy), payload, show6, read6);
  }
}
