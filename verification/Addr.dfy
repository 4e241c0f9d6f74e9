/** Consuming parsers over a byte buffer: the primitives every header codec is built from. */
module Parse {
  import opened Common

  datatype Error = BadAddressType(b: Byte) | BadDomain | Auth | BadVersion | BadCommand

  /** A parser's answer: a value and what is left, a request for more bytes, or a refusal. */
  datatype Parsed<+T> = Done(value: T, rest: Bytes) | Truncated | Bad(error: Error)

  function Take(buf: Bytes, n: nat): Parsed<Bytes> {
    if |buf| < n then Truncated else Done(buf[..n], buf[n..])
  }

  function TakeU8(buf: Bytes): Parsed<Byte> {
    if |buf| < 1 then Truncated else Done(buf[0], buf[1..])
  }

  function ReadPort(buf: Bytes): Parsed<U16> {
    if |buf| < 2 then Truncated else Done(FromBe16(buf), buf[2..])
  }

  /** What a parser said about `buf` still stands once `more` follows, unless it asked for more. */
  ghost predicate Settled<T(!new)>(before: Parsed<T>, after: Parsed<T>, buf: Bytes, more: Bytes) {
    match before
    case Done(v, rest) => |rest| <= |buf| && rest == buf[|buf| - |rest|..] && after == Done(v, rest + more)
    case Truncated => true
    case Bad(e) => after == Bad(e)
  }

  /** A parser whose answers do not depend on how much of the input has arrived. */
  ghost predicate Stable<T(!new)>(parse: Bytes -> Parsed<T>) {
    forall buf: Bytes, more: Bytes {:trigger parse(buf + more)} ::
      Settled(parse(buf), parse(buf + more), buf, more)
  }
}

/** The SOCKS-style address codec shared by all protocols, and the values it carries. */
module Addr {
  import opened Common
  import opened Parse

  type Octets4 = s: Bytes | |s| == 4 witness [0, 0, 0, 0]
  type Octets16 = s: Bytes | |s| == 16 witness seq(16, i => 0)

  datatype IpAddr = V4(v4: Octets4) | V6(v6: Octets16)

  datatype Address = Ip(ip: IpAddr) | Domain(name: Bytes)

  datatype Network = Tcp | Udp

  datatype Destination = Destination(network: Network, address: Address, port: U16)

  datatype Family = VlessVmess | Standard

  datatype PortOrder = PortFirst | PortLast

  datatype Codec = Codec(family: Family, order: PortOrder, mask: bool)

  const VLESS := Codec(VlessVmess, PortFirst, false)
  const TROJAN := Codec(Standard, PortLast, false)
  const SHADOWSOCKS := Codec(Standard, PortLast, true)

  /** Textual IP parsing, left abstract; it answers nothing on bytes that are not text. */
  type IpText = Bytes -> Option<IpAddr>

  datatype Kind = Ipv4Kind | Ipv6Kind | DomainKind

  function KindOf(f: Family, b: Byte): Option<Kind> {
    match f
    case VlessVmess =>
      if b == 1 then Some(Ipv4Kind) else if b == 2 then Some(DomainKind) else if b == 3 then Some(Ipv6Kind) else None
    case Standard =>
      if b == 1 then Some(Ipv4Kind) else if b == 3 then Some(DomainKind) else if b == 4 then Some(Ipv6Kind) else None
  }

  function ByteFor(f: Family, a: Address): Byte {
    match a
    case Ip(V4(_)) => 1
    case Domain(_) => if f.VlessVmess? then 2 else 3
    case Ip(V6(_)) => if f.VlessVmess? then 3 else 4
  }

  predicate V4Mapped(o: Octets16) {
    && (forall i :: 0 <= i < 10 ==> o[i] == 0)
    && o[10] == 255 && o[11] == 255
  }

  /** Sixteen bytes that spell a v4-mapped address collapse to the v4 address. */
  function FromV6Bytes(o: Octets16): IpAddr {
    if V4Mapped(o) then V4(o[12..]) else V6(o)
  }

  predicate DomainByte(c: Byte) {
    || 48 <= c <= 57
    || 65 <= c <= 90
    || 97 <= c <= 122
    || c == 45 || c == 46 || c == 95
  }

  predicate ValidDomain(d: Bytes) {
    d != [] && forall i :: 0 <= i < |d| ==> DomainByte(d[i])
  }

  /** Starts with a digit or an opening bracket. */
  predicate LooksLikeIp(d: Bytes) {
    d != [] && (d[0] == 91 || 48 <= d[0] <= 57)
  }

  function DomainOrIp(text: IpText, d: Bytes, rest: Bytes): Parsed<Address> {
    if LooksLikeIp(d) && text(d).Some? then Done(Ip(text(d).value), rest)
    else if !ValidDomain(d) then Bad(BadDomain)
    else Done(Domain(d), rest)
  }

  function ReadDomain(text: IpText, buf: Bytes): Parsed<Address> {
    match TakeU8(buf)
    case Truncated => Truncated
    case Bad(e) => Bad(e)
    case Done(len, rest) =>
      if len == 0 then Bad(BadDomain)
      else
        match Take(rest, len)
        case Truncated => Truncated
        case Bad(e) => Bad(e)
        case Done(d, rest') => DomainOrIp(text, d, rest')
  }

  function ReadKind(text: IpText, kind: Kind, buf: Bytes): Parsed<Address> {
    match kind
    case Ipv4Kind => if |buf| < 4 then Truncated else Done(Ip(V4(buf[..4])), buf[4..])
    case Ipv6Kind => if |buf| < 16 then Truncated else Done(Ip(FromV6Bytes(buf[..16])), buf[16..])
    case DomainKind => ReadDomain(text, buf)
  }

  function ReadAddress(c: Codec, text: IpText, buf: Bytes): Parsed<Address> {
    match TakeU8(buf)
    case Truncated => Truncated
    case Bad(e) => Bad(e)
    case Done(t, rest) =>
      var t' := if c.mask then t % 16 else t;
      match KindOf(c.family, t')
      case None => Bad(BadAddressType(t'))
      case Some(kind) => ReadKind(text, kind, rest)
  }

  function Read(c: Codec, text: IpText, buf: Bytes): Parsed<(Address, U16)> {
    match c.order
    case PortFirst => (
      match ReadPort(buf)
      case Truncated => Truncated
      case Bad(e) => Bad(e)
      case Done(port, rest) =>
        match ReadAddress(c, text, rest)
        case Truncated => Truncated
        case Bad(e) => Bad(e)
        case Done(a, rest') => Done((a, port), rest'))
    case PortLast =>
      match ReadAddress(c, text, buf)
      case Truncated => Truncated
      case Bad(e) => Bad(e)
      case Done(a, rest) =>
        match ReadPort(rest)
        case Truncated => Truncated
        case Bad(e) => Bad(e)
        case Done(port, rest') => Done((a, port), rest')
  }

  function WriteAddress(c: Codec, a: Address): Option<Bytes> {
    match a
    case Ip(V4(o)) => Some([ByteFor(c.family, a)] + o)
    case Ip(V6(o)) => Some([ByteFor(c.family, a)] + o)
    case Domain(d) => if |d| > 255 then None else Some([ByteFor(c.family, a), |d|] + d)
  }

  function Write(c: Codec, a: Address, port: U16): Option<Bytes> {
    match WriteAddress(c, a)
    case None => None
    case Some(bytes) => Some(if c.order.PortFirst? then Be16(port) + bytes else bytes + Be16(port))
  }

  /** Addresses that survive the wire: what the reader can actually answer with. */
  predicate Canonical(text: IpText, a: Address) {
    match a
    case Ip(V4(_)) => true
    case Ip(V6(o)) => !V4Mapped(o)
    case Domain(d) => |d| <= 255 && ValidDomain(d) && !(LooksLikeIp(d) && text(d).Some?)
  }

  lemma AddressRoundTrip(c: Codec, text: IpText, a: Address, rest: Bytes)
    requires WriteAddress(c, a).Some?
    ensures var r := ReadAddress(c, text, WriteAddress(c, a).value + rest);
            if Canonical(text, a) then r == Done(a, rest) else !(r.Done? && r.value == a)
  {
    hide ReadDomain, V4Mapped, ValidDomain, LooksLikeIp;
    var w := WriteAddress(c, a).value;
    var tail := w[1..] + rest;
    assert (w + rest)[1..] == tail && (w + rest)[0] == ByteFor(c.family, a);
    match a
    case Ip(V4(o)) =>
      assert w[1..] == o && tail[..4] == o && tail[4..] == rest;
    case Ip(V6(o)) =>
      assert w[1..] == o && tail[..16] == o && tail[16..] == rest;
    case Domain(d) =>
      assert tail == [|d|] + (d + rest);
      DomainRoundTrip(text, d, rest);
  }

  lemma DomainRoundTrip(text: IpText, d: Bytes, rest: Bytes)
    requires |d| <= 255
    ensures var r := ReadDomain(text, [|d|] + (d + rest));
            if Canonical(text, Domain(d)) then r == Done(Domain(d), rest) else !(r.Done? && r.value == Domain(d))
  {
    var buf := [|d|] + (d + rest);
    assert buf[0] == |d| && buf[1..] == d + rest;
    assert (d + rest)[..|d|] == d && (d + rest)[|d|..] == rest;
  }

  /** Every v4-mapped address comes back as the v4 address it maps, over every codec. */
  lemma V4MappedCollapses(c: Codec, text: IpText, o: Octets16, port: U16, rest: Bytes)
    requires V4Mapped(o)
    ensures Write(c, Ip(V6(o)), port).Some?
    ensures Read(c, text, Write(c, Ip(V6(o)), port).value + rest) == Done((Ip(V4(o[12..])), port), rest)
  {
    hide V4Mapped, ReadDomain;
    var w: Bytes := [ByteFor(c.family, Ip(V6(o)))] + o;
    if c.order.PortFirst? {
      assert Be16(port) + w + rest == Be16(port) + (w + rest);
      PortRead(port, w + rest);
      MappedRead(c, text, o, rest);
    } else {
      assert w + Be16(port) + rest == w + (Be16(port) + rest);
      MappedRead(c, text, o, Be16(port) + rest);
      PortRead(port, rest);
    }
  }

  lemma PortRead(port: U16, rest: Bytes)
    ensures ReadPort(Be16(port) + rest) == Done(port, rest)
  {
    assert (Be16(port) + rest)[..2] == Be16(port) && (Be16(port) + rest)[2..] == rest;
  }

  lemma MappedRead(c: Codec, text: IpText, o: Octets16, rest: Bytes)
    requires V4Mapped(o)
    ensures ReadAddress(c, text, [ByteFor(c.family, Ip(V6(o)))] + o + rest) == Done(Ip(V4(o[12..])), rest)
  {
    hide V4Mapped, ReadDomain;
    var buf: Bytes := [ByteFor(c.family, Ip(V6(o)))] + o + rest;
    assert buf[0] == ByteFor(c.family, Ip(V6(o))) && buf[1..] == o + rest;
    assert (o + rest)[..16] == o && (o + rest)[16..] == rest;
  }

  /** For instance ::ffff:1.2.3.4. */
  lemma MappedExample(text: IpText)
    ensures !Canonical(text, Ip(V6([0, 0, 0, 0, 0, 0, 0, 0, 0, 0, 255, 255, 1, 2, 3, 4])))
  {
    var o: Octets16 := [0, 0, 0, 0, 0, 0, 0, 0, 0, 0, 255, 255, 1, 2, 3, 4];
    assert V4Mapped(o);
  }

  /** Writing and reading back is the identity exactly on canonical addresses. */
  lemma RoundTrip(c: Codec, text: IpText, a: Address, port: U16, rest: Bytes)
    ensures (&& Write(c, a, port).Some?
             && Read(c, text, Write(c, a, port).value + rest) == Done((a, port), rest))
            <==> Canonical(text, a)
  {
    if WriteAddress(c, a).Some? {
      hide ReadAddress, WriteAddress, Canonical;
      var w := WriteAddress(c, a).value;
      if c.order.PortFirst? {
        AddressRoundTrip(c, text, a, rest);
        var buf := Be16(port) + w + rest;
        assert buf == Be16(port) + (w + rest);
        assert buf[..2] == Be16(port) && FromBe16(buf) == port && buf[2..] == w + rest;
      } else {
        var tail := Be16(port) + rest;
        AddressRoundTrip(c, text, a, tail);
        assert w + Be16(port) + rest == w + tail;
        assert tail[..2] == Be16(port) && FromBe16(tail) == port && tail[2..] == rest;
      }
    }
  }

  lemma WriteLength(c: Codec, a: Address, port: U16)
    requires Write(c, a, port).Some?
    ensures 4 <= |Write(c, a, port).value| <= 259
  {
  }

  /** The address codec refuses only address types and domains. */
  lemma ReadNeverAuth(c: Codec, text: IpText, buf: Bytes)
    ensures Read(c, text, buf).Bad? ==> Read(c, text, buf).error.BadAddressType? || Read(c, text, buf).error.BadDomain?
  {
    hide FromV6Bytes;
  }

  /** A domain may hold letters, digits, dashes, dots and underscores, and nothing else. */
  lemma DomainCharacters(c: char)
    requires c as int < 256
    ensures DomainByte(c as int) <==>
              'a' <= c <= 'z' || 'A' <= c <= 'Z' || '0' <= c <= '9' || c == '-' || c == '.' || c == '_'
  {
  }

  /** The bytes on the wire. VLESS: port, then type 1, 2 or 3 for v4, domain and v6; Trojan and Shadowsocks: type 1, 3
      or 4, then the port. Ports and lengths have the high byte first. */
  lemma WireForm(a: Address, port: U16)
    requires a.Domain? ==> |a.name| <= 255
    ensures var p: Bytes := [port / 256, port % 256];
            match a
            case Ip(V4(o)) =>
              && Write(VLESS, a, port) == Some(p + [1] + o)
              && Write(TROJAN, a, port) == Some([1] + o + p) && Write(SHADOWSOCKS, a, port) == Some([1] + o + p)
            case Ip(V6(o)) =>
              && Write(VLESS, a, port) == Some(p + [3] + o)
              && Write(TROJAN, a, port) == Some([4] + o + p) && Write(SHADOWSOCKS, a, port) == Some([4] + o + p)
            case Domain(d) =>
              && Write(VLESS, a, port) == Some(p + [2, |d|] + d)
              && Write(TROJAN, a, port) == Some([3, |d|] + d + p)
              && Write(SHADOWSOCKS, a, port) == Some([3, |d|] + d + p)
  {
    var p: Bytes := [port / 256, port % 256];
    assert Be16(port) == p;
    if a.Domain? {
      assert p + ([2, |a.name|] + a.name) == p + [2, |a.name|] + a.name;
    } else if a.ip.V4? {
      assert p + ([1] + a.ip.v4) == p + [1] + a.ip.v4;
    } else {
      assert p + ([3] + a.ip.v6) == p + [3] + a.ip.v6;
    }
  }

  /** Shadowsocks looks only at the low four bits of the type; the others refuse what they do not know. */
  lemma TypeByte(text: IpText, t: Byte, rest: Bytes)
    ensures ReadAddress(SHADOWSOCKS, text, [t] + rest) == ReadAddress(SHADOWSOCKS, text, [t % 16] + rest)
    ensures t !in {1, 3, 4} ==> ReadAddress(TROJAN, text, [t] + rest) == Bad(BadAddressType(t))
    ensures t !in {1, 2, 3} ==> ReadAddress(VLESS, text, [t] + rest) == Bad(BadAddressType(t))
  {
    hide ReadKind;
    assert ([t] + rest)[1..] == rest && ([t % 16] + rest)[1..] == rest;
  }

  /** A v4-mapped address is ten zeros, two bytes 255, and the v4 address. */
  lemma MappedForm(o: Octets16)
    ensures V4Mapped(o) <==> o == [0, 0, 0, 0, 0, 0, 0, 0, 0, 0, 255, 255] + o[12..]
  {
    var front: Bytes := [0, 0, 0, 0, 0, 0, 0, 0, 0, 0, 255, 255];
    assert o == o[..12] + o[12..];
    if V4Mapped(o) {
      assert o[..12] == front;
    }
    assert forall i :: 0 <= i < 12 ==> (front + o[12..])[i] == front[i];
  }

  /** What a domain field reads as: an empty one is refused; one that begins with a digit or a bracket and spells an
      address is that address; any other must consist of domain characters. */
  lemma DomainReads(text: IpText, d: Bytes, rest: Bytes)
    requires |d| <= 255
    ensures ReadDomain(text, [|d|] + (d + rest))
            == if d == [] then Bad(BadDomain)
               else if (d[0] == '[' as int || '0' as int <= d[0] <= '9' as int) && text(d).Some? then
                 Done(Ip(text(d).value), rest)
               else if exists i :: 0 <= i < |d| && !DomainByte(d[i]) then Bad(BadDomain)
               else Done(Domain(d), rest)
  {
    var buf := [|d|] + (d + rest);
    assert buf[0] == |d| && buf[1..] == d + rest;
    assert (d + rest)[..|d|] == d && (d + rest)[|d|..] == rest;
  }

  lemma TakeStable(buf: Bytes, n: nat, more: Bytes)
    ensures Settled(Take(buf, n), Take(buf + more, n), buf, more)
  {
    if n <= |buf| {
      assert (buf + more)[..n] == buf[..n] && (buf + more)[n..] == buf[n..] + more;
    }
  }

  lemma FrontKept(buf: Bytes, n: nat, more: Bytes)
    ensures n <= |buf| ==> (buf + more)[..n] == buf[..n] && (buf + more)[n..] == buf[n..] + more
  {
  }

  lemma ReadPortStable(buf: Bytes, more: Bytes)
    ensures Settled(ReadPort(buf), ReadPort(buf + more), buf, more)
  {
    if |buf| >= 2 {
      assert (buf + more)[2..] == buf[2..] + more;
    }
  }

  lemma ReadDomainStable(text: IpText, buf: Bytes, more: Bytes)
    ensures Settled(ReadDomain(text, buf), ReadDomain(text, buf + more), buf, more)
    ensures ReadDomain(text, buf).Truncated? ==> |buf| < 256
    ensures ReadDomain(text, buf).Done? ==> 2 <= |buf| - |ReadDomain(text, buf).rest| <= 256
  {
    if buf != [] {
      assert (buf + more)[1..] == buf[1..] + more;
      TakeStable(buf[1..], buf[0], more);
    }
  }

  lemma ReadKindStable(text: IpText, kind: Kind, buf: Bytes, more: Bytes)
    ensures Settled(ReadKind(text, kind, buf), ReadKind(text, kind, buf + more), buf, more)
    ensures ReadKind(text, kind, buf).Truncated? ==> |buf| < 256
    ensures ReadKind(text, kind, buf).Done? ==> 2 <= |buf| - |ReadKind(text, kind, buf).rest| <= 256
  {
    hide ReadDomain, FromV6Bytes;
    match kind
    case Ipv4Kind => FrontKept(buf, 4, more);
    case Ipv6Kind => FrontKept(buf, 16, more);
    case DomainKind => ReadDomainStable(text, buf, more);
  }

  lemma ReadAddressStable(c: Codec, text: IpText, buf: Bytes, more: Bytes)
    ensures Settled(ReadAddress(c, text, buf), ReadAddress(c, text, buf + more), buf, more)
    ensures ReadAddress(c, text, buf).Truncated? ==> |buf| < 257
    ensures ReadAddress(c, text, buf).Done? ==> 2 <= |buf| - |ReadAddress(c, text, buf).rest| <= 257
  {
    hide ReadKind;
    if buf != [] {
      FrontKept(buf, 1, more);
      assert (buf + more)[0] == buf[0];
      var kind := KindOf(c.family, if c.mask then buf[0] % 16 else buf[0]);
      if kind.Some? {
        ReadKindStable(text, kind.value, buf[1..], more);
      }
    }
  }

  /** The address codec never changes its mind, and asks for more only below 259 bytes. */
  lemma ReadStable(c: Codec, text: IpText, buf: Bytes, more: Bytes)
    ensures Settled(Read(c, text, buf), Read(c, text, buf + more), buf, more)
    ensures Read(c, text, buf).Truncated? ==> |buf| < 259
    ensures Read(c, text, buf).Done? ==> 4 <= |buf| - |Read(c, text, buf).rest| <= 259
  {
    hide ReadAddress;
    if c.order.PortFirst? {
      ReadPortStable(buf, more);
      if |buf| >= 2 {
        ReadAddressStable(c, text, buf[2..], more);
      }
    } else {
      ReadAddressStable(c, text, buf, more);
      var r := ReadAddress(c, text, buf);
      if r.Done? {
        ReadPortStable(r.rest, more);
      }
    }
  }
}
