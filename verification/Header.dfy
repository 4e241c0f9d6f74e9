/** Reading a header by re-running a pure parser on a growing buffer. */
module Header {
  import opened Common
  import opened Io
  import opened Parse

  const READ_SIZE: nat := 4096

  datatype HeaderError = Refused(error: Error) | TooLarge | UnexpectedEof

  /** The parser never asks for more once it holds `max` bytes. */
  ghost predicate Bounded<T(!new)>(parse: Bytes -> Parsed<T>, max: nat) {
    forall buf: Bytes :: parse(buf).Truncated? ==> |buf| < max
  }

  /** Some beginning of the input holds `max` bytes and is still not enough for the parser. */
  ghost predicate StillAsking<T(!new)>(parse: Bytes -> Parsed<T>, max: nat, input: Bytes) {
    exists k :: max <= k <= |input| && parse(input[..k]).Truncated?
  }

  /** The answer a header deserves, judged on the whole input at once. */
  ghost predicate Verdict<T(!new)>(
    parse: Bytes -> Parsed<T>, input: Bytes, r: Result<(T, Bytes), HeaderError>, unread: Bytes)
  {
    match parse(input)
    case Done(v, rest) => r.Ok? && r.value.0 == v && r.value.1 + unread == rest
    case Truncated => r == Err(UnexpectedEof) && unread == []
    case Bad(e) => r == Err(Refused(e))
  }

  /** Reads until the parser accepts or refuses: the result does not depend on how the input was cut. */
  method ReadHeader<T(!new)>(conn: Conn, max: nat, parse: Bytes -> Parsed<T>)
    returns (r: Result<(T, Bytes), HeaderError>)
    requires conn.Valid() && Stable(parse)
    modifies conn
    ensures conn.Valid()
    ensures r != Err(TooLarge) ==> Verdict(parse, old(conn.Unread()), r, conn.Unread())
    ensures r == Err(TooLarge) ==> StillAsking(parse, max, old(conn.Unread()))
    ensures Bounded(parse, max) ==> r != Err(TooLarge)
    decreases |conn.Unread()|
  {
    var acc: Bytes := [];
    ghost var input := conn.Unread();
    while true
      invariant conn.Valid() && acc + conn.Unread() == input
      decreases |conn.Unread()|
    {
      ghost var after := parse(acc + conn.Unread());
      match parse(acc) {
        case Done(v, view) =>
          assert Settled(parse(acc), after, acc, conn.Unread());
          var consumed := |acc| - |view|;
          return Ok((v, acc[consumed..]));
        case Truncated =>
        case Bad(e) =>
          assert Settled(parse(acc), after, acc, conn.Unread());
          return Err(Refused(e));
      }
      if |acc| >= max {
        assert acc == input[..|acc|];
        return Err(TooLarge);
      }
      var chunk := conn.Read(READ_SIZE);
      if chunk == [] {
        assert acc == input;
        return Err(UnexpectedEof);
      }
      acc := acc + chunk;
    }
  }
}

/** The Trojan request header. */
module Trojan {
  import opened Common
  import opened Io
  import opened Parse
  import opened Addr
  import opened Header

  const CMD_UDP: Byte := 3

  /** Users by their 56-byte key, with the email each one is accounted under. */
  type Users = map<Bytes, Bytes>

  function ParseRequest(text: IpText, email: Bytes, buf: Bytes): Parsed<(Destination, Bytes)> {
    match Take(buf, 2)
    case Truncated => Truncated
    case Bad(e) => Bad(e)
    case Done(_, b1) =>
      match TakeU8(b1)
      case Truncated => Truncated
      case Bad(e) => Bad(e)
      case Done(cmd, b2) =>
        match Read(TROJAN, text, b2)
        case Truncated => Truncated
        case Bad(e) => Bad(e)
        case Done((address, port), b3) =>
          match Take(b3, 2)
          case Truncated => Truncated
          case Bad(e) => Bad(e)
          case Done(_, b4) =>
            Done((Destination(if cmd == CMD_UDP then Udp else Tcp, address, port), email), b4)
  }

  function ParseHeader(users: Users, text: IpText, buf: Bytes): Parsed<(Destination, Bytes)> {
    match Take(buf, 56)
    case Truncated => Truncated
    case Bad(e) => Bad(e)
    case Done(key, rest) => if key !in users then Bad(Auth) else ParseRequest(text, users[key], rest)
  }

  lemma RequestStable(text: IpText, email: Bytes, buf: Bytes, more: Bytes)
    ensures Settled(ParseRequest(text, email, buf), ParseRequest(text, email, buf + more), buf, more)
    ensures ParseRequest(text, email, buf).Truncated? ==> |buf| < 264
  {
    hide Read;
    if |buf| >= 3 {
      var b2 := buf[2..][1..];
      assert b2 == buf[3..];
      assert (buf + more)[2..] == buf[2..] + more;
      assert (buf[2..] + more)[1..] == b2 + more;
      ReadStable(TROJAN, text, b2, more);
      var r := Read(TROJAN, text, b2);
      if r.Done? {
        TakeStable(r.rest, 2, more);
      }
    }
  }

  lemma HeaderStable(users: Users, text: IpText, buf: Bytes, more: Bytes)
    ensures Settled(ParseHeader(users, text, buf), ParseHeader(users, text, buf + more), buf, more)
    ensures ParseHeader(users, text, buf).Truncated? ==> |buf| < 320
  {
    hide ParseRequest;
    TakeStable(buf, 56, more);
    if |buf| >= 56 && buf[..56] in users {
      RequestStable(text, users[buf[..56]], buf[56..], more);
    }
  }

  /** A request as a client writes it: key, line break, command, address, line break. */
  function RequestBytes(key: Bytes, cmd: Byte, address: Bytes): Bytes { key + [13, 10, cmd] + address + [13, 10] }

  /** A known key gives its own user and the client's target, over UDP exactly for command 3, and leaves what follows;
      an unknown key is refused. */
  lemma RequestRead(users: Users, text: IpText, key: Bytes, cmd: Byte, a: Address, port: U16, rest: Bytes)
    requires |key| == 56 && Canonical(text, a)
    ensures Write(TROJAN, a, port).Some?
    ensures ParseHeader(users, text, RequestBytes(key, cmd, Write(TROJAN, a, port).value) + rest)
            == if key in users then Done((Destination(if cmd == 3 then Udp else Tcp, a, port), users[key]), rest)
               else Bad(Auth)
  {
    hide Canonical, Write, Read;
    var tail: Bytes := [13, 10] + rest;
    RoundTrip(TROJAN, text, a, port, tail);
    var w := Write(TROJAN, a, port).value;
    var buf := RequestBytes(key, cmd, w) + rest;
    assert buf[..56] == key && buf[56..] == [13, 10, cmd] + (w + tail);
    assert buf[56..][2..] == [cmd] + (w + tail) && buf[56..][2..][1..] == w + tail;
    assert tail[2..] == rest;
  }

  /** Authentication fails exactly on 56 bytes that are no user's key. */
  lemma AuthExactly(users: Users, text: IpText, buf: Bytes)
    ensures ParseHeader(users, text, buf) == Bad(Auth) <==> |buf| >= 56 && buf[..56] !in users
  {
    hide Read;
    if |buf| >= 59 && buf[..56] in users {
      ReadNeverAuth(TROJAN, text, buf[56..][2..][1..]);
    }
  }

  /** However the network cuts the input, a Trojan header is judged on its bytes alone. */
  method ReadTrojanHeader(conn: Conn, users: Users, text: IpText)
    returns (r: Result<((Destination, Bytes), Bytes), HeaderError>)
    requires conn.Valid()
    modifies conn
    ensures conn.Valid()
    ensures Verdict(b => ParseHeader(users, text, b), old(conn.Unread()), r, conn.Unread())
  {
    var parse := (b: Bytes) => ParseHeader(users, text, b);
    forall buf: Bytes, more: Bytes
      ensures Settled(parse(buf), parse(buf + more), buf, more)
      ensures parse(buf).Truncated? ==> |buf| < 16384
    {
      HeaderStable(users, text, buf, more);
    }
    assert Bounded(parse, 16384) by {
      forall buf: Bytes ensures parse(buf).Truncated? ==> |buf| < 16384 {
        HeaderStable(users, text, buf, []);
      }
    }
    r := ReadHeader(conn, 16384, parse);
  }
}

/** The VLESS request header. */
module Vless {
  import opened Common
  import opened Io
  import opened Parse
  import opened Addr
  import opened Header

  const CMD_TCP: Byte := 1
  const CMD_UDP: Byte := 2
  const CMD_MUX: Byte := 3

  type Users = map<Bytes, Bytes>

  datatype Request = TcpTo(dest: Destination) | UdpTo(dest: Destination) | Mux

  function ParseCommand(text: IpText, email: Bytes, buf: Bytes): Parsed<(Request, Bytes)> {
    match TakeU8(buf)
    case Truncated => Truncated
    case Bad(e) => Bad(e)
    case Done(cmd, rest) =>
      if cmd == CMD_TCP || cmd == CMD_UDP then
        match Read(VLESS, text, rest)
        case Truncated => Truncated
        case Bad(e) => Bad(e)
        case Done((address, port), rest') =>
          Done((if cmd == CMD_TCP then TcpTo(Destination(Tcp, address, port))
                else UdpTo(Destination(Udp, address, port)), email), rest')
      else if cmd == CMD_MUX then Done((Mux, email), rest)
      else Bad(BadCommand)
  }

  function ParseAddons(text: IpText, email: Bytes, buf: Bytes): Parsed<(Request, Bytes)> {
    match TakeU8(buf)
    case Truncated => Truncated
    case Bad(e) => Bad(e)
    case Done(n, rest) =>
      match Take(rest, n)
      case Truncated => Truncated
      case Bad(e) => Bad(e)
      case Done(_, rest') => ParseCommand(text, email, rest')
  }

  function ParseHeader(users: Users, text: IpText, buf: Bytes): Parsed<(Request, Bytes)> {
    match TakeU8(buf)
    case Truncated => Truncated
    case Bad(e) => Bad(e)
    case Done(ver, rest) =>
      if ver != 0 then Bad(BadVersion)
      else
        match Take(rest, 16)
        case Truncated => Truncated
        case Bad(e) => Bad(e)
        case Done(id, rest') => if id !in users then Bad(Auth) else ParseAddons(text, users[id], rest')
  }

  lemma CommandStable(text: IpText, email: Bytes, buf: Bytes, more: Bytes)
    ensures Settled(ParseCommand(text, email, buf), ParseCommand(text, email, buf + more), buf, more)
    ensures ParseCommand(text, email, buf).Truncated? ==> |buf| < 260
  {
    hide Read;
    if buf != [] {
      assert (buf + more)[1..] == buf[1..] + more;
      ReadStable(VLESS, text, buf[1..], more);
    }
  }

  lemma AddonsStable(text: IpText, email: Bytes, buf: Bytes, more: Bytes)
    ensures Settled(ParseAddons(text, email, buf), ParseAddons(text, email, buf + more), buf, more)
    ensures ParseAddons(text, email, buf).Truncated? ==> |buf| < 516
  {
    hide ParseCommand;
    if buf != [] {
      assert (buf + more)[1..] == buf[1..] + more;
      TakeStable(buf[1..], buf[0], more);
      if |buf[1..]| >= buf[0] {
        CommandStable(text, email, buf[1..][buf[0]..], more);
      }
    }
  }

  /** A VLESS header is settled once it parses, and fewer than 533 bytes are held while it does not. */
  lemma HeaderStable(users: Users, text: IpText, buf: Bytes, more: Bytes)
    ensures Settled(ParseHeader(users, text, buf), ParseHeader(users, text, buf + more), buf, more)
    ensures ParseHeader(users, text, buf).Truncated? ==> |buf| < 533
  {
    hide ParseAddons;
    if buf != [] {
      assert (buf + more)[1..] == buf[1..] + more;
      TakeStable(buf[1..], 16, more);
      if |buf| >= 17 && buf[1..][..16] in users {
        AddonsStable(text, users[buf[1..][..16]], buf[1..][16..], more);
      }
    }
  }

  /** A request as a client writes it: version, id, addons, command, and for TCP and UDP the address. */
  function RequestBytes(id: Bytes, addons: Bytes, cmd: Byte, address: Bytes): Bytes
    requires |addons| <= 255
  {
    [0] + id + [|addons|] + addons + [cmd] + address
  }

  /** A known id gives its own user and, for commands 1 and 2, the client's target over TCP and UDP, whatever the
      addons; an unknown id is refused. */
  lemma RequestRead(users: Users, text: IpText, id: Bytes, addons: Bytes, a: Address, port: U16, udp: bool, rest: Bytes)
    requires |id| == 16 && |addons| <= 255 && Canonical(text, a)
    ensures Write(VLESS, a, port).Some?
    ensures ParseHeader(users, text, RequestBytes(id, addons, if udp then 2 else 1, Write(VLESS, a, port).value) + rest)
            == if id !in users then Bad(Auth)
               else if udp then Done((UdpTo(Destination(Udp, a, port)), users[id]), rest)
               else Done((TcpTo(Destination(Tcp, a, port)), users[id]), rest)
  {
    hide Canonical, Write, Read, ParseAddons;
    RoundTrip(VLESS, text, a, port, rest);
    var w, cmd: Byte := Write(VLESS, a, port).value, if udp then 2 else 1;
    RequestFront(users, text, id, addons, cmd, w + rest);
    assert RequestBytes(id, addons, cmd, w) + rest == RequestBytes(id, addons, cmd, w + rest);
    if id in users {
      AddonsRead(text, users[id], addons, [cmd] + (w + rest));
      assert ([cmd] + (w + rest))[1..] == w + rest;
    }
  }

  /** Command 3 asks for a multiplexed connection and has no address; any other is refused. */
  lemma OtherCommandRead(users: Users, text: IpText, id: Bytes, addons: Bytes, cmd: Byte, rest: Bytes)
    requires |id| == 16 && |addons| <= 255 && id in users && cmd != 1 && cmd != 2
    ensures ParseHeader(users, text, RequestBytes(id, addons, cmd, rest))
            == if cmd == 3 then Done((Mux, users[id]), rest) else Bad(BadCommand)
  {
    hide Read, ParseAddons;
    RequestFront(users, text, id, addons, cmd, rest);
    AddonsRead(text, users[id], addons, [cmd] + rest);
    assert ([cmd] + rest)[1..] == rest;
  }

  lemma RequestFront(users: Users, text: IpText, id: Bytes, addons: Bytes, cmd: Byte, rest: Bytes)
    requires |id| == 16 && |addons| <= 255
    ensures ParseHeader(users, text, RequestBytes(id, addons, cmd, rest))
            == if id !in users then Bad(Auth) else ParseAddons(text, users[id], [|addons|] + (addons + ([cmd] + rest)))
  {
    hide ParseAddons;
    var tail := [|addons|] + (addons + ([cmd] + rest));
    var buf := RequestBytes(id, addons, cmd, rest);
    assert buf[0] == 0 && buf[1..] == id + tail;
    assert (id + tail)[..16] == id && (id + tail)[16..] == tail;
  }

  lemma AddonsRead(text: IpText, email: Bytes, addons: Bytes, rest: Bytes)
    requires |addons| <= 255
    ensures ParseAddons(text, email, [|addons|] + (addons + rest)) == ParseCommand(text, email, rest)
  {
    hide ParseCommand;
    var buf := [|addons|] + (addons + rest);
    assert buf[0] == |addons| && buf[1..] == addons + rest;
    assert (addons + rest)[..|addons|] == addons && (addons + rest)[|addons|..] == rest;
  }

  /** A first byte other than 0 is refused, and authentication fails exactly on an id that is no user's. */
  lemma RefusedExactly(users: Users, text: IpText, buf: Bytes)
    ensures ParseHeader(users, text, buf) == Bad(BadVersion) <==> |buf| >= 1 && buf[0] != 0
    ensures ParseHeader(users, text, buf) == Bad(Auth) <==> |buf| >= 17 && buf[0] == 0 && buf[1..17] !in users
  {
    hide ParseCommand;
    if |buf| >= 17 && buf[0] == 0 {
      assert buf[1..][..16] == buf[1..17];
      var tail := buf[1..][16..];
      if tail != [] && |tail[1..]| >= tail[0] {
        CommandNeverRefuses(text, [], tail[1..][tail[0]..]);
        if buf[1..17] in users {
          CommandNeverRefuses(text, users[buf[1..17]], tail[1..][tail[0]..]);
        }
      }
    }
  }

  lemma CommandNeverRefuses(text: IpText, email: Bytes, buf: Bytes)
    ensures ParseCommand(text, email, buf) != Bad(Auth) && ParseCommand(text, email, buf) != Bad(BadVersion)
  {
    hide Read;
    if buf != [] {
      ReadNeverAuth(VLESS, text, buf[1..]);
    }
  }

  /** However the network cuts the input, a VLESS header is judged on its bytes alone. */
  method ReadVlessHeader(conn: Conn, users: Users, text: IpText)
    returns (r: Result<((Request, Bytes), Bytes), HeaderError>)
    requires conn.Valid()
    modifies conn
    ensures conn.Valid()
    ensures Verdict(b => ParseHeader(users, text, b), old(conn.Unread()), r, conn.Unread())
  {
    var parse := (b: Bytes) => ParseHeader(users, text, b);
    forall buf: Bytes, more: Bytes
      ensures Settled(parse(buf), parse(buf + more), buf, more)
    {
      HeaderStable(users, text, buf, more);
    }
    assert Bounded(parse, 16384) by {
      forall buf: Bytes ensures parse(buf).Truncated? ==> |buf| < 16384 {
        HeaderStable(users, text, buf, []);
      }
    }
    r := ReadHeader(conn, 16384, parse);
  }
}
