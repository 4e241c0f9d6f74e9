/** UDP packets framed on a stream, for Trojan and VLESS. */
module UdpFrames {
  import opened Common
  import opened Io
  import opened Parse
  import opened Addr

  datatype Packet = Packet(target: Destination, payload: Bytes)

  /** Length, line break and payload, after the address of a Trojan packet. */
  function ParseTrojanPayload(target: Destination, buf: Bytes): Parsed<Packet> {
    match ReadPort(buf)
    case Truncated => Truncated
    case Bad(e) => Bad(e)
    case Done(len, b1) =>
      match Take(b1, 2)
      case Truncated => Truncated
      case Bad(e) => Bad(e)
      case Done(_, b2) =>
        match Take(b2, len)
        case Truncated => Truncated
        case Bad(e) => Bad(e)
        case Done(payload, b3) => Done(Packet(target, payload), b3)
  }

  function ParseTrojanPacket(text: IpText, buf: Bytes): Parsed<Packet> {
    match Read(TROJAN, text, buf)
    case Truncated => Truncated
    case Bad(e) => Bad(e)
    case Done((address, port), rest) => ParseTrojanPayload(Destination(Udp, address, port), rest)
  }

  function ParseVlessPacket(buf: Bytes): Parsed<Bytes> {
    match ReadPort(buf)
    case Truncated => Truncated
    case Bad(e) => Bad(e)
    case Done(len, rest) => Take(rest, len)
  }

  /** The Trojan downlink encoder; payloads whose length does not fit in a u16 are skipped. */
  function EncodeTrojanPacket(target: Destination, payload: Bytes): Option<Bytes> {
    if |payload| > 0xFFFF then None
    else
      match Write(TROJAN, target.address, target.port)
      case None => None
      case Some(a) => Some(a + Be16(|payload|) + [13, 10] + payload)
  }

  function EncodeVlessPacket(payload: Bytes): Option<Bytes> {
    if |payload| > 0xFFFF then None else Some(Be16(|payload|) + payload)
  }

  // ---- one packet ----

  lemma TrojanPayloadStable(target: Destination, buf: Bytes, more: Bytes)
    ensures Settled(ParseTrojanPayload(target, buf), ParseTrojanPayload(target, buf + more), buf, more)
  {
    ReadPortStable(buf, more);
    if |buf| >= 4 {
      TakeStable(buf[2..], 2, more);
      TakeStable(buf[2..][2..], FromBe16(buf), more);
    }
  }

  lemma TrojanPacketStable(text: IpText, buf: Bytes, more: Bytes)
    ensures Settled(ParseTrojanPacket(text, buf), ParseTrojanPacket(text, buf + more), buf, more)
    ensures ParseTrojanPacket(text, buf).Done? ==> |ParseTrojanPacket(text, buf).rest| < |buf|
  {
    hide Read, ParseTrojanPayload;
    ReadStable(TROJAN, text, buf, more);
    var r := Read(TROJAN, text, buf);
    if r.Done? {
      TrojanPayloadStable(Destination(Udp, r.value.0, r.value.1), r.rest, more);
    }
  }

  lemma VlessPacketStable(buf: Bytes, more: Bytes)
    ensures Settled(ParseVlessPacket(buf), ParseVlessPacket(buf + more), buf, more)
    ensures ParseVlessPacket(buf).Done? ==> |ParseVlessPacket(buf).rest| < |buf|
  {
    ReadPortStable(buf, more);
    if |buf| >= 2 {
      TakeStable(buf[2..], FromBe16(buf), more);
    }
  }

  /** A packet from a canonical address comes back whole, wherever the stream continues. */
  lemma TrojanPacketRoundTrip(text: IpText, target: Destination, payload: Bytes, rest: Bytes)
    requires Canonical(text, target.address) && target.network == Udp && |payload| <= 0xFFFF
    ensures EncodeTrojanPacket(target, payload).Some?
    ensures ParseTrojanPacket(text, EncodeTrojanPacket(target, payload).value + rest)
            == Done(Packet(target, payload), rest)
  {
    hide Canonical, Write, Read;
    var tail := Be16(|payload|) + [13, 10] + payload + rest;
    RoundTrip(TROJAN, text, target.address, target.port, tail);
    var a := Write(TROJAN, target.address, target.port).value;
    assert a + Be16(|payload|) + [13, 10] + payload + rest == a + tail;
    assert tail[..2] == Be16(|payload|) && FromBe16(tail) == |payload|;
    assert tail[2..] == [13, 10] + payload + rest;
    assert tail[2..][2..] == payload + rest;
    assert (payload + rest)[..|payload|] == payload && (payload + rest)[|payload|..] == rest;
  }

  lemma VlessPacketRoundTrip(payload: Bytes, rest: Bytes)
    requires |payload| <= 0xFFFF
    ensures ParseVlessPacket(EncodeVlessPacket(payload).value + rest) == Done(payload, rest)
  {
    var buf := Be16(|payload|) + payload + rest;
    assert buf[..2] == Be16(|payload|) && FromBe16(buf) == |payload| && buf[2..] == payload + rest;
    assert (payload + rest)[..|payload|] == payload && (payload + rest)[|payload|..] == rest;
  }

  /** The bytes of a Trojan packet: address, length, line break, payload. The reader takes any two bytes for the line
      break. */
  lemma TrojanPacketBytes(text: IpText, target: Destination, payload: Bytes, x: Byte, y: Byte, rest: Bytes)
    requires Canonical(text, target.address) && target.network == Udp && |payload| <= 0xFFFF
    ensures var w, n := Write(TROJAN, target.address, target.port), |payload|;
            && w.Some?
            && EncodeTrojanPacket(target, payload) == Some(w.value + [n / 256, n % 256, 13, 10] + payload)
            && ParseTrojanPacket(text, w.value + [n / 256, n % 256, x, y] + payload + rest)
               == Done(Packet(target, payload), rest)
  {
    hide Canonical, Write, Read;
    var n := |payload|;
    var tail := Be16(n) + [x, y] + payload + rest;
    RoundTrip(TROJAN, text, target.address, target.port, tail);
    var w := Write(TROJAN, target.address, target.port).value;
    assert Be16(n) == [n / 256, n % 256];
    assert w + Be16(n) + [13, 10] + payload == w + [n / 256, n % 256, 13, 10] + payload;
    assert w + [n / 256, n % 256, x, y] + payload + rest == w + tail;
    assert tail[..2] == Be16(n) && FromBe16(tail) == n && tail[2..] == [x, y] + payload + rest;
    assert tail[2..][2..] == payload + rest;
    assert (payload + rest)[..n] == payload && (payload + rest)[n..] == rest;
  }

  // ---- packet streams ----

  ghost predicate Progress<T(!new)>(parse: Bytes -> Parsed<T>) {
    forall buf: Bytes :: parse(buf).Done? ==> |parse(buf).rest| < |buf|
  }

  /** Every packet at the front of `input`, up to the first that is incomplete or refused. */
  ghost function PacketsOf<T(!new)>(parse: Bytes -> Parsed<T>, input: Bytes): seq<T>
    requires Progress(parse)
    decreases |input|
  {
    match parse(input)
    case Done(v, rest) => [v] + PacketsOf(parse, rest)
    case Truncated => []
    case Bad(_) => []
  }

  function TrojanWire(packets: seq<Packet>): Bytes
    requires forall i :: 0 <= i < |packets| ==> EncodeTrojanPacket(packets[i].target, packets[i].payload).Some?
  {
    if packets == [] then []
    else EncodeTrojanPacket(packets[0].target, packets[0].payload).value + TrojanWire(packets[1..])
  }

  function VlessWire(payloads: seq<Bytes>): Bytes
    requires forall i :: 0 <= i < |payloads| ==> |payloads[i]| <= 0xFFFF
  {
    if payloads == [] then [] else EncodeVlessPacket(payloads[0]).value + VlessWire(payloads[1..])
  }

  function TrojanParser(text: IpText): Bytes -> Parsed<Packet> { (b: Bytes) => ParseTrojanPacket(text, b) }

  lemma TrojanProgress(text: IpText)
    ensures Progress(TrojanParser(text))
  {
    forall buf: Bytes ensures TrojanParser(text)(buf).Done? ==> |TrojanParser(text)(buf).rest| < |buf| {
      TrojanPacketStable(text, buf, []);
    }
  }

  /** A stream of encoded packets is cut back into exactly those packets. */
  lemma {:induction false} TrojanStreamRoundTrip(text: IpText, packets: seq<Packet>)
    requires forall i :: 0 <= i < |packets| ==>
      && Canonical(text, packets[i].target.address) && packets[i].target.network == Udp
      && |packets[i].payload| <= 0xFFFF
      && EncodeTrojanPacket(packets[i].target, packets[i].payload).Some?
    ensures Progress(TrojanParser(text))
    ensures PacketsOf(TrojanParser(text), TrojanWire(packets)) == packets
  {
    hide ParseTrojanPacket, EncodeTrojanPacket, Canonical;
    TrojanProgress(text);
    if packets != [] {
      TrojanPacketRoundTrip(text, packets[0].target, packets[0].payload, TrojanWire(packets[1..]));
      TrojanStreamRoundTrip(text, packets[1..]);
      assert packets == [Packet(packets[0].target, packets[0].payload)] + packets[1..];
    }
  }

  lemma VlessProgress()
    ensures Progress(ParseVlessPacket)
  {
    forall buf: Bytes ensures ParseVlessPacket(buf).Done? ==> |ParseVlessPacket(buf).rest| < |buf| {
      VlessPacketStable(buf, []);
    }
  }

  lemma {:induction false} VlessStreamRoundTrip(payloads: seq<Bytes>)
    requires forall i :: 0 <= i < |payloads| ==> |payloads[i]| <= 0xFFFF
    ensures Progress(ParseVlessPacket)
    ensures PacketsOf(ParseVlessPacket, VlessWire(payloads)) == payloads
  {
    hide ParseVlessPacket, EncodeVlessPacket;
    VlessProgress();
    if payloads != [] {
      VlessPacketRoundTrip(payloads[0], VlessWire(payloads[1..]));
      VlessStreamRoundTrip(payloads[1..]);
      assert payloads == [payloads[0]] + payloads[1..];
    }
  }

  // ---- the buffered reader ----

  datatype FrameError = Refused(error: Error) | UnexpectedEof

  class Framed {
    const conn: Conn
    var buf: Bytes

    constructor (conn: Conn, init: Bytes)
      ensures this.conn == conn && buf == init
    {
      this.conn, buf := conn, init;
    }

    /** Bytes held plus bytes still to come. */
    ghost function Input(): Bytes
      reads this, conn
    {
      buf + conn.Unread()
    }

    /** One packet off the front of the input, whatever the cuts; nothing is lost on the way. */
    method Frame<T(!new)>(parse: Bytes -> Parsed<T>) returns (r: Result<T, FrameError>)
      requires conn.Valid() && Stable(parse)
      modifies this, conn
      ensures conn.Valid()
      ensures match parse(old(Input()))
              case Done(v, rest) => r == Ok(v) && Input() == rest
              case Truncated => r == Err(UnexpectedEof) && Input() == old(Input())
              case Bad(e) => r == Err(Refused(e)) && Input() == old(Input())
    {
      ghost var input := Input();
      while true
        invariant conn.Valid() && Input() == input
        decreases |conn.Unread()|
      {
        assert Settled(parse(buf), parse(buf + conn.Unread()), buf, conn.Unread());
        match parse(buf) {
          case Done(v, view) =>
            var consumed := |buf| - |view|;
            buf := buf[consumed..];
            return Ok(v);
          case Truncated =>
          case Bad(e) =>
            return Err(Refused(e));
        }
        var chunk := conn.Read(4096);
        if chunk == [] {
          assert buf == input;
          return Err(UnexpectedEof);
        }
        buf := buf + chunk;
      }
    }

    /** The uplink loop: hands on packet after packet until the stream ends or is refused, or until a packet cannot be
        resolved or sent, which happens after `sends` of them. */
    method Relay<T(!new)>(parse: Bytes -> Parsed<T>, sends: nat) returns (packets: seq<T>)
      requires conn.Valid() && Stable(parse) && Progress(parse)
      modifies this, conn
      ensures var all := PacketsOf(parse, old(Input())); packets == all[..Min(sends, |all|)]
    {
      packets := [];
      ghost var all := PacketsOf(parse, Input());
      while true
        invariant conn.Valid() && |packets| <= sends && packets + PacketsOf(parse, Input()) == all
        decreases |Input()|
      {
        ghost var before := packets;
        ghost var rest := PacketsOf(parse, Input());
        var r := Frame(parse);
        if r.Err? {
          assert rest == [];
          return;
        }
        if |packets| == sends {
          assert all[..sends] == packets;
          return;
        }
        packets := packets + [r.value];
        assert rest == [r.value] + PacketsOf(parse, Input());
        assert packets + PacketsOf(parse, Input()) == before + rest;
      }
    }
  }

  /** The Trojan uplink hands on exactly the packets of its byte stream, whatever the cuts, up to a failed send. */
  method RelayTrojan(framed: Framed, text: IpText, sends: nat) returns (packets: seq<Packet>)
    requires framed.conn.Valid()
    modifies framed, framed.conn
    ensures Progress(TrojanParser(text))
    ensures var all := PacketsOf(TrojanParser(text), old(framed.Input())); packets == all[..Min(sends, |all|)]
  {
    var parse := TrojanParser(text);
    forall buf: Bytes, more: Bytes ensures Settled(parse(buf), parse(buf + more), buf, more) {
      TrojanPacketStable(text, buf, more);
    }
    TrojanProgress(text);
    packets := framed.Relay(parse, sends);
  }

  /** The VLESS uplink likewise. */
  method RelayVless(framed: Framed, sends: nat) returns (payloads: seq<Bytes>)
    requires framed.conn.Valid()
    modifies framed, framed.conn
    ensures Progress(ParseVlessPacket)
    ensures var all := PacketsOf(ParseVlessPacket, old(framed.Input())); payloads == all[..Min(sends, |all|)]
  {
    forall buf: Bytes, more: Bytes ensures Settled(ParseVlessPacket(buf), ParseVlessPacket(buf + more), buf, more) {
      VlessPacketStable(buf, more);
    }
    VlessProgress();
    payloads := framed.Relay(ParseVlessPacket, sends);
  }
}
