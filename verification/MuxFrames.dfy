/** mux.cool frames: metadata, the frame reader, and the server's frame builders. */
module MuxFrames {
  import opened Common
  import opened Parse
  import opened Addr

  const ST_NEW: Byte := 1
  const ST_KEEP: Byte := 2
  const ST_END: Byte := 3
  const ST_KEEPALIVE: Byte := 4
  const OPT_DATA: Byte := 1
  const NET_TCP: Byte := 1
  const NET_UDP: Byte := 2
  const MAX_META: nat := 512
  const MAX_DATA: nat := 8192

  datatype Meta = Meta(sid: U16, status: Byte, option: Byte, target: Option<Destination>)

  datatype Frame = Frame(meta: Meta, data: Option<Bytes>)

  function ParseTarget(text: IpText, rest: Bytes): Option<Destination> {
    if rest == [] then None
    else
      match Read(VLESS, text, rest[1..])
      case Truncated => None
      case Bad(_) => None
      case Done((address, port), _) =>
        if rest[0] == NET_TCP then Some(Destination(Tcp, address, port))
        else if rest[0] == NET_UDP then Some(Destination(Udp, address, port))
        else None
  }

  /** A New frame must carry a target; a Keep frame may, when it is marked as UDP. */
  function ParseMeta(text: IpText, meta: Bytes): (r: Option<Meta>)
    ensures r.Some? && r.value.status == ST_NEW ==> r.value.target.Some?
  {
    if |meta| < 4 then None
    else
      var sid, status, option, rest := FromBe16(meta), meta[2], meta[3], meta[4..];
      if status == ST_NEW || (status == ST_KEEP && rest != [] && rest[0] == NET_UDP) then
        match ParseTarget(text, rest)
        case None => None
        case Some(t) => Some(Meta(sid, status, option, Some(t)))
      else Some(Meta(sid, status, option, None))
  }

  predicate HasData(option: Byte) { option % 2 == 1 }

  predicate Known(status: Byte) { ST_NEW <= status <= ST_KEEPALIVE }

  /** One frame off the front of the bytes; running dry before a frame starts is a clean close. */
  datatype FrameRead = Got(frame: Frame, rest: Bytes) | Closed | Broken

  function ReadData(meta: Meta, src: Bytes): FrameRead {
    if !HasData(meta.option) then Got(Frame(meta, None), src)
    else if |src| < 2 || FromBe16(src) > MAX_DATA || |src| - 2 < FromBe16(src) then Broken
    else Got(Frame(meta, Some(src[2..][..FromBe16(src)])), src[2..][FromBe16(src)..])
  }

  function ReadFrame(text: IpText, src: Bytes): FrameRead {
    if |src| < 2 then Closed
    else
      var metalen := FromBe16(src);
      if metalen == 0 || metalen > MAX_META || |src| - 2 < metalen then Broken
      else
        match ParseMeta(text, src[2..][..metalen])
        case None => Broken
        case Some(meta) =>
          match ReadData(meta, src[2..][metalen..])
          case Got(f, rest) => if Known(meta.status) then Got(f, rest) else Broken
          case Closed => Broken
          case Broken => Broken
  }

  lemma ReadFrameShrinks(text: IpText, src: Bytes)
    ensures ReadFrame(text, src).Got? ==> |ReadFrame(text, src).rest| < |src|
  {
  }

  /** All frames at the front of the bytes, and whether they end cleanly. */
  function AllFrames(text: IpText, src: Bytes): (seq<Frame>, bool)
    decreases |src|
  {
    match ReadFrame(text, src)
    case Got(f, rest) =>
      ReadFrameShrinks(text, src);
      var (more, clean) := AllFrames(text, rest);
      ([f] + more, clean)
    case Closed => ([], true)
    case Broken => ([], false)
  }

  /** Any frame, spelled out: metadata with its length, then data with its length when flagged. */
  function Encode(meta: Bytes, data: Option<Bytes>): Bytes
    requires |meta| <= 0xFFFF && (data.Some? ==> |data.value| <= 0xFFFF)
  {
    Be16(|meta|) + meta + (if data.Some? then Be16(|data.value|) + data.value else [])
  }

  /** Framing stays aligned: a frame within the limits reads back as itself, whatever its status. */
  lemma FrameRoundTrip(text: IpText, meta: Bytes, data: Option<Bytes>, rest: Bytes)
    requires 0 < |meta| <= MAX_META && (data.Some? ==> |data.value| <= MAX_DATA)
    requires ParseMeta(text, meta).Some? && Known(ParseMeta(text, meta).value.status)
    requires data.Some? <==> HasData(ParseMeta(text, meta).value.option)
    ensures ReadFrame(text, Encode(meta, data) + rest) == Got(Frame(ParseMeta(text, meta).value, data), rest)
  {
    hide ParseMeta, ReadData;
    var m := ParseMeta(text, meta).value;
    var tail := (if data.Some? then Be16(|data.value|) + data.value else []) + rest;
    var src := Encode(meta, data) + rest;
    assert src == Be16(|meta|) + (meta + tail);
    assert src[..2] == Be16(|meta|) && FromBe16(src) == |meta| && src[2..] == meta + tail;
    assert src[2..][..|meta|] == meta && src[2..][|meta|..] == tail;
    DataRoundTrip(m, data, rest);
  }

  lemma DataRoundTrip(m: Meta, data: Option<Bytes>, rest: Bytes)
    requires data.Some? ==> |data.value| <= MAX_DATA
    requires data.Some? <==> HasData(m.option)
    ensures ReadData(m, (if data.Some? then Be16(|data.value|) + data.value else []) + rest)
            == Got(Frame(m, data), rest)
  {
    if data.Some? {
      var d := data.value;
      var src := Be16(|d|) + d + rest;
      assert src[..2] == Be16(|d|) && FromBe16(src) == |d| && src[2..] == d + rest;
      assert (d + rest)[..|d|] == d && (d + rest)[|d|..] == rest;
    } else {
      assert [] + rest == rest;
    }
  }

  // ---- frame builders, server to client ----

  /** A length that does not fit becomes 0. */
  function KeepTcp(sid: U16, data: Bytes): Bytes {
    Be16(4) + Be16(sid) + [ST_KEEP, OPT_DATA] + Be16(if |data| <= 0xFFFF then |data| else 0) + data
  }

  function KeepUdp(sid: U16, target: Destination, data: Bytes): Option<Bytes> {
    match Write(VLESS, target.address, target.port)
    case None => None
    case Some(a) =>
      var meta := Be16(sid) + [ST_KEEP, OPT_DATA, NET_UDP] + a;
      if |meta| > 0xFFFF || |data| > 0xFFFF then None
      else Some(Be16(|meta|) + meta + Be16(|data|) + data)
  }

  function End(sid: U16): Bytes {
    Be16(4) + Be16(sid) + [ST_END, 0]
  }

  lemma KeepTcpReads(text: IpText, sid: U16, data: Bytes, rest: Bytes)
    requires |data| <= MAX_DATA
    ensures ReadFrame(text, KeepTcp(sid, data) + rest)
            == Got(Frame(Meta(sid, ST_KEEP, OPT_DATA, None), Some(data)), rest)
  {
    var meta := Be16(sid) + [ST_KEEP, OPT_DATA];
    assert meta[..2] == Be16(sid) && FromBe16(meta) == sid && meta[4..] == [];
    assert Encode(meta, Some(data)) == KeepTcp(sid, data);
    assert ParseMeta(text, meta) == Some(Meta(sid, ST_KEEP, OPT_DATA, None));
    hide ReadFrame, ParseMeta, Encode, KeepTcp;
    FrameRoundTrip(text, meta, Some(data), rest);
  }

  lemma EndReads(text: IpText, sid: U16, rest: Bytes)
    ensures ReadFrame(text, End(sid) + rest) == Got(Frame(Meta(sid, ST_END, 0, None), None), rest)
  {
    var meta := Be16(sid) + [ST_END, 0];
    assert meta[..2] == Be16(sid) && FromBe16(meta) == sid && meta[4..] == [];
    assert Encode(meta, None) == End(sid);
    assert ParseMeta(text, meta) == Some(Meta(sid, ST_END, 0, None));
    hide ReadFrame, ParseMeta, Encode, End;
    FrameRoundTrip(text, meta, None, rest);
  }

  lemma UdpMetaReads(text: IpText, sid: U16, target: Destination)
    requires Canonical(text, target.address) && target.network == Udp
    ensures Write(VLESS, target.address, target.port).Some?
    ensures var meta := Be16(sid) + [ST_KEEP, OPT_DATA, NET_UDP] + Write(VLESS, target.address, target.port).value;
            && 0 < |meta| <= 264
            && ParseMeta(text, meta) == Some(Meta(sid, ST_KEEP, OPT_DATA, Some(target)))
  {
    hide Canonical, Write, Read;
    RoundTrip(VLESS, text, target.address, target.port, []);
    var a := Write(VLESS, target.address, target.port).value;
    WriteLength(VLESS, target.address, target.port);
    var meta := Be16(sid) + [ST_KEEP, OPT_DATA, NET_UDP] + a;
    assert meta[..2] == Be16(sid) && FromBe16(meta) == sid;
    assert meta[4..] == [NET_UDP] + a && meta[4..][1..] == a && a + [] == a;
  }

  /** The metadata of a New frame, over TCP or UDP, parses back to session and target, whatever the option byte. */
  lemma NewMetaReads(text: IpText, sid: U16, option: Byte, target: Destination)
    requires Canonical(text, target.address)
    ensures Write(VLESS, target.address, target.port).Some?
    ensures var net := if target.network == Tcp then NET_TCP else NET_UDP;
            var meta := Be16(sid) + [ST_NEW, option, net] + Write(VLESS, target.address, target.port).value;
            0 < |meta| <= 264 && ParseMeta(text, meta) == Some(Meta(sid, ST_NEW, option, Some(target)))
  {
    hide Canonical, Write, Read;
    RoundTrip(VLESS, text, target.address, target.port, []);
    var a := Write(VLESS, target.address, target.port).value;
    WriteLength(VLESS, target.address, target.port);
    var net := if target.network == Tcp then NET_TCP else NET_UDP;
    var meta := Be16(sid) + [ST_NEW, option, net] + a;
    assert meta[..2] == Be16(sid) && FromBe16(meta) == sid;
    assert meta[4..] == [net] + a && ([net] + a)[1..] == a && a + [] == a;
  }

  /** A New frame without a readable target, and any other too short to hold its fields, is refused; the rest of the
      statuses carry a target exactly when they are Keep frames marked as UDP. */
  lemma MetaTargets(text: IpText, meta: Bytes)
    ensures ParseMeta(text, meta).Some? ==>
              var m := ParseMeta(text, meta).value;
              && |meta| >= 4 && m.sid == FromBe16(meta) && m.status == meta[2] && m.option == meta[3]
              && (m.target.Some? <==>
                    m.status == ST_NEW || (m.status == ST_KEEP && |meta| > 4 && meta[4] == NET_UDP))
    ensures ParseMeta(text, meta).None? <==>
              || |meta| < 4
              || ((meta[2] == ST_NEW || (meta[2] == ST_KEEP && |meta| > 4 && meta[4] == NET_UDP))
                  && ParseTarget(text, meta[4..]).None?)
  {
    hide Read;
  }

  lemma KeepUdpReads(text: IpText, sid: U16, target: Destination, data: Bytes, rest: Bytes)
    requires Canonical(text, target.address) && target.network == Udp && |data| <= MAX_DATA
    ensures KeepUdp(sid, target, data).Some?
    ensures ReadFrame(text, KeepUdp(sid, target, data).value + rest)
            == Got(Frame(Meta(sid, ST_KEEP, OPT_DATA, Some(target)), Some(data)), rest)
  {
    hide Canonical, Write, ReadFrame, ParseMeta;
    UdpMetaReads(text, sid, target);
    var meta := Be16(sid) + [ST_KEEP, OPT_DATA, NET_UDP] + Write(VLESS, target.address, target.port).value;
    assert KeepUdp(sid, target, data).value == Encode(meta, Some(data));
    FrameRoundTrip(text, meta, Some(data), rest);
  }

  /** The reader's limits: metadata of 1 to 512 bytes that parses, with a status from 1 to 4; data, announced by the low
      bit of the option byte, of at most 8192. Anything else breaks the connection, except an end before a frame. */
  lemma ReadLimits(text: IpText, src: Bytes)
    ensures ReadFrame(text, src) == Closed <==> |src| < 2
    ensures |src| >= 2 && (FromBe16(src) == 0 || FromBe16(src) > 512 || |src| < 2 + FromBe16(src)) ==>
              ReadFrame(text, src) == Broken
    ensures |src| >= 2 && 0 < FromBe16(src) <= 512 && |src| >= 2 + FromBe16(src) ==>
              var n := FromBe16(src);
              var meta, rest := ParseMeta(text, src[2..2 + n]), src[2 + n..];
              ReadFrame(text, src)
              == if meta.None? || !(1 <= meta.value.status <= 4) then Broken
                 else if meta.value.option % 2 == 0 then Got(Frame(meta.value, None), rest)
                 else if |rest| < 2 || FromBe16(rest) > 8192 || |rest| < 2 + FromBe16(rest) then Broken
                 else Got(Frame(meta.value, Some(rest[2..2 + FromBe16(rest)])), rest[2 + FromBe16(rest)..])
  {
    hide ParseMeta;
    if |src| >= 2 && |src| >= 2 + FromBe16(src) {
      var n := FromBe16(src);
      assert src[2..][..n] == src[2..2 + n] && src[2..][n..] == src[2 + n..];
      var rest := src[2 + n..];
      if |rest| >= 2 && |rest| >= 2 + FromBe16(rest) {
        var k := FromBe16(rest);
        assert rest[2..][..k] == rest[2..2 + k] && rest[2..][k..] == rest[2 + k..];
      }
    }
  }
}
