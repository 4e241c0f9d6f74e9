/** gRPC-framed `Hunk` messages: building them, and finding payloads in a growing buffer. */
module GrpcHunk {
  import opened Common
  import opened GrpcVarint

  const MAX_FRAME: nat := 16_777_216

  function Be32(n: nat): (r: Bytes)
    requires n <= 0xFFFF_FFFF
    ensures |r| == 4 && FromBe32(r) == n
  {
    var r := Be16(n / 0x1_0000) + Be16(n % 0x1_0000);
    assert r[..2] == Be16(n / 0x1_0000) && r[2..] == Be16(n % 0x1_0000);
    r
  }

  function FromBe32(s: Bytes): (n: nat)
    requires |s| >= 4
    ensures n <= 0xFFFF_FFFF
  {
    FromBe16(s[..2]) * 0x1_0000 + FromBe16(s[2..])
  }

  /** Compression flag, message length, field tag, payload length; refused when the length overflows. */
  function HunkHeader(len: nat): Option<Bytes> {
    var protoLen := 1 + |Varint(len)| + len;
    if protoLen > 0xFFFF_FFFF then None else Some([0] + Be32(protoLen) + [0x0A] + Varint(len))
  }

  function EncodeHunk(payload: Bytes): Option<Bytes> {
    match HunkHeader(|payload|)
    case None => None
    case Some(h) => Some(h + payload)
  }

  /** The bytes of field 1; other fields are skipped, and an absent field is an empty payload. */
  function ParseHunk(m: Bytes): Option<Bytes>
    decreases |m|
  {
    if m == [] then Some([])
    else
      var wire, field, rest := m[0] % 8, m[0] / 8, m[1..];
      if wire == 0 then
        match ReadVarint(rest)
        case None => None
        case Some((_, r)) => ReadFromConsumes(rest, 0, 0); ParseHunk(r)
      else if wire == 2 then
        match ReadVarint(rest)
        case None => None
        case Some((len, r)) =>
          ReadFromConsumes(rest, 0, 0);
          if len > |r| then None
          else if field == 1 then Some(r[..len])
          else ParseHunk(r[len..])
      else if wire == 5 then (if |rest| < 4 then None else ParseHunk(rest[4..]))
      else if wire == 1 then (if |rest| < 8 then None else ParseHunk(rest[8..]))
      else None
  }

  /** One complete message off the front of the buffer. */
  datatype Decoded = Payload(data: Bytes, rest: Bytes) | NeedMore | Malformed

  function TryDecode(buf: Bytes): Decoded {
    if |buf| < 5 then NeedMore
    else if buf[0] != 0 || FromBe32(buf[1..5]) > MAX_FRAME then Malformed
    else
      var total := 5 + FromBe32(buf[1..5]);
      if |buf| < total then NeedMore
      else
        match ParseHunk(buf[5..total])
        case None => Malformed
        case Some(data) => Payload(data, buf[total..])
  }

  /** All payload bytes of the complete messages, up to the first malformed one. */
  function DecodeAll(buf: Bytes): Bytes
    decreases |buf|
  {
    match TryDecode(buf)
    case Payload(data, rest) => data + DecodeAll(rest)
    case NeedMore => []
    case Malformed => []
  }

  /** What was decoded from the bytes so far stands when more bytes arrive. */
  lemma DecodeStable(buf: Bytes, more: Bytes)
    ensures match TryDecode(buf)
            case Payload(data, rest) => |rest| < |buf| && TryDecode(buf + more) == Payload(data, rest + more)
            case NeedMore => true
            case Malformed => TryDecode(buf + more) == Malformed
  {
    if |buf| >= 5 {
      assert (buf + more)[1..5] == buf[1..5];
      var total := 5 + FromBe32(buf[1..5]);
      if |buf| >= total {
        assert (buf + more)[5..total] == buf[5..total] && (buf + more)[total..] == buf[total..] + more;
      }
    }
  }

  // ---- messages from any protobuf writer ----

  /** A field a newer peer might add; numbers 2 to 15 keep the tag in one byte. */
  datatype Field =
    | VarintField(num: nat, value: nat)
    | BytesField(num: nat, data: Bytes)
    | Fixed32Field(num: nat, raw: Bytes)
    | Fixed64Field(num: nat, raw: Bytes)

  predicate WellFormed(f: Field) {
    && 2 <= f.num <= 15
    && match f
       case VarintField(_, v) => v < U64
       case BytesField(_, d) => |d| < U64
       case Fixed32Field(_, raw) => |raw| == 4
       case Fixed64Field(_, raw) => |raw| == 8
  }

  function EncodeField(f: Field): Bytes
    requires WellFormed(f)
  {
    match f
    case VarintField(n, v) => [n * 8] + Varint(v)
    case BytesField(n, d) => [n * 8 + 2] + Varint(|d|) + d
    case Fixed32Field(n, raw) => [n * 8 + 5] + raw
    case Fixed64Field(n, raw) => [n * 8 + 1] + raw
  }

  function EncodeFields(fs: seq<Field>): Bytes
    requires forall i :: 0 <= i < |fs| ==> WellFormed(fs[i])
  {
    if fs == [] then [] else EncodeField(fs[0]) + EncodeFields(fs[1..])
  }

  lemma {:induction false} StepVarint(tag: Byte, v: nat, rest: Bytes)
    requires tag % 8 == 0 && v < U64
    ensures ParseHunk([tag] + (Varint(v) + rest)) == ParseHunk(rest)
  {
    var src := [tag] + (Varint(v) + rest);
    assert src[0] == tag && src[1..] == Varint(v) + rest;
    VarintRoundTrip(v, rest);
    hide Varint, ReadVarint;
  }

  lemma {:induction false} StepBytes(tag: Byte, data: Bytes, rest: Bytes)
    requires tag % 8 == 2 && |data| < U64
    ensures ParseHunk([tag] + (Varint(|data|) + (data + rest)))
            == if tag / 8 == 1 then Some(data) else ParseHunk(rest)
  {
    var src := [tag] + (Varint(|data|) + (data + rest));
    assert src[0] == tag && src[1..] == Varint(|data|) + (data + rest);
    VarintRoundTrip(|data|, data + rest);
    assert (data + rest)[..|data|] == data && (data + rest)[|data|..] == rest;
    hide Varint, ReadVarint;
  }

  lemma {:induction false} StepFixed(tag: Byte, raw: Bytes, rest: Bytes)
    requires (tag % 8 == 5 && |raw| == 4) || (tag % 8 == 1 && |raw| == 8)
    ensures ParseHunk([tag] + (raw + rest)) == ParseHunk(rest)
  {
    var src := [tag] + (raw + rest);
    assert src[0] == tag && src[1..] == raw + rest && (raw + rest)[|raw|..] == rest;
    hide Varint, ReadVarint;
  }

  lemma {:induction false} SkipField(f: Field, m: Bytes)
    requires WellFormed(f)
    ensures ParseHunk(EncodeField(f) + m) == ParseHunk(m)
  {
    hide ParseHunk, Varint;
    match f
    case VarintField(n, v) =>
      assert EncodeField(f) + m == [n * 8] + (Varint(v) + m);
      StepVarint(n * 8, v, m);
    case BytesField(n, d) =>
      Concat4([n * 8 + 2], Varint(|d|), d, m);
      StepBytes(n * 8 + 2, d, m);
    case Fixed32Field(n, raw) =>
      assert EncodeField(f) + m == [n * 8 + 5] + (raw + m);
      StepFixed(n * 8 + 5, raw, m);
    case Fixed64Field(n, raw) =>
      assert EncodeField(f) + m == [n * 8 + 1] + (raw + m);
      StepFixed(n * 8 + 1, raw, m);
  }

  // ---- fields numbered above 15 ----

  datatype Wire = VarintWire | Fixed64Wire | BytesWire | Fixed32Wire

  function WireNumber(w: Wire): nat {
    match w
    case VarintWire => 0
    case Fixed64Wire => 1
    case BytesWire => 2
    case Fixed32Wire => 5
  }

  /** What may follow a tag of this wire type. */
  ghost predicate IsContent(w: Wire, c: Bytes) {
    match w
    case VarintWire => exists v: nat :: v < U64 && c == Varint(v)
    case Fixed64Wire => |c| == 8
    case BytesWire => exists d: Bytes :: |d| < U64 && c == Varint(|d|) + d
    case Fixed32Wire => |c| == 4
  }

  /** Any field, its tag a varint as protobuf writes it. */
  function EncodeAny(num: nat, w: Wire, content: Bytes): Bytes { Varint(num * 8 + WireNumber(w)) + content }

  /** Content that a parser of one-byte tags stumbles over. */
  function Stumbling(num: nat, w: Wire): Bytes {
    match w
    case VarintWire => Varint(7)
    case Fixed64Wire => Sevens(8)
    case BytesWire => Varint(num / 16) + Sevens(num / 16)
    case Fixed32Wire => Sevens(4)
  }

  function Sevens(n: nat): (r: Bytes)
    ensures |r| == n && forall i :: 0 <= i < n ==> r[i] == 7
  {
    seq(n, i => 7)
  }

  /** No wire type has number 7. */
  lemma SevenRefused(m: Bytes)
    requires m != [] && m[0] == 7
    ensures ParseHunk(m) == None
  {
  }

  /** Tags of fields up to 15 are one byte; of later ones the first byte keeps only the wire type. */
  lemma {:induction false} TagBytes(num: nat, wire: nat)
    requires wire < 8
    ensures num <= 15 ==> Varint(num * 8 + wire) == [num * 8 + wire]
    ensures num >= 16 ==>
              var b := (num * 8 + wire) % 128 + 128;
              b < 256 && b % 8 == wire && b / 8 >= 16 && Varint(num * 8 + wire) == [b] + Varint(num / 16)
  {
  }

  lemma {:induction false} VarintShort(n: nat)
    requires n > 0
    ensures |Varint(n)| <= n
  {
    if n >= 0x80 {
      VarintShort(n / 128);
    }
  }

  lemma {:induction false} VarintAtMostFour(n: nat)
    requires n < 0x200_0000
    ensures |Varint(n)| <= 4
  {
    if n >= 0x80 {
      assert |Varint(n)| == 1 + |Varint(n / 0x80)|;
      if n / 0x80 >= 0x80 {
        assert |Varint(n / 0x80)| == 1 + |Varint(n / 0x80 / 0x80)|;
        assert n / 0x80 / 0x80 < 0x800;
        if n / 0x80 / 0x80 >= 0x80 {
          assert |Varint(n / 0x80 / 0x80)| == 1 + |Varint(n / 0x80 / 0x80 / 0x80)|;
        }
      }
    }
  }

  lemma {:induction false} SmallFieldSkipped(num: nat, w: Wire, c: Bytes, m: Bytes)
    requires 2 <= num <= 15 && IsContent(w, c)
    ensures ParseHunk(EncodeAny(num, w, c) + m) == ParseHunk(m)
  {
    hide ParseHunk, Varint;
    var tag: Byte := num * 8 + WireNumber(w);
    TagBytes(num, WireNumber(w));
    assert EncodeAny(num, w, c) + m == [tag] + (c + m);
    match w
    case VarintWire =>
      var v: nat :| v < U64 && c == Varint(v);
      StepVarint(tag, v, m);
    case BytesWire =>
      var d: Bytes :| |d| < U64 && c == Varint(|d|) + d;
      assert c + m == Varint(|d|) + (d + m);
      StepBytes(tag, d, m);
    case Fixed64Wire => StepFixed(tag, c, m);
    case Fixed32Wire => StepFixed(tag, c, m);
  }

  /** After the first byte of a long tag the parser takes the rest of the tag for content. */
  lemma {:induction false} LongTagStumbles(num: nat, w: Wire, m: Bytes)
    requires 16 <= num < 0x2000_0000
    ensures IsContent(w, Stumbling(num, w)) && ParseHunk(EncodeAny(num, w, Stumbling(num, w)) + m) == None
  {
    hide ParseHunk, Varint, ReadVarint, IsContent;
    var wire, high, c := WireNumber(w), num / 16, Stumbling(num, w);
    StumblingIsContent(num, w);
    TagBytes(num, wire);
    var b: Byte := (num * 8 + wire) % 128 + 128;
    assert EncodeAny(num, w, c) + m == [b] + (Varint(high) + (c + m));
    match w
    case VarintWire => LongVarintStumbles(b, high, m);
    case BytesWire => LongBytesStumble(b, high, m);
    case Fixed64Wire => LongFixedStumbles(b, high, 8, m);
    case Fixed32Wire => LongFixedStumbles(b, high, 4, m);
  }

  lemma {:induction false} StumblingIsContent(num: nat, w: Wire)
    requires num < 0x2000_0000
    ensures IsContent(w, Stumbling(num, w))
  {
    hide Varint;
    assert |Sevens(num / 16)| == num / 16;
  }

  lemma {:induction false} LongVarintStumbles(b: Byte, high: nat, m: Bytes)
    requires b % 8 == 0 && high < U64
    ensures ParseHunk([b] + (Varint(high) + (Varint(7) + m))) == None
  {
    assert Varint(7) == [7];
    hide ParseHunk, ReadVarint, Varint;
    StepVarint(b, high, Varint(7) + m);
    SevenRefused(Varint(7) + m);
  }

  lemma {:induction false} LongBytesStumble(b: Byte, high: nat, m: Bytes)
    requires b % 8 == 2 && b / 8 >= 16 && 0 < high < U64
    ensures ParseHunk([b] + (Varint(high) + (Varint(high) + Sevens(high) + m))) == None
  {
    hide Varint, ReadVarint;
    var r := Varint(high) + Sevens(high) + m;
    VarintShort(high);
    VarintRoundTrip(high, r);
    var src := [b] + (Varint(high) + r);
    assert src[0] == b && src[1..] == Varint(high) + r;
    assert r[high..][0] == r[high] == Sevens(high)[high - |Varint(high)|] == 7;
    SevenRefused(r[high..]);
  }

  lemma {:induction false} LongFixedStumbles(b: Byte, high: nat, n: nat, m: Bytes)
    requires (b % 8 == 1 && n == 8) || (b % 8 == 5 && n == 4)
    requires 0 < high < 0x200_0000
    ensures ParseHunk([b] + (Varint(high) + (Sevens(n) + m))) == None
  {
    hide Varint, ReadVarint;
    VarintAtMostFour(high);
    var rest := Varint(high) + (Sevens(n) + m);
    var src := [b] + rest;
    assert src[0] == b && src[1..] == rest;
    assert rest[n..][0] == rest[n] == Sevens(n)[n - |Varint(high)|] == 7;
    SevenRefused(rest[n..]);
  }

  /** An unknown field, of any wire type, is skipped whatever its content exactly when its number is at most 15. */
  lemma SkippedExactlyUpTo15(num: nat, w: Wire, m: Bytes)
    requires 2 <= num < 0x2000_0000 && ParseHunk(m).Some?
    ensures (forall c: Bytes :: IsContent(w, c) ==> ParseHunk(EncodeAny(num, w, c) + m) == ParseHunk(m)) <==> num <= 15
  {
    hide ParseHunk, EncodeAny, IsContent;
    if num <= 15 {
      forall c: Bytes | IsContent(w, c) ensures ParseHunk(EncodeAny(num, w, c) + m) == ParseHunk(m) {
        SmallFieldSkipped(num, w, c, m);
      }
    } else {
      LongTagStumbles(num, w, m);
    }
  }

  lemma {:induction false} SkipFields(fs: seq<Field>, m: Bytes)
    requires forall i :: 0 <= i < |fs| ==> WellFormed(fs[i])
    ensures ParseHunk(EncodeFields(fs) + m) == ParseHunk(m)
  {
    hide WellFormed, EncodeField, ParseHunk;
    if fs == [] {
      assert EncodeFields(fs) + m == m;
    } else {
      assert EncodeFields(fs) + m == EncodeField(fs[0]) + (EncodeFields(fs[1..]) + m);
      SkipField(fs[0], EncodeFields(fs[1..]) + m);
      SkipFields(fs[1..], m);
    }
  }

  /** A protobuf message: some unknown fields, the payload field, and anything after it. */
  datatype Message = Message(before: seq<Field>, payload: Bytes, after: Bytes)

  predicate Sound(m: Message) {
    && (forall i :: 0 <= i < |m.before| ==> WellFormed(m.before[i]))
    && |m.payload| < U64
    && |Body(m)| <= MAX_FRAME
  }

  function Body(m: Message): Bytes
    requires forall i :: 0 <= i < |m.before| ==> WellFormed(m.before[i])
  {
    EncodeFields(m.before) + ([0x0A] + Varint(|m.payload|) + m.payload + m.after)
  }

  function Framed(m: Message): Bytes
    requires Sound(m)
  {
    [0] + Be32(|Body(m)|) + Body(m)
  }

  lemma {:induction false} PayloadFound(payload: Bytes, after: Bytes)
    requires |payload| < U64
    ensures ParseHunk([0x0A] + Varint(|payload|) + payload + after) == Some(payload)
  {
    hide ParseHunk, Varint;
    StepBytes(0x0A, payload, after);
    Concat4([0x0A], Varint(|payload|), payload, after);
  }

  lemma {:induction false} MessageDecodes(m: Message, rest: Bytes)
    requires Sound(m)
    ensures TryDecode(Framed(m) + rest) == Payload(m.payload, rest)
  {
    hide WellFormed, EncodeFields, ParseHunk;
    SkipFields(m.before, [0x0A] + Varint(|m.payload|) + m.payload + m.after);
    PayloadFound(m.payload, m.after);
    var body := Body(m);
    hide Body;
    FramedShape(body, rest);
  }

  lemma FramedShape(body: Bytes, rest: Bytes)
    requires |body| <= MAX_FRAME
    ensures var src := [0] + Be32(|body|) + body + rest;
            && |src| >= 5 + |body| && src[0] == 0 && FromBe32(src[1..5]) == |body|
            && src[5..5 + |body|] == body && src[5 + |body|..] == rest
  {
    var src := [0] + Be32(|body|) + body + rest;
    assert src[1..5] == Be32(|body|);
  }

  /** What this side frames is one of those messages, with no other fields. */
  lemma {:induction false} EncodeHunkIsMessage(payload: Bytes)
    requires EncodeHunk(payload).Some? && 1 + |Varint(|payload|)| + |payload| <= MAX_FRAME
    ensures Sound(Message([], payload, [])) && EncodeHunk(payload).value == Framed(Message([], payload, []))
  {
    hide Varint, Be32;
    var m := Message([], payload, []);
    var body := [0x0A] + Varint(|payload|) + payload;
    assert Body(m) == body by {
      assert EncodeFields([]) == [];
      assert [] + (body + []) == body;
    }
    assert EncodeHunk(payload).value == [0] + Be32(|body|) + body;
  }

  function FramedAll(ms: seq<Message>): Bytes
    requires forall i :: 0 <= i < |ms| ==> Sound(ms[i])
  {
    if ms == [] then [] else Framed(ms[0]) + FramedAll(ms[1..])
  }

  function PayloadsOf(ms: seq<Message>): Bytes {
    if ms == [] then [] else ms[0].payload + PayloadsOf(ms[1..])
  }

  /** A stream of messages decodes to the concatenated payloads. */
  lemma {:induction false} StreamDecodes(ms: seq<Message>)
    requires forall i :: 0 <= i < |ms| ==> Sound(ms[i])
    ensures DecodeAll(FramedAll(ms)) == PayloadsOf(ms)
  {
    if ms != [] {
      hide Sound, Framed, TryDecode;
      MessageDecodes(ms[0], FramedAll(ms[1..]));
      StreamDecodes(ms[1..]);
    }
  }

  // ---- the parsing loop ----

  method FindPayload(message: Bytes) returns (r: Option<Bytes>)
    ensures r == ParseHunk(message)
  {
    var m := message;
    while m != []
      invariant ParseHunk(message) == ParseHunk(m)
      decreases |m|
    {
      var tag := m[0];
      m := m[1..];
      ReadFromConsumes(m, 0, 0);
      var wire, field := tag % 8, tag / 8;
      if wire == 0 {
        var v := DecodeVarint(m);
        if v.None? {
          return None;
        }
        m := v.value.1;
      } else if wire == 2 {
        var v := DecodeVarint(m);
        if v.None? || v.value.0 > |v.value.1| {
          return None;
        }
        if field == 1 {
          return Some(v.value.1[..v.value.0]);
        }
        m := v.value.1[v.value.0..];
      } else if wire == 5 {
        if |m| < 4 {
          return None;
        }
        m := m[4..];
      } else if wire == 1 {
        if |m| < 8 {
          return None;
        }
        m := m[8..];
      } else {
        return None;
      }
    }
    return Some([]);
  }

  /** The format, by example: 300 as a varint, the payload "A" as a hunk, and an empty message. */
  lemma FormatExamples()
    ensures Varint(300) == [0xAC, 0x02] && Varint(127) == [0x7F] && Varint(128) == [0x80, 0x01]
    ensures EncodeHunk([65]) == Some([0, 0, 0, 0, 3, 0x0A, 1, 65])
    ensures ParseHunk([]) == Some([])
  {
    assert Varint(2) == [2] && Varint(1) == [1];
    assert 300 % 128 + 128 == 0xAC && 300 / 128 == 2;
    assert HunkHeader(1) == Some([0] + Be32(3) + [0x0A] + Varint(1));
    assert Be32(3) == [0, 0, 0, 3];
    var h: Bytes := [0, 0, 0, 0, 3, 0x0A, 1];
    assert [0] + Be32(3) + [0x0A] + Varint(1) == h;
    assert HunkHeader(1) == Some(h) && h + [65] == [0, 0, 0, 0, 3, 0x0A, 1, 65];
  }

  /** A message that claims to be compressed, or longer than 16 MiB, is refused as soon as its five bytes are there. */
  lemma DecodeRefusals(buf: Bytes)
    requires |buf| >= 5
    ensures var n := buf[1] as int * 0x100_0000 + buf[2] as int * 0x1_0000 + buf[3] as int * 0x100 + buf[4] as int;
            && (buf[0] != 0 || n > 0x100_0000 ==> TryDecode(buf) == Malformed)
            && (buf[0] == 0 && n <= 0x100_0000 && |buf| < 5 + n ==> TryDecode(buf) == NeedMore)
            && (buf[0] == 0 && n <= 0x100_0000 && |buf| >= 5 + n ==>
                  var p := ParseHunk(buf[5..5 + n]);
                  TryDecode(buf) == if p.Some? then Payload(p.value, buf[5 + n..]) else Malformed)
  {
    hide ParseHunk;
  }

  /** The encoder refuses exactly the payloads whose message length does not fit in 32 bits. */
  lemma EncodeRefused(payload: Bytes)
    ensures EncodeHunk(payload) == None <==> 1 + |Varint(|payload|)| + |payload| > 4_294_967_295
  {
  }
}
