/** The Shadowsocks AEAD chunk stream: client relay and server, sharing one nonce discipline. */
module Shadowsocks {
  import opened Common
  import opened Crypto
  import opened Io
  import opened Nonce
  import opened Parse
  import opened Addr

  const MAX_CHUNK: nat := 0x3fff

  /** Longest length a reader accepts: the server takes any u16, the client refuses above `MAX_CHUNK`. */
  const SERVER_LIMIT: nat := 0xFFFF
  const CLIENT_LIMIT: nat := MAX_CHUNK

  /** A method: sizes, the subkey derivation from master key and salt, and the keyed cipher. */
  datatype Suite = Suite(keySize: nat, nonceSize: nat, kdf: (Bytes, Bytes) -> Bytes, keyed: Bytes -> Aead)

  ghost predicate LawfulSuite(s: Suite) {
    forall key: Bytes :: Lawful(s.keyed(key))
  }

  function FreshNonce(s: Suite): Bytes { seq(Min(s.nonceSize, 24), i => 0) }

  function SessionKey(s: Suite, master: Bytes, salt: Bytes): Aead { s.keyed(s.kdf(master, salt)) }

  function Twice(n: Bytes): Bytes { Incremented(Incremented(n)) }

  function Skip(n: Bytes, k: nat): Bytes
    decreases k
  {
    if k == 0 then n else Skip(Twice(n), k - 1)
  }

  /** One chunk: sealed length, then the sealed piece, each under its own nonce. */
  function SealedChunk(a: Aead, n: Bytes, piece: Bytes): Bytes {
    a.seal(n, Be16(if |piece| <= 0xFFFF then |piece| else 0)) + a.seal(Incremented(n), piece)
  }

  function Stream(a: Aead, n: Bytes, pieces: seq<Bytes>): Bytes
    decreases |pieces|
  {
    if pieces == [] then [] else SealedChunk(a, n, pieces[0]) + Stream(a, Twice(n), pieces[1..])
  }

  /** The pieces a list of payloads is cut into, in order. */
  function PiecesOf(datas: seq<Bytes>): seq<Bytes> {
    if datas == [] then [] else Chunks(datas[0], MAX_CHUNK) + PiecesOf(datas[1..])
  }

  lemma {:induction false} PiecesCover(datas: seq<Bytes>)
    ensures Join(PiecesOf(datas)) == Join(datas)
    ensures forall i :: 0 <= i < |PiecesOf(datas)| ==> 0 < |PiecesOf(datas)[i]| <= 0x3fff
  {
    if datas != [] {
      PiecesCover(datas[1..]);
      JoinAppend(Chunks(datas[0], MAX_CHUNK), PiecesOf(datas[1..]));
    }
  }

  datatype Read =
    | Data(plain: Bytes, rest: Bytes, nonce: Bytes)
    | End(rest: Bytes, nonce: Bytes)
    | Failed(rest: Bytes, nonce: Bytes)

  function ReadStep(a: Aead, n: Bytes, src: Bytes, limit: nat): Read {
    if |src| < 2 + TAG then End([], n)
    else
      var body := src[2 + TAG..];
      match a.open(n, src[..2 + TAG])
      case None => Failed(body, n)
      case Some(field) =>
        var n' := Incremented(n);
        if |field| < 2 || FromBe16(field) > limit then Failed(body, n')
        else if |body| < FromBe16(field) + TAG then Failed([], n')
        else
          var size := FromBe16(field) + TAG;
          match a.open(n', body[..size])
          case None => Failed(body[size..], n')
          case Some(plain) => Data(plain, body[size..], Incremented(n'))
  }

  /** Plaintext delivered until the stream stops, whether it ended cleanly, and the nonce reached. */
  function ReadAll(a: Aead, n: Bytes, src: Bytes, limit: nat): (Bytes, bool, Bytes)
    decreases |src|
  {
    match ReadStep(a, n, src, limit)
    case Data(plain, rest, n') => var (more, ended, last) := ReadAll(a, n', rest, limit); (plain + more, ended, last)
    case End(_, n') => ([], true, n')
    case Failed(_, n') => ([], false, n')
  }

  // ---- chunks and streams ----

  lemma ChunkRoundTrip(a: Aead, n: Bytes, piece: Bytes, rest: Bytes, limit: nat)
    requires Lawful(a) && |piece| <= limit <= 0xFFFF
    ensures ReadStep(a, n, SealedChunk(a, n, piece) + rest, limit) == Data(piece, rest, Twice(n))
  {
    var lenct, payct := a.seal(n, Be16(|piece|)), a.seal(Incremented(n), piece);
    var src := SealedChunk(a, n, piece) + rest;
    assert src == lenct + (payct + rest);
    assert src[..2 + TAG] == lenct && src[2 + TAG..] == payct + rest;
    assert (payct + rest)[..|payct|] == payct && (payct + rest)[|payct|..] == rest;
  }

  /** Reading a stream gives every piece back, and reader and writer end on the same nonce. */
  lemma {:induction false} StreamRoundTrip(a: Aead, n: Bytes, pieces: seq<Bytes>, limit: nat)
    requires Lawful(a) && MAX_CHUNK <= limit <= 0xFFFF
    requires forall i :: 0 <= i < |pieces| ==> 0 < |pieces[i]| <= MAX_CHUNK
    ensures ReadAll(a, n, Stream(a, n, pieces), limit) == (Join(pieces), true, Skip(n, |pieces|))
    decreases |pieces|
  {
    if pieces != [] {
      hide SealedChunk, ReadStep, Twice;
      ChunkRoundTrip(a, n, pieces[0], Stream(a, Twice(n), pieces[1..]), limit);
      StreamRoundTrip(a, Twice(n), pieces[1..], limit);
    }
  }

  lemma {:induction false} SkipCounts(n: Bytes, k: nat)
    ensures Skip(n, k) == IncrementedBy(n, 2 * k)
    decreases k
  {
    if k > 0 {
      SkipCounts(Twice(n), k - 1);
      assert IncrementedBy(n, 2) == Twice(n) by {
        assert IncrementedBy(n, 0) == n;
        assert IncrementedBy(n, 1) == Incremented(n);
      }
      IncrementedByAdds(n, 2, 2 * (k - 1));
    }
  }

  lemma {:induction false} IncrementedByAdds(n: Bytes, a: nat, b: nat)
    ensures IncrementedBy(IncrementedBy(n, a), b) == IncrementedBy(n, a + b)
    decreases b
  {
    if b > 0 {
      IncrementedByAdds(n, a, b - 1);
    }
  }

  lemma {:induction false} StreamAppend(a: Aead, n: Bytes, xs: seq<Bytes>, ys: seq<Bytes>)
    ensures Stream(a, n, xs + ys) == Stream(a, n, xs) + Stream(a, Skip(n, |xs|), ys)
    decreases |xs|
  {
    if xs == [] {
      assert xs + ys == ys;
    } else {
      hide SealedChunk, Twice;
      assert (xs + ys)[0] == xs[0] && (xs + ys)[1..] == xs[1..] + ys;
      StreamAppend(a, Twice(n), xs[1..], ys);
    }
  }

  lemma StreamSnoc(a: Aead, n: Bytes, done: seq<Bytes>, piece: Bytes)
    ensures Stream(a, n, done + [piece]) == Stream(a, n, done) + SealedChunk(a, Skip(n, |done|), piece)
    ensures Skip(n, |done| + 1) == Twice(Skip(n, |done|))
  {
    StreamAppend(a, n, done, [piece]);
    SkipStep(n, |done|);
    var here := Skip(n, |done|);
    assert [piece][1..] == [];
    assert Stream(a, here, [piece]) == SealedChunk(a, here, piece) + Stream(a, Twice(here), []);
  }

  lemma {:induction false} SkipStep(n: Bytes, k: nat)
    ensures Skip(n, k + 1) == Twice(Skip(n, k))
    decreases k
  {
    if k > 0 {
      SkipStep(Twice(n), k - 1);
    }
  }

  lemma {:induction false} SkipAdds(n: Bytes, i: nat, j: nat)
    ensures Skip(Skip(n, i), j) == Skip(n, i + j)
    decreases i
  {
    if i > 0 {
      SkipAdds(Twice(n), i - 1, j);
    }
  }

  /** The sealed bytes of piece `k`: its length under nonce 2k, high byte first, and the piece under nonce 2k + 1. */
  function SealsOf(a: Aead, n: Bytes, pieces: seq<Bytes>, k: nat): Bytes
    requires k < |pieces| && |pieces[k]| <= 0xFFFF
  {
    var size := |pieces[k]|;
    a.seal(IncrementedBy(n, 2 * k), [size / 256, size % 256]) + a.seal(IncrementedBy(n, 2 * k + 1), pieces[k])
  }

  /** A stream is these, one after the other: no nonce is used twice within a period. */
  lemma StreamSeals(a: Aead, n: Bytes, pieces: seq<Bytes>, k: nat)
    requires k < |pieces| && |pieces[k]| <= 0xFFFF
    ensures Stream(a, n, pieces[..k + 1]) == Stream(a, n, pieces[..k]) + SealsOf(a, n, pieces, k)
  {
    hide Stream, Skip;
    StreamSnoc(a, n, pieces[..k], pieces[k]);
    assert pieces[..k + 1] == pieces[..k] + [pieces[k]];
    SkipCounts(n, k);
    assert IncrementedBy(n, 2 * k + 1) == Incremented(IncrementedBy(n, 2 * k));
    var size := |pieces[k]|;
    assert Be16(size) == [size / 256, size % 256];
  }

  /** A length is taken up to 0x3fff by the client and up to 0xffff by the server. */
  lemma LengthLimits(a: Aead, n: Bytes, size: U16, body: Bytes)
    requires Lawful(a)
    ensures var src := a.seal(n, Be16(size)) + body;
            && (size > 0x3fff ==> ReadStep(a, n, src, CLIENT_LIMIT) == Failed(body, Incremented(n)))
            && (size <= 0x3fff ==> ReadStep(a, n, src, CLIENT_LIMIT) == ReadStep(a, n, src, SERVER_LIMIT))
            && (|body| >= size + 16 ==>
                  var plain := a.open(Incremented(n), body[..size + 16]);
                  ReadStep(a, n, src, SERVER_LIMIT)
                  == if plain.Some? then Data(plain.value, body[size + 16..], Incremented(Incremented(n)))
                     else Failed(body[size + 16..], Incremented(n)))
  {
    var lenct := a.seal(n, Be16(size));
    var src := lenct + body;
    assert src[..2 + TAG] == lenct && src[2 + TAG..] == body;
  }

  // ---- the handshake ----

  datatype User = User(master: Bytes, email: Bytes)

  /** The first user whose subkey opens the first length chunk. */
  function FirstOpening(s: Suite, users: seq<User>, salt: Bytes, lenct: Bytes): (r: Option<nat>)
    ensures r.Some? ==> r.value < |users| && Opens(s, users[r.value], salt, lenct)
    ensures forall j :: 0 <= j < (if r.Some? then r.value else |users|) ==> !Opens(s, users[j], salt, lenct)
    decreases |users|
  {
    if users == [] then None
    else if Opens(s, users[0], salt, lenct) then Some(0)
    else
      match FirstOpening(s, users[1..], salt, lenct)
      case None => None
      case Some(i) => Some(i + 1)
  }

  predicate Opens(s: Suite, u: User, salt: Bytes, lenct: Bytes) {
    SessionKey(s, u.master, salt).open(FreshNonce(s), lenct).Some?
  }

  datatype Session =
    | Accepted(user: nat, target: Destination, leftover: Bytes, rest: Bytes, nonce: Bytes)
    | Denied

  /** What the first chunk says, for a user already found. */
  function FirstTarget(user: nat, text: IpText, read: Read): Session {
    match read
    case End(_, _) => Denied
    case Failed(_, _) => Denied
    case Data(plain, rest, n) =>
      match Addr.Read(SHADOWSOCKS, text, plain)
      case Truncated => Denied
      case Bad(_) => Denied
      case Done((address, port), leftover) => Accepted(user, Destination(Tcp, address, port), leftover, rest, n)
  }

  /** The server's reading of salt, user and first chunk. */
  function Decode(s: Suite, users: seq<User>, text: IpText, src: Bytes): Session {
    if |src| < s.keySize + 2 + TAG then Denied
    else
      var salt, stream := src[..s.keySize], src[s.keySize..];
      match FirstOpening(s, users, salt, stream[..2 + TAG])
      case None => Denied
      case Some(i) =>
        FirstTarget(i, text, ReadStep(SessionKey(s, users[i].master, salt), FreshNonce(s), stream, SERVER_LIMIT))
  }

  /** What the client relay writes: salt, the address in a chunk, then the data. */
  function ClientWire(s: Suite, master: Bytes, salt: Bytes, address: Bytes, datas: seq<Bytes>): Bytes {
    salt + Stream(SessionKey(s, master, salt), FreshNonce(s), Chunks(address, MAX_CHUNK) + PiecesOf(datas))
  }

  /** The sealed length of the address chunk, on which the server recognises the user. */
  function FirstLength(s: Suite, master: Bytes, salt: Bytes, address: Bytes): Bytes
    requires |address| <= 0xFFFF
  {
    SessionKey(s, master, salt).seal(FreshNonce(s), Be16(|address|))
  }

  /** No user before this one has a key that opens the sealed length. */
  predicate NoneEarlier(s: Suite, users: seq<User>, who: nat, salt: Bytes, lenct: Bytes)
    requires who <= |users|
  {
    forall j :: 0 <= j < who ==> !Opens(s, users[j], salt, lenct)
  }

  /** What a client writes that puts the start of its payload behind the address, in the first chunk. */
  function EagerWire(s: Suite, master: Bytes, salt: Bytes, first: Bytes, datas: seq<Bytes>): Bytes {
    salt + Stream(SessionKey(s, master, salt), FreshNonce(s), [first] + PiecesOf(datas))
  }

  /** The first chunk fixes user, target and early payload, exactly when no earlier user's key opens it; whatever
      follows is left for the data reader. */
  lemma FirstChunkDecodes(
    s: Suite, users: seq<User>, who: nat, text: IpText, salt: Bytes, target: Destination, first: Bytes, early: Bytes,
    rest: Bytes)
    requires LawfulSuite(s) && who < |users| && |salt| == s.keySize && |first| <= MAX_CHUNK
    requires Addr.Read(SHADOWSOCKS, text, first) == Done((target.address, target.port), early)
    requires target.network == Tcp
    ensures var a := SessionKey(s, users[who].master, salt);
            Decode(s, users, text, salt + (SealedChunk(a, FreshNonce(s), first) + rest))
            == Accepted(who, target, early, rest, Twice(FreshNonce(s)))
            <==> NoneEarlier(s, users, who, salt, FirstLength(s, users[who].master, salt, first))
  {
    hide Addr.Read, ReadStep, Twice;
    var a := SessionKey(s, users[who].master, salt);
    assert Lawful(a);
    var stream := SealedChunk(a, FreshNonce(s), first) + rest;
    var lenct := FirstLength(s, users[who].master, salt, first);
    assert (salt + stream)[..s.keySize] == salt && (salt + stream)[s.keySize..] == stream;
    assert |lenct| == 2 + TAG && stream[..2 + TAG] == lenct;
    assert Opens(s, users[who], salt, lenct);
    assert FirstOpening(s, users, salt, lenct) == Some(who) <==> NoneEarlier(s, users, who, salt, lenct);
    ChunkRoundTrip(a, FreshNonce(s), first, rest, SERVER_LIMIT);
  }

  /** The server decodes a client's target exactly when no earlier user's key opens its first chunk; the early payload
      it hands on, followed by what it then reads under the client's key, is everything the client sent, and both ends
      agree on the nonce. */
  lemma EagerIsDecoded(
    s: Suite, users: seq<User>, who: nat, text: IpText, salt: Bytes, target: Destination, address: Bytes, early: Bytes,
    datas: seq<Bytes>)
    requires LawfulSuite(s) && who < |users| && |salt| == s.keySize
    requires Canonical(text, target.address) && target.network == Tcp
    requires Write(SHADOWSOCKS, target.address, target.port) == Some(address) && |address + early| <= MAX_CHUNK
    ensures
      var a := SessionKey(s, users[who].master, salt);
      var n, pieces, first := FreshNonce(s), PiecesOf(datas), address + early;
      var rest := Stream(a, Twice(n), pieces);
      && (Decode(s, users, text, EagerWire(s, users[who].master, salt, first, datas))
          == Accepted(who, target, early, rest, Twice(n))
          <==> NoneEarlier(s, users, who, salt, FirstLength(s, users[who].master, salt, first)))
      && ReadAll(a, Twice(n), rest, SERVER_LIMIT) == (Join(datas), true, Skip(n, 1 + |pieces|))
  {
    hide Canonical, Write, Addr.Read, ReadStep, SealedChunk, Twice, Decode;
    var a, n := SessionKey(s, users[who].master, salt), FreshNonce(s);
    var pieces, first := PiecesOf(datas), address + early;
    assert Lawful(a);
    assert ([first] + pieces)[0] == first && ([first] + pieces)[1..] == pieces;
    var rest := Stream(a, Twice(n), pieces);
    assert Stream(a, n, [first] + pieces) == SealedChunk(a, n, first) + rest;
    RoundTrip(SHADOWSOCKS, text, target.address, target.port, early);
    FirstChunkDecodes(s, users, who, text, salt, target, first, early, rest);
    PiecesCover(datas);
    StreamRoundTrip(a, Twice(n), pieces, SERVER_LIMIT);
  }

  /** The same for the client relay, which puts nothing behind the address. */
  lemma RelayIsDecoded(
    s: Suite, users: seq<User>, who: nat, text: IpText, salt: Bytes, target: Destination, address: Bytes,
    datas: seq<Bytes>)
    requires LawfulSuite(s) && who < |users| && |salt| == s.keySize
    requires Canonical(text, target.address) && target.network == Tcp
    requires Write(SHADOWSOCKS, target.address, target.port) == Some(address) && |address| <= 0xFFFF
    ensures
      var a := SessionKey(s, users[who].master, salt);
      var n, pieces := FreshNonce(s), PiecesOf(datas);
      var rest := Stream(a, Twice(n), pieces);
      && (Decode(s, users, text, ClientWire(s, users[who].master, salt, address, datas))
          == Accepted(who, target, [], rest, Twice(n))
          <==> NoneEarlier(s, users, who, salt, FirstLength(s, users[who].master, salt, address)))
      && ReadAll(a, Twice(n), rest, SERVER_LIMIT) == (Join(datas), true, Skip(n, 1 + |pieces|))
  {
    hide Canonical, Write, Stream, Twice, Decode, ReadAll;
    assert 4 <= |address| <= 259 by { WriteLength(SHADOWSOCKS, target.address, target.port); }
    assert Chunks(address, MAX_CHUNK) == [address] && address + [] == address;
    EagerIsDecoded(s, users, who, text, salt, target, address, [], datas);
  }

  /** What the server writes never trips the client's length check. */
  lemma DownlinkRoundTrip(s: Suite, master: Bytes, salt: Bytes, datas: seq<Bytes>)
    requires LawfulSuite(s)
    ensures var a := SessionKey(s, master, salt);
            var n := FreshNonce(s);
            var pieces := PiecesOf(datas);
            ReadAll(a, n, Stream(a, n, pieces), CLIENT_LIMIT) == (Join(datas), true, Skip(n, |pieces|))
  {
    var a := SessionKey(s, master, salt);
    assert Lawful(a);
    PiecesCover(datas);
    StreamRoundTrip(a, FreshNonce(s), PiecesOf(datas), CLIENT_LIMIT);
  }

  // ---- the stateful ends ----

  datatype ChunkResult = Chunk(data: Bytes) | Eof | Invalid

  /** Reads one chunk exactly as `ReadStep`, moving the nonce counter along. */
  method ReadChunk(r: Source, a: Aead, nonce: NonceCtr, limit: nat) returns (res: ChunkResult)
    requires nonce.Valid()
    modifies r, nonce.buf
    ensures match ReadStep(a, old(nonce.Contents()), old(r.data), limit)
            case Data(plain, rest, n) => res == Chunk(plain) && r.data == rest && nonce.Contents() == n
            case End(rest, n) => res == Eof && r.data == rest && nonce.Contents() == n
            case Failed(rest, n) => res == Invalid && r.data == rest && nonce.Contents() == n
  {
    var lenct := r.ReadExact(2 + TAG);
    if lenct.None? {
      return Eof;
    }
    var n := nonce.Current();
    var field := a.open(n, lenct.value);
    if field.None? {
      return Invalid;
    }
    nonce.Inc();
    if |field.value| < 2 || FromBe16(field.value) > limit {
      return Invalid;
    }
    var payct := r.ReadExact(FromBe16(field.value) + TAG);
    if payct.None? {
      return Invalid;
    }
    n := nonce.Current();
    var plain := a.open(n, payct.value);
    if plain.None? {
      return Invalid;
    }
    nonce.Inc();
    return Chunk(plain.value);
  }

  /** Writes `data` in chunks; the nonce moves two steps per chunk. */
  method WriteChunks(w: Sink, a: Aead, nonce: NonceCtr, data: Bytes)
    requires nonce.Valid()
    modifies w, nonce.buf
    ensures var pieces := Chunks(data, MAX_CHUNK);
            && w.data == old(w.data) + Stream(a, old(nonce.Contents()), pieces)
            && nonce.Contents() == Skip(old(nonce.Contents()), |pieces|)
  {
    var pieces := Chunks(data, MAX_CHUNK);
    ghost var start := nonce.Contents();
    for i := 0 to |pieces|
      invariant w.data == old(w.data) + Stream(a, start, pieces[..i])
      invariant nonce.Contents() == Skip(start, i)
    {
      var len := if |pieces[i]| <= 0xFFFF then |pieces[i]| else 0;
      var n := nonce.Current();
      var lenct := a.seal(n, Be16(len));
      nonce.Inc();
      n := nonce.Current();
      var payct := a.seal(n, pieces[i]);
      nonce.Inc();
      w.WriteAll(lenct + payct);
      StreamSnoc(a, start, pieces[..i], pieces[i]);
      assert pieces[..i + 1] == pieces[..i] + [pieces[i]];
    }
    assert pieces[..|pieces|] == pieces;
  }

  lemma PayloadStep(a: Aead, start: Bytes, datas: seq<Bytes>, i: nat)
    requires i < |datas|
    ensures var sent, pieces := PiecesOf(datas[..i]), Chunks(datas[i], MAX_CHUNK);
            && PiecesOf(datas[..i + 1]) == sent + pieces
            && Stream(a, start, sent + pieces) == Stream(a, start, sent) + Stream(a, Skip(start, |sent|), pieces)
            && Skip(Skip(start, |sent|), |pieces|) == Skip(start, |sent| + |pieces|)
  {
    var sent, pieces := PiecesOf(datas[..i]), Chunks(datas[i], MAX_CHUNK);
    PiecesAppend(datas[..i], datas[i]);
    assert datas[..i + 1] == datas[..i] + [datas[i]];
    StreamAppend(a, start, sent, pieces);
    SkipAdds(start, |sent|, |pieces|);
  }

  lemma {:induction false} PiecesAppend(datas: seq<Bytes>, last: Bytes)
    ensures PiecesOf(datas + [last]) == PiecesOf(datas) + Chunks(last, MAX_CHUNK)
  {
    hide Chunks, Join;
    if datas == [] {
      assert PiecesOf([last]) == Chunks(last, MAX_CHUNK) + PiecesOf([]);
      assert datas + [last] == [last];
    } else {
      PiecesAppend(datas[1..], last);
      assert (datas + [last])[1..] == datas[1..] + [last];
      assert PiecesOf(datas + [last]) == Chunks(datas[0], MAX_CHUNK) + PiecesOf(datas[1..] + [last]);
    }
  }

  /** Payload after payload under one running nonce. */
  method WritePayloads(w: Sink, a: Aead, nonce: NonceCtr, datas: seq<Bytes>)
    requires nonce.Valid()
    modifies w, nonce.buf
    ensures w.data == old(w.data) + Stream(a, old(nonce.Contents()), PiecesOf(datas))
    ensures nonce.Contents() == Skip(old(nonce.Contents()), |PiecesOf(datas)|)
  {
    hide Chunks, Join;
    ghost var start := nonce.Contents();
    for i := 0 to |datas|
      invariant w.data == old(w.data) + Stream(a, start, PiecesOf(datas[..i]))
      invariant nonce.Contents() == Skip(start, |PiecesOf(datas[..i])|)
    {
      hide Stream, Skip, PiecesOf;
      PayloadStep(a, start, datas, i);
      WriteChunks(w, a, nonce, datas[i]);
    }
    assert datas[..|datas|] == datas;
  }

  /** The client relay's uplink: salt first, then the address chunk, then every payload in order. */
  method RelayUplink(w: Sink, s: Suite, master: Bytes, salt: Bytes, target: Destination, datas: seq<Bytes>)
    returns (ok: bool)
    modifies w
    ensures ok == Write(SHADOWSOCKS, target.address, target.port).Some?
    ensures ok ==> w.data == old(w.data)
                   + ClientWire(s, master, salt, Write(SHADOWSOCKS, target.address, target.port).value, datas)
  {
    hide Stream, Skip, PiecesOf, Chunks, Join, Write, SessionKey;
    w.WriteAll(salt);
    var a := SessionKey(s, master, salt);
    var nonce := new NonceCtr(s.nonceSize);
    var first := Write(SHADOWSOCKS, target.address, target.port);
    if first.None? {
      return false;
    }
    ghost var n, head, tail := FreshNonce(s), Chunks(first.value, MAX_CHUNK), PiecesOf(datas);
    assert nonce.Contents() == n;
    WriteChunks(w, a, nonce, first.value);
    WritePayloads(w, a, nonce, datas);
    StreamAppend(a, n, head, tail);
    Concat4(old(w.data), salt, Stream(a, n, head), Stream(a, Skip(n, |head|), tail));
    return true;
  }

  /** The server's trial decryption, user by user. */
  method FindUser(s: Suite, users: seq<User>, salt: Bytes, lenct: Bytes) returns (found: Option<nat>)
    ensures found == FirstOpening(s, users, salt, lenct)
  {
    var i := 0;
    while i < |users|
      invariant 0 <= i <= |users|
      invariant FirstOpening(s, users, salt, lenct)
             == match FirstOpening(s, users[i..], salt, lenct) case None => None case Some(k) => Some(k + i)
    {
      assert users[i..][0] == users[i] && users[i..][1..] == users[i + 1..];
      var trial := SessionKey(s, users[i].master, salt).open(FreshNonce(s), lenct);
      if trial.Some? {
        return Some(i);
      }
      i := i + 1;
    }
    return None;
  }

  /** Reads the first chunk behind the sealed length that gave the user away. */
  method AcceptChunk(
    r: Source, a: Aead, nonce: NonceCtr, user: nat, lenct: Bytes, text: IpText) returns (session: Session)
    requires nonce.Valid() && |lenct| == 2 + TAG && a.open(nonce.Contents(), lenct).Some?
    modifies r, nonce.buf
    ensures session == FirstTarget(user, text, ReadStep(a, old(nonce.Contents()), lenct + old(r.data), SERVER_LIMIT))
    ensures session.Accepted? ==> r.data == session.rest
  {
    hide Addr.Read, Incremented;
    ghost var src := lenct + r.data;
    assert src[..2 + TAG] == lenct && src[2 + TAG..] == r.data;
    var n := nonce.Current();
    var field := a.open(n, lenct).value;
    nonce.Inc();
    if |field| < 2 {
      return Denied;
    }
    var payct := r.ReadExact(FromBe16(field) + TAG);
    if payct.None? {
      return Denied;
    }
    n := nonce.Current();
    var plain := a.open(n, payct.value);
    if plain.None? {
      return Denied;
    }
    nonce.Inc();
    n := nonce.Current();
    match Addr.Read(SHADOWSOCKS, text, plain.value) {
      case Truncated => return Denied;
      case Bad(_) => return Denied;
      case Done((address, port), leftover) =>
        return Accepted(user, Destination(Tcp, address, port), leftover, r.data, n);
    }
  }

  /** The server's handshake on a live connection: exactly `Decode`, leaving the rest to be read. */
  method Accept(r: Source, s: Suite, users: seq<User>, text: IpText) returns (session: Session)
    modifies r
    ensures session == Decode(s, users, text, old(r.data))
    ensures session.Accepted? ==> r.data == session.rest
  {
    hide FirstOpening, FirstTarget, ReadStep, SessionKey;
    ghost var src := r.data;
    var salt := r.ReadExact(s.keySize);
    if salt.None? {
      return Denied;
    }
    var lenct := r.ReadExact(2 + TAG);
    if lenct.None? {
      return Denied;
    }
    assert src[s.keySize..] == lenct.value + r.data;
    var found := FindUser(s, users, salt.value, lenct.value);
    if found.None? {
      return Denied;
    }
    var nonce := new NonceCtr(s.nonceSize);
    assert nonce.Contents() == FreshNonce(s);
    var a := SessionKey(s, users[found.value].master, salt.value);
    session := AcceptChunk(r, a, nonce, found.value, lenct.value, text);
  }
}
