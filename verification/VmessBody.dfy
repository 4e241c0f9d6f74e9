/** The VMess chunk body: per-direction framing with SHAKE length masking and padding. */
module VmessBody {
  import opened Common
  import opened Bits
  import opened Crypto
  import opened Io

  type Iv = s: Bytes | |s| == 16 witness seq(16, i => 0)

  /** Fixed settings of one direction. `shake` is the keyed stream of words, present under masking. */
  datatype Codec = Codec(aead: Option<Aead>, iv: Iv, shake: Option<nat -> U16>, globalPadding: bool)

  /** Where a direction stands: the wrapping chunk counter, and how many words were drawn. */
  datatype Position = Position(count: U16, drawn: nat)

  /** Random padding content: byte `i` of the padding of the frame that starts at draw `d`. */
  type Noise = (nat, nat) -> Byte

  ghost predicate LawfulCodec(c: Codec) {
    c.aead.Some? ==> Lawful(c.aead.value)
  }

  function Overhead(c: Codec): nat {
    if c.aead.Some? then TAG else 0
  }

  /** Largest plaintext piece put in one frame. */
  function MaxPiece(c: Codec): (m: nat)
    ensures m > 0
  {
    var m := 8192 - Overhead(c) - 64;
    if m < 1 then 1 else m
  }

  function ChunkNonce(c: Codec, count: U16): Bytes {
    Be16(count) + c.iv[2..12]
  }

  function PaddingAt(c: Codec, drawn: nat): (n: nat)
    ensures n < 64
  {
    if c.globalPadding && c.shake.Some? then (c.shake.value)(drawn) % 64 else 0
  }

  function AfterPadding(c: Codec, drawn: nat): nat {
    if c.globalPadding && c.shake.Some? then drawn + 1 else drawn
  }

  function MaskAt(c: Codec, drawn: nat, size: U16): U16 {
    if c.shake.None? then size
    else
      var word: nat := (c.shake.value)(drawn);
      Pow2Sixteen();
      XorBound(word, size, 16);
      Xor(word, size)
  }

  function AfterMask(c: Codec, drawn: nat): nat {
    if c.shake.Some? then drawn + 1 else drawn
  }

  function SealAt(c: Codec, count: U16, piece: Bytes): Bytes {
    if c.aead.Some? then (c.aead.value.seal)(ChunkNonce(c, count), piece) else piece
  }

  function OpenAt(c: Codec, count: U16, ct: Bytes): Option<Bytes> {
    if c.aead.Some? then (c.aead.value.open)(ChunkNonce(c, count), ct) else Some(ct)
  }

  function NextCount(count: U16): U16 { (count + 1) % 0x1_0000 }

  function NextDrawn(c: Codec, drawn: nat): nat { AfterMask(c, AfterPadding(c, drawn)) }

  function Next(c: Codec, at: Position): Position {
    Position(NextCount(at.count), NextDrawn(c, at.drawn))
  }

  /** One frame: masked size, sealed piece, padding. The size saturates at the largest u16. */
  function Frame(c: Codec, noise: Noise, at: Position, piece: Bytes): Bytes {
    var pad := PaddingAt(c, at.drawn);
    var ct := SealAt(c, at.count, piece);
    var size := Min(|ct| + pad, 0xFFFF);
    Be16(MaskAt(c, AfterPadding(c, at.drawn), size)) + ct + seq(pad, i requires 0 <= i => noise(at.drawn, i))
  }

  /** Frames of a list of pieces. */
  function Wire(c: Codec, noise: Noise, at: Position, pieces: seq<Bytes>): Bytes
    decreases |pieces|
  {
    if pieces == [] then []
    else Frame(c, noise, at, pieces[0]) + Wire(c, noise, Next(c, at), pieces[1..])
  }

  function Advance(c: Codec, at: Position, n: nat): Position
    decreases n
  {
    if n == 0 then at else Advance(c, Next(c, at), n - 1)
  }

  /** A whole body: the frames of `pieces`, then the terminal empty frame. */
  function FullWire(c: Codec, noise: Noise, at: Position, pieces: seq<Bytes>): Bytes {
    Wire(c, noise, at, pieces) + Frame(c, noise, Advance(c, at, |pieces|), [])
  }

  /** The pieces a list of payloads is cut into, in order. */
  function PiecesOf(c: Codec, payloads: seq<Bytes>): (r: seq<Bytes>)
    ensures Join(r) == Join(payloads)
    ensures forall i :: 0 <= i < |r| ==> 0 < |r[i]| <= MaxPiece(c)
  {
    if payloads == [] then []
    else
      var head, tail := Chunks(payloads[0], MaxPiece(c)), PiecesOf(c, payloads[1..]);
      JoinAppend(head, tail);
      head + tail
  }

  /** Outcome of reading one chunk from `src`, with what is left and the reader's new position. */
  datatype Read =
    | Data(plain: Bytes, rest: Bytes, at: Position)
    | End(rest: Bytes, at: Position)
    | Failed(rest: Bytes, at: Position)

  function ReadStep(c: Codec, at: Position, src: Bytes): Read {
    if |src| < 2 then End([], at)
    else
      var padding := PaddingAt(c, at.drawn);
      var size := MaskAt(c, AfterPadding(c, at.drawn), FromBe16(src));
      var drawn := NextDrawn(c, at.drawn);
      var floor := Overhead(c) + padding;
      var body := src[2..];
      if size == floor then End(body, Position(at.count, drawn))
      else if size < floor then Failed(body, Position(at.count, drawn))
      else if |body| < size then Failed([], Position(at.count, drawn))
      else
        match OpenAt(c, at.count, body[..size - padding])
        case None => Failed(body[size..], Position(at.count, drawn))
        case Some(plain) => Data(plain, body[size..], Position(NextCount(at.count), drawn))
  }

  /** All plaintext delivered before the first end-of-stream or failure, and whether it was an end. */
  function ReadAll(c: Codec, at: Position, src: Bytes): (Bytes, bool)
    decreases |src|
  {
    match ReadStep(c, at, src)
    case Data(plain, rest, at') => var (more, ended) := ReadAll(c, at', rest); (plain + more, ended)
    case End(_, _) => ([], true)
    case Failed(_, _) => ([], false)
  }

  // ---- frame by frame ----

  /** The nonce, byte by byte: the counter, high byte first, then ten bytes of the iv from its third on. */
  lemma NonceBytes(c: Codec, count: U16)
    ensures |ChunkNonce(c, count)| == 12
    ensures ChunkNonce(c, count)[0] == count / 256 && ChunkNonce(c, count)[1] == count % 256
    ensures forall i :: 2 <= i < 12 ==> ChunkNonce(c, count)[i] == c.iv[i]
  {
  }

  /** A frame draws the padding length from the next word, when padding is on, and its size mask from the word after;
      without padding the next word is the mask, and without masking nothing is drawn. */
  lemma FrameDraws(c: Codec, noise: Noise, at: Position, piece: Bytes)
    requires LawfulCodec(c) && |piece| <= MaxPiece(c)
    ensures var f, d := Frame(c, noise, at, piece), at.drawn;
            var body := |f| - 2;
            var plain := |piece| + if c.aead.Some? then 16 else 0;
            && f[2..2 + plain] == (if c.aead.Some? then c.aead.value.seal(ChunkNonce(c, at.count), piece) else piece)
            && (c.shake.None? ==> body == plain && FromBe16(f) == body && NextDrawn(c, d) == d)
            && (c.shake.Some? && !c.globalPadding ==>
                  body == plain && FromBe16(f) == Xor(c.shake.value(d), body) && NextDrawn(c, d) == d + 1)
            && (c.shake.Some? && c.globalPadding ==>
                  && body == plain + c.shake.value(d) % 64
                  && FromBe16(f) == Xor(c.shake.value(d + 1), body) && NextDrawn(c, d) == d + 2)
  {
    FrameFits(c, noise, at, piece);
    var f := Frame(c, noise, at, piece);
    var size := |f| - 2;
    assert FromBe16(f) == FromBe16(f[..2]);
    assert f[..2] == Be16(MaskAt(c, AfterPadding(c, at.drawn), size));
  }

  /** No frame body exceeds 8191 bytes, so the size field never saturates. */
  lemma FrameFits(c: Codec, noise: Noise, at: Position, piece: Bytes)
    requires LawfulCodec(c) && |piece| <= MaxPiece(c)
    ensures |SealAt(c, at.count, piece)| == |piece| + Overhead(c)
    ensures |Frame(c, noise, at, piece)| == 2 + Overhead(c) + |piece| + PaddingAt(c, at.drawn) <= 2 + 8191
    ensures MaskAt(c, AfterPadding(c, at.drawn), FromBe16(Frame(c, noise, at, piece)))
            == |piece| + Overhead(c) + PaddingAt(c, at.drawn)
  {
    if c.aead.Some? {
      assert |(c.aead.value.seal)(ChunkNonce(c, at.count), piece)| == |piece| + TAG;
    }
    var drawn := AfterPadding(c, at.drawn);
    var size := |piece| + Overhead(c) + PaddingAt(c, at.drawn);
    var field := Be16(MaskAt(c, drawn, size));
    assert Frame(c, noise, at, piece)[..2] == field;
    assert FromBe16(Frame(c, noise, at, piece)) == FromBe16(field) == MaskAt(c, drawn, size);
    if c.shake.Some? {
      XorCancels((c.shake.value)(drawn), size);
    }
  }

  /** The reader undoes one frame and lands on the writer's position. */
  lemma FrameRoundTrip(c: Codec, noise: Noise, at: Position, piece: Bytes, rest: Bytes)
    requires LawfulCodec(c) && 0 < |piece| <= MaxPiece(c)
    ensures ReadStep(c, at, Frame(c, noise, at, piece) + rest) == Data(piece, rest, Next(c, at))
  {
    FrameFits(c, noise, at, piece);
    var f := Frame(c, noise, at, piece);
    var ct := SealAt(c, at.count, piece);
    var src := f + rest;
    assert src[..2] == f[..2] && FromBe16(src) == FromBe16(f);
    assert src[2..][..|ct|] == ct;
    assert src[2..][|f| - 2..] == rest;
  }

  /** The terminal frame reads as end-of-stream; its body stays unread and is not counted. */
  lemma TerminalRoundTrip(c: Codec, noise: Noise, at: Position, rest: Bytes)
    requires LawfulCodec(c)
    ensures var f := Frame(c, noise, at, []);
            ReadStep(c, at, f + rest) == End(f[2..] + rest, Position(at.count, NextDrawn(c, at.drawn)))
  {
    FrameFits(c, noise, at, []);
    var f := Frame(c, noise, at, []);
    assert (f + rest)[..2] == f[..2] && FromBe16(f + rest) == FromBe16(f);
    assert (f + rest)[2..] == f[2..] + rest;
  }

  /** A frame cut short delivers nothing: a lost size field ends the stream, a lost body fails it. */
  lemma CutFrame(c: Codec, noise: Noise, at: Position, piece: Bytes, k: nat)
    requires LawfulCodec(c) && 0 < |piece| <= MaxPiece(c) && k < |Frame(c, noise, at, piece)|
    ensures var r := ReadStep(c, at, Frame(c, noise, at, piece)[..k]);
            if k < 2 then r.End? else r.Failed?
  {
    FrameFits(c, noise, at, piece);
    var f := Frame(c, noise, at, piece);
    if k >= 2 {
      assert FromBe16(f[..k]) == FromBe16(f);
    }
  }

  /** A piece is at most 8112 bytes when sealed, 8128 when not. */
  lemma PieceLimit(c: Codec)
    ensures MaxPiece(c) == if c.aead.Some? then 8112 else 8128
  {
  }

  /** What any announced size leads to: nothing behind tag and padding is the end, less is an error, more than there
      is is an error, and so is a piece that does not open; the counter moves only past a piece that opens. */
  lemma SizeJudged(c: Codec, at: Position, size: U16, body: Bytes)
    ensures var floor := PaddingAt(c, at.drawn) + if c.aead.Some? then 16 else 0;
            var r := ReadStep(c, at, Be16(MaskAt(c, AfterPadding(c, at.drawn), size)) + body);
            && (size == floor ==> r == End(body, Position(at.count, NextDrawn(c, at.drawn))))
            && (size < floor ==> r == Failed(body, Position(at.count, NextDrawn(c, at.drawn))))
            && (size > floor && |body| < size ==> r.Failed? && r.at.count == at.count)
            && (size > floor && |body| >= size ==>
                  var plain := OpenAt(c, at.count, body[..size - PaddingAt(c, at.drawn)]);
                  if plain.Some? then r == Data(plain.value, body[size..], Next(c, at))
                  else r.Failed? && r.rest == body[size..] && r.at.count == at.count)
  {
    var masked := MaskAt(c, AfterPadding(c, at.drawn), size);
    var src := Be16(masked) + body;
    assert src[..2] == Be16(masked) && FromBe16(src) == FromBe16(src[..2]) == masked && src[2..] == body;
    if c.shake.Some? {
      XorCancels(c.shake.value(AfterPadding(c, at.drawn)), size);
    }
  }

  // ---- whole bodies ----

  /** How many whole frames the first `k` bytes of a body hold. */
  function WholeFrames(c: Codec, noise: Noise, at: Position, pieces: seq<Bytes>, k: nat): (j: nat)
    ensures j <= |pieces|
    decreases |pieces|
  {
    if pieces == [] || k < |Frame(c, noise, at, pieces[0])| then 0
    else 1 + WholeFrames(c, noise, Next(c, at), pieces[1..], k - |Frame(c, noise, at, pieces[0])|)
  }

  /** How many bytes of the cut lie past the last whole frame. */
  function PastFrames(c: Codec, noise: Noise, at: Position, pieces: seq<Bytes>, k: nat): nat
    decreases |pieces|
  {
    if pieces == [] || k < |Frame(c, noise, at, pieces[0])| then k
    else PastFrames(c, noise, Next(c, at), pieces[1..], k - |Frame(c, noise, at, pieces[0])|)
  }

  lemma {:induction false} CutPosition(c: Codec, noise: Noise, at: Position, pieces: seq<Bytes>, k: nat)
    ensures var j := WholeFrames(c, noise, at, pieces, k);
            k == |Wire(c, noise, at, pieces[..j])| + PastFrames(c, noise, at, pieces, k)
    decreases |pieces|
  {
    hide Frame;
    if pieces != [] && k >= |Frame(c, noise, at, pieces[0])| {
      var j := WholeFrames(c, noise, at, pieces, k);
      CutPosition(c, noise, Next(c, at), pieces[1..], k - |Frame(c, noise, at, pieces[0])|);
      assert pieces[..j][0] == pieces[0] && pieces[..j][1..] == pieces[1..][..j - 1];
    }
  }

  lemma {:induction false} PrefixDelivers(
    c: Codec, noise: Noise, at: Position, pieces: seq<Bytes>, k: nat)
    requires LawfulCodec(c)
    requires forall i :: 0 <= i < |pieces| ==> 0 < |pieces[i]| <= MaxPiece(c)
    requires k <= |FullWire(c, noise, at, pieces)|
    ensures var j := WholeFrames(c, noise, at, pieces, k);
            && ReadAll(c, at, FullWire(c, noise, at, pieces)[..k]).0 == Join(pieces[..j])
            && (ReadAll(c, at, FullWire(c, noise, at, pieces)[..k]).1
                <==> j == |pieces| || PastFrames(c, noise, at, pieces, k) < 2)
            && (k == |FullWire(c, noise, at, pieces)| ==> j == |pieces|)
    decreases |pieces|
  {
    hide Frame, ReadAll, FullWire;
    if pieces == [] {
      NoPiecesWire(c, noise, at);
      PrefixOfTerminal(c, noise, at, k);
    } else {
      var f := Frame(c, noise, at, pieces[0]);
      var tail := FullWire(c, noise, Next(c, at), pieces[1..]);
      var whole := FullWire(c, noise, at, pieces);
      FullWireStep(c, noise, at, pieces);
      if k < |f| {
        assert whole[..k] == f[..k];
        CutReads(c, noise, at, pieces[0], k);
      } else {
        assert whole[..k] == f + tail[..k - |f|];
        ReadAllStep(c, noise, at, pieces[0], tail[..k - |f|]);
        PrefixDelivers(c, noise, Next(c, at), pieces[1..], k - |f|);
        var j := WholeFrames(c, noise, Next(c, at), pieces[1..], k - |f|);
        assert pieces[..j + 1][1..] == pieces[1..][..j];
        assert Join(pieces[..j + 1]) == pieces[0] + Join(pieces[1..][..j]);
      }
    }
  }

  lemma NoPiecesWire(c: Codec, noise: Noise, at: Position)
    ensures FullWire(c, noise, at, []) == Frame(c, noise, at, [])
  {
    hide Frame;
  }

  lemma FullWireStep(c: Codec, noise: Noise, at: Position, pieces: seq<Bytes>)
    requires pieces != []
    ensures FullWire(c, noise, at, pieces)
            == Frame(c, noise, at, pieces[0]) + FullWire(c, noise, Next(c, at), pieces[1..])
  {
    hide Frame;
  }

  lemma ReadAllStep(c: Codec, noise: Noise, at: Position, piece: Bytes, rest: Bytes)
    requires LawfulCodec(c) && 0 < |piece| <= MaxPiece(c)
    ensures var more := ReadAll(c, Next(c, at), rest);
            ReadAll(c, at, Frame(c, noise, at, piece) + rest) == (piece + more.0, more.1)
  {
    hide Frame, ReadStep;
    FrameRoundTrip(c, noise, at, piece, rest);
  }

  lemma CutReads(c: Codec, noise: Noise, at: Position, piece: Bytes, k: nat)
    requires LawfulCodec(c) && 0 < |piece| <= MaxPiece(c) && k < |Frame(c, noise, at, piece)|
    ensures ReadAll(c, at, Frame(c, noise, at, piece)[..k]) == ([], k < 2)
  {
    hide Frame, ReadStep;
    CutFrame(c, noise, at, piece, k);
  }

  /** Whatever prefix of a body arrives, exactly the pieces of its whole frames are delivered. The reader sees an end
      of stream if all data frames are whole or the cut leaves less than a size field of the next, which it cannot
      tell from a real end; it sees a failure otherwise. */
  lemma PrefixDeliversWholePieces(
    c: Codec, noise: Noise, at: Position, pieces: seq<Bytes>, k: nat)
    requires LawfulCodec(c)
    requires forall i :: 0 <= i < |pieces| ==> 0 < |pieces[i]| <= MaxPiece(c)
    requires k <= |FullWire(c, noise, at, pieces)|
    ensures var j := WholeFrames(c, noise, at, pieces, k);
            && ReadAll(c, at, FullWire(c, noise, at, pieces)[..k]).0 == Join(pieces[..j])
            && (ReadAll(c, at, FullWire(c, noise, at, pieces)[..k]).1
                <==> j == |pieces| || PastFrames(c, noise, at, pieces, k) < 2)
            && k == |Wire(c, noise, at, pieces[..j])| + PastFrames(c, noise, at, pieces, k)
            && (k == |FullWire(c, noise, at, pieces)| ==> j == |pieces|)
  {
    hide FullWire, ReadAll, WholeFrames, PastFrames, Wire;
    PrefixDelivers(c, noise, at, pieces, k);
    CutPosition(c, noise, at, pieces, k);
  }

  lemma PrefixOfTerminal(c: Codec, noise: Noise, at: Position, k: nat)
    requires LawfulCodec(c) && k <= |Frame(c, noise, at, [])|
    ensures ReadAll(c, at, Frame(c, noise, at, [])[..k]) == ([], true)
  {
    var f := Frame(c, noise, at, []);
    if k >= 2 {
      FrameFits(c, noise, at, []);
      assert FromBe16(f[..k]) == FromBe16(f);
    }
  }

  /** Reading a whole body gives every payload back, in order, and then end-of-stream. */
  lemma BodyRoundTrip(c: Codec, noise: Noise, at: Position, payloads: seq<Bytes>)
    requires LawfulCodec(c)
    ensures ReadAll(c, at, FullWire(c, noise, at, PiecesOf(c, payloads))) == (Join(payloads), true)
  {
    var pieces := PiecesOf(c, payloads);
    var whole := FullWire(c, noise, at, pieces);
    PrefixDeliversWholePieces(c, noise, at, pieces, |whole|);
    assert whole[..|whole|] == whole && pieces[..|pieces|] == pieces;
  }

  /** Reader and writer agree on counter and stream position after every data frame. */
  lemma {:induction false} LockStep(c: Codec, noise: Noise, at: Position, pieces: seq<Bytes>, rest: Bytes, n: nat)
    requires LawfulCodec(c) && n < |pieces|
    requires forall i :: 0 <= i < |pieces| ==> 0 < |pieces[i]| <= MaxPiece(c)
    ensures var here := Advance(c, at, n);
            ReadStep(c, here, Wire(c, noise, here, pieces[n..]) + rest)
            == Data(pieces[n], Wire(c, noise, Advance(c, at, n + 1), pieces[n + 1..]) + rest, Advance(c, at, n + 1))
  {
    var here := Advance(c, at, n);
    AdvanceStep(c, at, n);
    var f, tail := Frame(c, noise, here, pieces[n]), Wire(c, noise, Next(c, here), pieces[n + 1..]);
    assert pieces[n..][0] == pieces[n] && pieces[n..][1..] == pieces[n + 1..];
    assert Wire(c, noise, here, pieces[n..]) + rest == f + (tail + rest);
    FrameRoundTrip(c, noise, here, pieces[n], tail + rest);
  }

  lemma {:induction false} AdvanceStep(c: Codec, at: Position, n: nat)
    ensures Advance(c, at, n + 1) == Next(c, Advance(c, at, n))
    decreases n
  {
    if n > 0 {
      AdvanceStep(c, Next(c, at), n - 1);
    }
  }

  lemma WrapAdds(a: nat, b: nat)
    ensures (a % 0x1_0000 + b) % 0x1_0000 == (a + b) % 0x1_0000
  {
  }

  lemma {:induction false} AdvanceCount(c: Codec, at: Position, n: nat)
    ensures Advance(c, at, n).count == (at.count + n) % 0x1_0000
    decreases n
  {
    if n > 0 {
      AdvanceCount(c, Next(c, at), n - 1);
      WrapAdds(at.count + 1, n - 1);
    }
  }

  /** Nonces of any two frames fewer than 65536 apart differ; 65536 apart they coincide. */
  lemma {:induction false} NoncesDistinct(c: Codec, at: Position, i: nat, j: nat)
    requires i < j
    ensures j - i < 0x1_0000 ==>
              ChunkNonce(c, Advance(c, at, i).count) != ChunkNonce(c, Advance(c, at, j).count)
    ensures j - i == 0x1_0000 ==>
              ChunkNonce(c, Advance(c, at, i).count) == ChunkNonce(c, Advance(c, at, j).count)
  {
    hide Advance, ChunkNonce;
    AdvanceCount(c, at, i);
    AdvanceCount(c, at, j);
    WrapsApart(at.count + i, at.count + j);
    NonceInjective(c, Advance(c, at, i).count, Advance(c, at, j).count);
  }

  lemma WrapsApart(a: nat, b: nat)
    requires a < b
    ensures b - a < 0x1_0000 ==> a % 0x1_0000 != b % 0x1_0000
    ensures b - a == 0x1_0000 ==> a % 0x1_0000 == b % 0x1_0000
  {
  }

  lemma NonceInjective(c: Codec, a: U16, b: U16)
    ensures ChunkNonce(c, a) == ChunkNonce(c, b) <==> a == b
  {
    if ChunkNonce(c, a) == ChunkNonce(c, b) {
      assert Be16(a) == ChunkNonce(c, a)[..2] == ChunkNonce(c, b)[..2] == Be16(b);
      Be16Injective(a, b);
    }
  }

  lemma {:induction false} WireAppend(c: Codec, noise: Noise, at: Position, a: seq<Bytes>, b: seq<Bytes>)
    ensures Wire(c, noise, at, a + b) == Wire(c, noise, at, a) + Wire(c, noise, Advance(c, at, |a|), b)
    decreases |a|
  {
    if a == [] {
      assert a + b == b;
    } else {
      assert (a + b)[0] == a[0] && (a + b)[1..] == a[1..] + b;
      WireAppend(c, noise, Next(c, at), a[1..], b);
    }
  }

  lemma WireSnoc(c: Codec, noise: Noise, at: Position, done: seq<Bytes>, piece: Bytes)
    ensures Wire(c, noise, at, done + [piece])
            == Wire(c, noise, at, done) + Frame(c, noise, Advance(c, at, |done|), piece)
    ensures Advance(c, at, |done| + 1) == Next(c, Advance(c, at, |done|))
  {
    WireAppend(c, noise, at, done, [piece]);
    AdvanceStep(c, at, |done|);
    var here := Advance(c, at, |done|);
    assert [piece][1..] == [];
    assert Wire(c, noise, here, [piece]) == Frame(c, noise, here, piece) + Wire(c, noise, Next(c, here), []);
  }

  // ---- the stateful codec ----

  datatype ChunkResult = Chunk(data: Bytes) | Eof | Invalid

  class Body {
    const codec: Codec
    var count: U16
    var drawn: nat

    constructor (codec: Codec)
      ensures this.codec == codec && At() == Position(0, 0)
    {
      this.codec, count, drawn := codec, 0, 0;
    }

    ghost function At(): Position
      reads this
    {
      Position(count, drawn)
    }

    method NextPadding() returns (n: nat)
      modifies this`drawn
      ensures n == PaddingAt(codec, old(drawn)) && drawn == AfterPadding(codec, old(drawn))
    {
      n := 0;
      if codec.globalPadding && codec.shake.Some? {
        n := (codec.shake.value)(drawn) % 64;
        drawn := drawn + 1;
      }
    }

    method MaskSize(size: U16) returns (masked: U16)
      modifies this`drawn
      ensures masked == MaskAt(codec, old(drawn), size) && drawn == AfterMask(codec, old(drawn))
    {
      masked := MaskAt(codec, drawn, size);
      if codec.shake.Some? {
        drawn := drawn + 1;
      }
    }

    method SealPiece(piece: Bytes) returns (ct: Bytes)
      modifies this`count
      ensures ct == SealAt(codec, old(count), piece) && count == NextCount(old(count))
    {
      ct := SealAt(codec, count, piece);
      count := (count + 1) % 0x1_0000;
    }

    method OpenPiece(ct: Bytes) returns (plain: Option<Bytes>)
      modifies this`count
      ensures plain == OpenAt(codec, old(count), ct)
      ensures count == if plain.Some? then NextCount(old(count)) else old(count)
    {
      plain := OpenAt(codec, count, ct);
      if plain.Some? {
        count := (count + 1) % 0x1_0000;
      }
    }

    /** Reads one chunk, exactly as `ReadStep` on the bytes still to come. */
    method ReadChunk(r: Source) returns (res: ChunkResult)
      modifies this, r
      ensures match ReadStep(codec, old(At()), old(r.data))
              case Data(plain, rest, at) => res == Chunk(plain) && r.data == rest && At() == at
              case End(rest, at) => res == Eof && r.data == rest && At() == at
              case Failed(rest, at) => res == Invalid && r.data == rest && At() == at
    {
      ghost var was := r.data;
      var field := r.ReadExact(2);
      if field.None? {
        return Eof;
      }
      assert field.value == was[..2];
      var padding := NextPadding();
      var size := MaskSize(FromBe16(field.value));
      var floor := (if codec.aead.Some? then TAG else 0) + padding;
      if size == floor {
        return Eof;
      }
      if size < floor {
        return Invalid;
      }
      var chunk := r.ReadExact(size);
      if chunk.None? {
        return Invalid;
      }
      var plain := OpenPiece(chunk.value[..size - padding]);
      assert was[2..][..size][..size - padding] == was[2..][..size - padding];
      res := if plain.Some? then Chunk(plain.value) else Invalid;
    }

    method WriteFrame(w: Sink, piece: Bytes, noise: Noise)
      modifies this, w
      ensures w.data == old(w.data) + Frame(codec, noise, old(At()), piece)
      ensures At() == Next(codec, old(At()))
    {
      ghost var at := At();
      var start := drawn;
      var padding := NextPadding();
      var ct := SealPiece(piece);
      var masked := MaskSize(Min(|ct| + padding, 0xFFFF));
      var frame := Be16(masked) + ct + seq(padding, i requires 0 <= i => noise(start, i));
      assert frame == Frame(codec, noise, at, piece);
      w.WriteAll(frame);
    }

    /** Writes the frames of `data`, cut into pieces of at most `MaxPiece`. */
    method WriteChunk(w: Sink, data: Bytes, noise: Noise)
      modifies this, w
      ensures var pieces := Chunks(data, MaxPiece(codec));
              && w.data == old(w.data) + Wire(codec, noise, old(At()), pieces)
              && At() == Advance(codec, old(At()), |pieces|)
    {
      var pieces := Chunks(data, MaxPiece(codec));
      ghost var start := At();
      for i := 0 to |pieces|
        invariant w.data == old(w.data) + Wire(codec, noise, start, pieces[..i])
        invariant At() == Advance(codec, start, i)
      {
        WriteFrame(w, pieces[i], noise);
        WireSnoc(codec, noise, start, pieces[..i], pieces[i]);
        assert pieces[..i + 1] == pieces[..i] + [pieces[i]];
      }
      assert pieces[..|pieces|] == pieces;
    }

    /** The terminal marker is an empty frame. */
    method WriteTerminal(w: Sink, noise: Noise)
      modifies this, w
      ensures w.data == old(w.data) + Frame(codec, noise, old(At()), [])
      ensures At() == Next(codec, old(At()))
    {
      WriteFrame(w, [], noise);
    }
  }
}
