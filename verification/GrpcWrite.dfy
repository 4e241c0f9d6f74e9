/** The write side of the gRPC tunnel: framing and flow-controlled sending. */
module GrpcWrite {
  import opened Common
  import opened GrpcHunk
  import GrpcVarint

  /** What flow control answers to one request for capacity. */
  datatype Capacity = Granted(n: nat) | Wait | Lost

  datatype Flushed = Drained | Blocked | Broken

  datatype Written = Accepted(n: nat) | WritePending | WriteFailed

  /** Everything framed for a list of payloads. */
  function HunksOf(payloads: seq<Bytes>): Bytes
    requires forall i :: 0 <= i < |payloads| ==> EncodeHunk(payloads[i]).Some?
  {
    if payloads == [] then [] else EncodeHunk(payloads[0]).value + HunksOf(payloads[1..])
  }

  lemma {:induction false} HunksSnoc(payloads: seq<Bytes>, last: Bytes)
    requires forall i :: 0 <= i < |payloads| ==> EncodeHunk(payloads[i]).Some?
    requires EncodeHunk(last).Some?
    ensures HunksOf(payloads + [last]) == HunksOf(payloads) + EncodeHunk(last).value
  {
    hide EncodeHunk;
    if payloads == [] {
      assert payloads + [last] == [last] && [last][1..] == [];
      assert HunksOf([last]) == EncodeHunk(last).value + HunksOf([]);
    } else {
      HunksSnoc(payloads[1..], last);
      assert (payloads + [last])[1..] == payloads[1..] + [last];
      assert (payloads + [last])[0] == payloads[0];
    }
  }

  /** The message around a payload is one that the decoder takes. */
  predicate Decodable(payload: Bytes) { 1 + |GrpcVarint.Varint(|payload|)| + |payload| <= MAX_FRAME }

  lemma {:induction false} HunkDecodes(payload: Bytes, rest: Bytes)
    requires EncodeHunk(payload).Some?
    ensures TryDecode(EncodeHunk(payload).value + rest)
            == if Decodable(payload) then Payload(payload, rest) else Malformed
  {
    if Decodable(payload) {
      hide TryDecode, ParseHunk;
      EncodeHunkIsMessage(payload);
      MessageDecodes(Message([], payload, []), rest);
    } else {
      hide ParseHunk;
      OversizeRefused(payload, rest);
    }
  }

  /** The encoder writes lengths that the decoder refuses. */
  lemma {:induction false} OversizeRefused(payload: Bytes, rest: Bytes)
    requires EncodeHunk(payload).Some? && !Decodable(payload)
    ensures TryDecode(EncodeHunk(payload).value + rest) == Malformed
  {
    hide ParseHunk;
    var n := 1 + |GrpcVarint.Varint(|payload|)| + |payload|;
    var src := EncodeHunk(payload).value + rest;
    assert src[1..5] == Be32(n) && FromBe32(src[1..5]) == n;
  }

  /** For instance, every payload from the decoder's limit up to twice as much. */
  lemma OversizeAccepted(payload: Bytes)
    requires MAX_FRAME <= |payload| < 2 * MAX_FRAME
    ensures EncodeHunk(payload).Some? && !Decodable(payload)
  {
    VarintAtMostFour(|payload|);
  }

  /** What is sent decodes at the other end to the payloads that were written exactly when every message is one that
      the decoder takes. */
  lemma {:induction false} WrittenDecodes(payloads: seq<Bytes>)
    requires forall i :: 0 <= i < |payloads| ==> EncodeHunk(payloads[i]).Some?
    ensures DecodeAll(HunksOf(payloads)) == Join(payloads)
            <==> forall i :: 0 <= i < |payloads| ==> Decodable(payloads[i])
  {
    hide EncodeHunk, TryDecode, Decodable;
    if payloads == [] {
      NothingDecodes();
    } else {
      var p, rest := payloads[0], payloads[1..];
      HunkDecodes(p, HunksOf(rest));
      WrittenDecodes(rest);
      assert forall i :: 0 < i < |payloads| ==> payloads[i] == rest[i - 1];
      assert forall i :: 0 <= i < |rest| ==> rest[i] == payloads[i + 1];
      if Decodable(p) {
        SameTails(p, DecodeAll(HunksOf(rest)), Join(rest));
      } else {
        EmptyDecodable();
      }
    }
  }

  lemma NothingDecodes()
    ensures DecodeAll([]) == []
  {
  }

  lemma EmptyDecodable()
    ensures Decodable([])
  {
  }

  lemma SameTails(p: Bytes, a: Bytes, b: Bytes)
    ensures p + a == p + b <==> a == b
  {
    assert (p + a)[|p|..] == a && (p + b)[|p|..] == b;
  }

  /** Capacity granted before the first wait. */
  function Leading(caps: seq<Capacity>): nat {
    if caps == [] || !caps[0].Granted? || caps[0].n == 0 then 0 else caps[0].n + Leading(caps[1..])
  }

  /** Capacity granted before the stream is lost. */
  function Total(caps: seq<Capacity>): nat {
    if caps == [] || caps[0].Lost? then 0 else (if caps[0].Granted? then caps[0].n else 0) + Total(caps[1..])
  }

  /** What is left of the answers once `n` bytes are sent, or none can be sent any more. */
  function After(caps: seq<Capacity>, n: nat): seq<Capacity>
    decreases |caps|
  {
    if n == 0 || caps == [] then caps
    else
      match caps[0]
      case Lost => caps[1..]
      case Wait => After(caps[1..], n)
      case Granted(g) => After(caps[1..], if g <= n then n - g else 0)
  }

  /** All capacity granted. */
  function Sum(caps: seq<Capacity>): nat {
    if caps == [] then 0 else (if caps[0].Granted? then caps[0].n else 0) + Sum(caps[1..])
  }

  /** A write behind a buffer of this size is accepted: it is nonempty, can be framed, and the buffer drains. */
  predicate Takes(buffered: nat, buf: Bytes, caps: seq<Capacity>) {
    buf != [] && EncodeHunk(buf).Some? && Leading(caps) >= buffered
  }

  class Writer {
    var writeBuf: Bytes
    var sent: Bytes
    var trailersSent: bool
    var trailers: nat
    ghost var accepted: seq<Bytes>

    constructor ()
      ensures Valid() && accepted == [] && sent == [] && trailers == 0
    {
      writeBuf, sent, trailersSent, trailers, accepted := [], [], false, 0, [];
    }

    /** Bytes handed to HTTP/2, followed by the buffer, are the hunks of all accepted writes. */
    ghost predicate Valid()
      reads this
    {
      && (forall i :: 0 <= i < |accepted| ==> EncodeHunk(accepted[i]).Some?)
      && sent + writeBuf == HunksOf(accepted)
      && trailers == if trailersSent then 1 else 0
    }

    /** Sends as much of the buffer as capacity allows; only ever moves bytes from buffer to wire. */
    method FlushWriteBuf(caps: seq<Capacity>) returns (r: Flushed, left: seq<Capacity>)
      requires Valid()
      modifies this`writeBuf, this`sent
      ensures Valid() && old(sent) <= sent
      ensures r.Drained? <==> writeBuf == []
      ensures |sent| - |old(sent)| == Min(Leading(caps), |old(writeBuf)|)
      ensures |sent| - |old(sent)| + Sum(left) <= Sum(caps)
      ensures r.Broken? ==> Lost in caps
      ensures forall c :: c in left ==> c in caps
    {
      left := caps;
      ghost var moved := 0;
      while writeBuf != []
        invariant Valid() && old(sent) <= sent
        invariant |sent| == |old(sent)| + moved && |writeBuf| == |old(writeBuf)| - moved
        invariant Min(Leading(caps), |old(writeBuf)|) == moved + Min(Leading(left), |writeBuf|)
        invariant moved + Sum(left) <= Sum(caps) && forall c :: c in left ==> c in caps
        decreases |left|
      {
        if left == [] {
          return Blocked, [];
        }
        var answer := left[0];
        left := left[1..];
        match answer {
          case Lost => return Broken, left;
          case Wait => return Blocked, left;
          case Granted(cap) =>
            if cap == 0 {
              return Blocked, left;
            }
            var n := Min(cap, |writeBuf|);
            assert sent + writeBuf == sent + writeBuf[..n] + writeBuf[n..];
            sent, writeBuf := sent + writeBuf[..n], writeBuf[n..];
            moved := moved + n;
        }
      }
      return Drained, left;
    }

    /** Accepts one payload as one hunk, exactly when the previous hunk could leave the buffer. The payload stays
        accepted when the flush behind it then finds the stream lost, although the call reports a failure. */
    method PollWrite(buf: Bytes, caps: seq<Capacity>) returns (r: Written)
      requires Valid()
      modifies this`writeBuf, this`sent, this`accepted
      ensures Valid() && old(sent) <= sent && |sent| - |old(sent)| <= Sum(caps)
      ensures accepted == old(accepted) + if Takes(|old(writeBuf)|, buf, caps) then [buf] else []
      ensures r.Accepted? ==> r.n == |buf| && (buf == [] || Takes(|old(writeBuf)|, buf, caps))
      ensures r.WritePending? ==> writeBuf != [] && Leading(caps) < |old(writeBuf)|
      ensures r.WriteFailed? ==> Lost in caps || (buf != [] && EncodeHunk(buf).None?)
    {
      hide EncodeHunk, HunksOf, Leading, Sum;
      var f, left := FlushWriteBuf(caps);
      if f.Broken? {
        return WriteFailed;
      }
      if f.Blocked? {
        return WritePending;
      }
      if buf == [] {
        return Accepted(0);
      }
      var hunk := EncodeHunk(buf);
      if hunk.None? {
        return WriteFailed;
      }
      HunksSnoc(accepted, buf);
      writeBuf := hunk.value;
      accepted := accepted + [buf];
      f, left := FlushWriteBuf(left);
      if f.Broken? {
        return WriteFailed;
      }
      return Accepted(|buf|);
    }

    /** Trailers go out at most once, and only behind an empty buffer. */
    method PollShutdown(caps: seq<Capacity>) returns (r: Flushed)
      requires Valid()
      modifies this`writeBuf, this`sent, this`trailersSent, this`trailers
      ensures Valid() && old(sent) <= sent
      ensures trailers != old(trailers) ==> old(trailers) == 0 && trailers == 1 && sent == HunksOf(accepted)
      ensures r.Drained? ==> trailers == 1 && writeBuf == []
      ensures Leading(caps) >= |old(writeBuf)| ==> r.Drained?
    {
      var f, left := FlushWriteBuf(caps);
      if !f.Drained? {
        return f;
      }
      if !trailersSent {
        trailers := trailers + 1;
        trailersSent := true;
      }
      return Drained;
    }
  }

  /** Splitting keeps the HTTP/2 stream and drops the buffer: whatever the write half goes on to send, the stream is
      that of all accepted writes exactly when the buffer was empty. */
  lemma SplitContinues(sent: Bytes, writeBuf: Bytes, accepted: seq<Bytes>, more: seq<Bytes>)
    requires forall i :: 0 <= i < |accepted| ==> EncodeHunk(accepted[i]).Some?
    requires forall i :: 0 <= i < |more| ==> EncodeHunk(more[i]).Some?
    requires sent + writeBuf == HunksOf(accepted)
    ensures sent + HunksOf(more) == HunksOf(accepted + more) <==> writeBuf == []
  {
    HunksAppend(accepted, more);
    assert |sent + writeBuf| == |HunksOf(accepted)|;
    if writeBuf == [] {
      assert sent + writeBuf == sent;
    }
  }

  lemma {:induction false} HunksAppend(a: seq<Bytes>, b: seq<Bytes>)
    requires forall i :: 0 <= i < |a| ==> EncodeHunk(a[i]).Some?
    requires forall i :: 0 <= i < |b| ==> EncodeHunk(b[i]).Some?
    ensures HunksOf(a + b) == HunksOf(a) + HunksOf(b)
  {
    hide EncodeHunk;
    if a == [] {
      assert a + b == b;
    } else {
      HunksAppend(a[1..], b);
      assert (a + b)[1..] == a[1..] + b;
    }
  }

  lemma SendStep(sent: Bytes, more: seq<Bytes>, i: nat)
    requires i < |more| && forall j :: 0 <= j < |more| ==> EncodeHunk(more[j]).Some?
    ensures sent + HunksOf(more[..i + 1]) == sent + HunksOf(more[..i]) + EncodeHunk(more[i]).value
  {
    hide EncodeHunk, HunksOf;
    HunksSnoc(more[..i], more[i]);
    assert more[..i + 1] == more[..i] + [more[i]];
  }

  /** The write half of a split stream. */
  method IntoSplit(stream: Writer) returns (half: WriteHalf)
    requires stream.Valid()
    ensures fresh(half) && half.sent == stream.sent
  {
    half := new WriteHalf();
    half.sent := stream.sent;
  }

  /** Splitting, then sending payload after payload: the stream goes on as that of all accepted writes and payloads
      exactly when nothing was buffered. */
  method SplitAndSend(stream: Writer, more: seq<Bytes>, caps: seq<seq<Capacity>>) returns (half: WriteHalf, ok: bool)
    requires stream.Valid() && |caps| == |more|
    requires forall i :: 0 <= i < |more| ==> more[i] != [] && EncodeHunk(more[i]).Some?
    ensures ok ==> half.sent == stream.sent + HunksOf(more)
    ensures ok ==> (half.sent == HunksOf(stream.accepted + more) <==> stream.writeBuf == [])
  {
    hide EncodeHunk;
    half := IntoSplit(stream);
    for i := 0 to |more|
      invariant fresh(half) && half.sent == stream.sent + HunksOf(more[..i])
    {
      ok := half.Send(more[i], caps[i]);
      if !ok {
        return;
      }
      SendStep(stream.sent, more, i);
    }
    ok := true;
    assert more[..|more|] == more;
    SplitContinues(stream.sent, stream.writeBuf, stream.accepted, more);
  }

  /** A first write without capacity is accepted and stays in the buffer; splitting then loses all of it. */
  method SplitLosesBytes(payload: Bytes) returns (stream: Writer, half: WriteHalf)
    requires payload != [] && EncodeHunk(payload).Some?
    ensures stream.Valid() && stream.accepted == [payload] && stream.writeBuf == EncodeHunk(payload).value
    ensures half.sent == [] && stream.writeBuf != []
  {
    stream := new Writer();
    var r := stream.PollWrite(payload, []);
    assert stream.sent == [] && stream.sent + stream.writeBuf == stream.writeBuf;
    assert [payload][1..] == [];
    assert HunksOf([payload]) == EncodeHunk(payload).value + HunksOf([]);
    half := IntoSplit(stream);
  }

  /** The write half: a header, then the payload, each sent as capacity allows. */
  class WriteHalf {
    var sent: Bytes

    constructor ()
      ensures sent == []
    {
      sent := [];
    }

    /** Sends a prefix of `data`; all of it unless the stream breaks or never gets capacity again. */
    method SendAll(data: Bytes, caps: seq<Capacity>) returns (ok: bool, left: seq<Capacity>, k: nat)
      modifies this
      ensures k <= |data| && sent == old(sent) + data[..k]
      ensures k == Min(Total(caps), |data|) && (ok <==> k == |data|) && left == After(caps, |data|)
    {
      left, k := caps, 0;
      var rest := data;
      while rest != []
        invariant k <= |data| && rest == data[k..] && sent == old(sent) + data[..k]
        invariant Min(Total(caps), |data|) == k + Min(Total(left), |rest|)
        invariant After(caps, |data|) == After(left, |rest|)
        decreases |left|
      {
        if left == [] {
          return false, [], k;
        }
        var answer := left[0];
        left := left[1..];
        if answer.Lost? {
          return false, left, k;
        }
        if answer.Granted? && answer.n > 0 {
          var n := Min(answer.n, |rest|);
          sent := sent + rest[..n];
          rest := rest[n..];
          assert data[..k + n] == data[..k] + data[k..][..n];
          k := k + n;
        }
      }
      ok := true;
    }

    /** Header then payload is the same byte stream as one encoded hunk. It succeeds exactly when capacity suffices for
        the header and what is left of it for the payload. */
    method Send(payload: Bytes, caps: seq<Capacity>) returns (ok: bool)
      modifies this
      ensures payload == [] ==> ok && sent == old(sent)
      ensures payload != [] && EncodeHunk(payload).None? ==> !ok && sent == old(sent)
      ensures payload != [] && EncodeHunk(payload).Some? ==>
                sent <= old(sent) + EncodeHunk(payload).value
      ensures payload != [] && ok ==> EncodeHunk(payload).Some? && sent == old(sent) + EncodeHunk(payload).value
      ensures payload != [] && EncodeHunk(payload).Some? ==>
                var head := |EncodeHunk(payload).value| - |payload|;
                ok <==> Total(caps) >= head && Total(After(caps, head)) >= |payload|
    {
      if payload == [] {
        return true;
      }
      var header := HunkHeader(|payload|);
      if header.None? {
        return false;
      }
      var left, k;
      ok, left, k := SendAll(header.value, caps);
      if !ok {
        return;
      }
      ok, left, k := SendAll(payload, left);
    }
  }
}
