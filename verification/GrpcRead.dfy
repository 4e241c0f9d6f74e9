/** The read side of the gRPC tunnel: reassembly across arbitrary DATA splits. */
module GrpcRead {
  import opened Common
  import opened GrpcHunk

  /** What polling the HTTP/2 stream can answer; running out of events is end of stream. */
  datatype Event = Arrived(data: Bytes) | NotYet | Reset

  datatype Poll = Ready(out: Bytes) | Pending | Failed

  /** All data that will arrive before the stream ends or is reset. */
  function Arriving(events: seq<Event>): Bytes
    decreases |events|
  {
    if events == [] then []
    else
      match events[0]
      case Arrived(data) => data + Arriving(events[1..])
      case NotYet => Arriving(events[1..])
      case Reset => []
  }

  /** Every read has room for at least one byte. */
  predicate AllRoomy(rooms: seq<nat>) { forall i :: 0 <= i < |rooms| ==> rooms[i] > 0 }

  class ReadHalf {
    var incoming: seq<Event>
    var recvBuf: Bytes
    var pending: Bytes
    var eof: bool

    constructor (incoming: seq<Event>)
      ensures this.incoming == incoming && Rest() == DecodeAll(Arriving(incoming)) && Valid()
    {
      hide DecodeAll, Arriving;
      this.incoming, recvBuf, pending, eof := incoming, [], [], false;
      new;
      assert [] + Arriving(incoming) == Arriving(incoming);
    }

    predicate Valid()
      reads this
    {
      eof ==> incoming == []
    }

    /** Payload bytes not yet handed to the reader, wherever they still are. */
    ghost function Rest(): Bytes
      reads this
    {
      pending + DecodeAll(recvBuf + Arriving(incoming))
    }

    /** Decodes one message off the receive buffer, moving its payload to `pending`. */
    method Advance() returns (r: Decoded)
      requires Valid() && pending == []
      modifies this`recvBuf, this`pending
      ensures r == TryDecode(old(recvBuf)) && Rest() == old(Rest())
      ensures r.Payload? ==> |recvBuf| < |old(recvBuf)|
      ensures !r.Payload? ==> recvBuf == old(recvBuf) && pending == []
    {
      r := TryDecode(recvBuf);
      DecodeStable(recvBuf, Arriving(incoming));
      if r.Payload? {
        recvBuf, pending := r.rest, r.data;
      }
    }

    /** As many pending bytes as there is room for. */
    method HandOver(room: nat) returns (r: Poll)
      requires pending != []
      modifies this`pending
      ensures r == Ready(old(pending)[..Min(|old(pending)|, room)])
      ensures old(Rest()) == r.out + Rest() && (r.out == [] ==> room == 0)
    {
      hide DecodeAll, Arriving;
      var n := Min(|pending|, room);
      ghost var tail := DecodeAll(recvBuf + Arriving(incoming));
      assert pending + tail == pending[..n] + (pending[n..] + tail);
      r := Ready(pending[..n]);
      pending := pending[n..];
    }

    /** One poll with room for `room` bytes: hands over the next payload bytes and loses none.
        An empty answer to a roomy poll means end of stream; failure only comes after all good data. */
    method PollRead(room: nat) returns (r: Poll)
      requires Valid()
      modifies this
      ensures Valid() && |incoming| <= |old(incoming)|
      ensures r.Ready? ==> old(Rest()) == r.out + Rest() && |r.out| <= room
      ensures r.Ready? && r.out == [] && room > 0 ==> eof && Rest() == []
      ensures old(pending) != [] ==> r == Ready(old(pending)[..Min(|old(pending)|, room)])
      ensures r.Pending? ==> Rest() == old(Rest()) && |incoming| < |old(incoming)|
      ensures r.Failed? ==>
                && old(Rest()) == []
                && (TryDecode(recvBuf).Malformed? || (incoming != [] && incoming[0].Reset?))
    {
      ghost var rest := Rest();
      while true
        invariant Valid() && Rest() == rest && |incoming| <= |old(incoming)|
        invariant old(pending) != [] ==> pending == old(pending)
        decreases |incoming|, if eof then 0 else 1, |recvBuf|
      {
        if pending != [] {
          r := HandOver(room);
          return;
        }
        var d := Advance();
        if d.Malformed? {
          DecodeStable(recvBuf, Arriving(incoming));
          return Failed;
        }
        if d.NeedMore? {
          if eof {
            assert recvBuf + [] == recvBuf;
            return Ready([]);
          }
          if incoming == [] {
            eof := true;
          } else {
            ghost var before := incoming;
            var event := incoming[0];
            match event {
              case Arrived(data) =>
                assert recvBuf + (data + Arriving(before[1..])) == recvBuf + data + Arriving(before[1..]);
                recvBuf, incoming := recvBuf + data, incoming[1..];
              case NotYet =>
                incoming := incoming[1..];
                return Pending;
              case Reset =>
                assert recvBuf + [] == recvBuf;
                return Failed;
            }
          }
        }
      }
    }

    /** Any series of polls hands over the payload in order: nothing lost, repeated or invented; and each poll
        with room gets on, so enough of them reach the end. */
    method PollMany(rooms: seq<nat>) returns (got: Bytes, done: bool)
      requires Valid()
      modifies this
      ensures Valid() && got <= old(Rest())
      ensures done ==> got == old(Rest())
      ensures AllRoomy(rooms) && |rooms| > |old(incoming)| + |old(Rest())| ==> done
    {
      got, done := [], false;
      ghost var all := Rest();
      for i := 0 to |rooms|
        invariant Valid() && all == got + Rest()
        invariant AllRoomy(rooms) ==> i + |incoming| <= |old(incoming)| + |got|
      {
        var r := PollRead(rooms[i]);
        if r.Failed? {
          return got, true;
        }
        if r.Ready? {
          ghost var before := got;
          got := got + r.out;
          assert all == before + (r.out + Rest());
          if r.out == [] && rooms[i] > 0 {
            return got, true;
          }
        }
      }
    }
  }

  /** Whatever the DATA splits, the waits and the read-buffer sizes, a reader sees a prefix of the
      sent payloads, and all of them once it is told that the stream is over, which enough reads bring about. */
  method ReadTunnel(ms: seq<Message>, events: seq<Event>, rooms: seq<nat>) returns (got: Bytes, done: bool)
    requires forall i :: 0 <= i < |ms| ==> Sound(ms[i])
    requires Arriving(events) == FramedAll(ms)
    ensures got <= PayloadsOf(ms)
    ensures done ==> got == PayloadsOf(ms)
    ensures AllRoomy(rooms) && |rooms| > |events| + |PayloadsOf(ms)| ==> done
  {
    StreamDecodes(ms);
    var half := new ReadHalf(events);
    got, done := half.PollMany(rooms);
  }
}
