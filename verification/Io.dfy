/** In-memory ends of a connection: what is still to be read, and what has been written. */
module Io {
  import opened Common

  class Source {
    var data: Bytes

    constructor (data: Bytes)
      ensures this.data == data
    {
      this.data := data;
    }

    /** Reads exactly `n` bytes; hitting the end first consumes what there was and yields nothing. */
    method ReadExact(n: nat) returns (r: Option<Bytes>)
      modifies this
      ensures n <= |old(data)| ==> r == Some(old(data)[..n]) && data == old(data)[n..]
      ensures n > |old(data)| ==> r == None && data == []
    {
      if n <= |data| {
        r, data := Some(data[..n]), data[n..];
      } else {
        r, data := None, [];
      }
    }
  }

  class Sink {
    var data: Bytes

    constructor ()
      ensures data == []
    {
      data := [];
    }

    method WriteAll(bytes: Bytes)
      modifies this
      ensures data == old(data) + bytes
    {
      data := data + bytes;
    }
  }

  /** A connection that hands over its bytes in arbitrary non-empty pieces, then ends. */
  class Conn {
    var incoming: seq<Bytes>

    constructor (incoming: seq<Bytes>)
      requires forall i :: 0 <= i < |incoming| ==> incoming[i] != []
      ensures this.incoming == incoming && Valid()
    {
      this.incoming := incoming;
    }

    ghost predicate Valid()
      reads this
    {
      forall i :: 0 <= i < |incoming| ==> incoming[i] != []
    }

    /** All bytes still to come. */
    ghost function Unread(): Bytes
      reads this
    {
      Join(incoming)
    }

    /** Reads at most `cap` bytes of the next piece; nothing means end of stream. */
    method Read(cap: nat) returns (chunk: Bytes)
      requires Valid() && cap > 0
      modifies this
      ensures Valid() && |chunk| <= cap
      ensures old(Unread()) == chunk + Unread()
      ensures chunk == [] <==> old(Unread()) == []
    {
      if incoming == [] {
        return [];
      }
      var head := incoming[0];
      if |head| <= cap {
        chunk, incoming := head, incoming[1..];
      } else {
        ghost var tail := incoming[1..];
        chunk, incoming := head[..cap], [head[cap..]] + incoming[1..];
        assert incoming[1..] == tail && head == head[..cap] + head[cap..];
      }
    }
  }
}
