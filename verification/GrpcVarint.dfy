/** Protobuf base-128 varints over 64-bit words. */
module GrpcVarint {
  import opened Common
  import opened Bits

  lemma Pow2SixtyFour()
    ensures Pow2(64) == U64
  {
    Pow2Sixteen();
    Pow2Add(16, 16);
    Pow2Add(32, 32);
  }

  /** Seven bits per byte, low bits first, high bit set on all but the last. */
  function Varint(v: nat): (r: Bytes)
    ensures r != []
    decreases v
  {
    if v >= 0x80 then [v % 128 + 128] + Varint(v / 128) else [v]
  }

  /** Or-ing in the byte `b` at bit `shift`, as a 64-bit shift does it. */
  function OrIn(acc: nat, b: Byte, shift: nat): nat {
    Or(acc, ((b % 128) * Pow2(shift)) % U64)
  }

  function ReadFrom(src: Bytes, shift: nat, acc: nat): Option<(nat, Bytes)>
    decreases |src|
  {
    if src == [] || shift >= 64 then None
    else if src[0] < 128 then Some((OrIn(acc, src[0], shift), src[1..]))
    else ReadFrom(src[1..], shift + 7, OrIn(acc, src[0], shift))
  }

  function ReadVarint(src: Bytes): Option<(nat, Bytes)> { ReadFrom(src, 0, 0) }

  lemma OrInAdds(acc: nat, b: Byte, shift: nat)
    requires acc < Pow2(shift) && acc + (b % 128) * Pow2(shift) < U64
    ensures OrIn(acc, b, shift) == acc + (b % 128) * Pow2(shift)
  {
    var x := (b % 128) * Pow2(shift);
    assert x % U64 == x;
    OrDisjoint(acc, b % 128, shift);
  }

  lemma {:induction false} VarintHead(v: nat, rest: Bytes)
    ensures var src := Varint(v) + rest;
            if v < 0x80 then src[0] == v && src[1..] == rest
            else src[0] == v % 128 + 128 && src[1..] == Varint(v / 128) + rest
  {
  }

  lemma {:induction false} ReadFromVarint(v: nat, rest: Bytes, shift: nat, acc: nat)
    requires shift < 64 && acc < Pow2(shift) && acc + v * Pow2(shift) < U64
    ensures ReadFrom(Varint(v) + rest, shift, acc) == Some((acc + v * Pow2(shift), rest))
    decreases v
  {
    hide OrIn, Varint, Pow2;
    VarintHead(v, rest);
    if v < 0x80 {
      OrInAdds(acc, v, shift);
    } else {
      var low, high, p := v % 128, v / 128, Pow2(shift);
      RoomForMore(high, shift);
      SplitWord(v, p, Pow2(shift + 7));
      OrInAdds(acc, low + 128, shift);
      ReadFromVarint(high, rest, shift + 7, acc + low * p);
    }
  }

  lemma {:induction false} RoomForMore(high: nat, shift: nat)
    requires high >= 1
    ensures Pow2(shift + 7) == 128 * Pow2(shift)
    ensures high * Pow2(shift + 7) < U64 ==> shift + 7 < 64
  {
    assert Pow2(7) == 128;
    Pow2Add(shift, 7);
    if shift + 7 >= 64 {
      Pow2SixtyFour();
      Pow2Monotone(64, shift + 7);
      MulMonotone(1, high, Pow2(shift + 7));
    }
  }

  lemma SplitWord(v: nat, p: nat, q: nat)
    requires p > 0 && q == 128 * p && v >= 128
    ensures v * p == (v % 128) * p + (v / 128) * q
    ensures (v % 128) * p <= 127 * p && v / 128 >= 1
  {
    assert v == v % 128 + 128 * (v / 128);
    MulMonotone(v % 128, 127, p);
  }

  /** Every 64-bit value survives encoding and decoding, with whatever follows left over. */
  lemma VarintRoundTrip(v: nat, rest: Bytes)
    requires v < U64
    ensures ReadVarint(Varint(v) + rest) == Some((v, rest))
  {
    ReadFromVarint(v, rest, 0, 0);
  }

  /** Decoding consumes at least one byte. */
  lemma {:induction false} ReadFromConsumes(src: Bytes, shift: nat, acc: nat)
    ensures match ReadFrom(src, shift, acc)
            case None => true
            case Some((_, rest)) => |rest| < |src|
    decreases |src|
  {
    if src != [] && shift < 64 && src[0] >= 128 {
      ReadFromConsumes(src[1..], shift + 7, OrIn(acc, src[0], shift));
    }
  }

  // ---- the loops ----

  method PutVarint(v: nat) returns (out: Bytes)
    ensures out == Varint(v)
  {
    out := [];
    var w := v;
    while w >= 0x80
      invariant out + Varint(w) == Varint(v)
    {
      LowByteMarked(w);
      ghost var before := out;
      out := out + [Or(w % 256, 0x80)];
      assert Varint(w) == [w % 128 + 128] + Varint(w / 128);
      assert out + Varint(w / 128) == before + Varint(w);
      w := w / 128;
    }
    out := out + [w];
  }

  lemma {:induction false} LowByteMarked(w: nat)
    ensures Or(w % 256, 0x80) == w % 128 + 128
  {
    hide Or;
    assert Pow2(7) == 128;
    var low := w % 256;
    if low < 128 {
      OrDisjoint(low, 1, 7);
    } else {
      OrTopBit(low, 7);
    }
  }

  lemma {:induction false} OrTopBit(a: nat, k: nat)
    requires Pow2(k) <= a < Pow2(k + 1)
    ensures Or(a, Pow2(k)) == a
  {
    if k == 0 {
      assert a == 1 && Or(0, 0) == 0;
    } else {
      hide Or;
      OrTopBit(a / 2, k - 1);
      OrHalves(a, Pow2(k - 1));
    }
  }

  method VarintLen(v: nat) returns (n: nat)
    ensures n == |Varint(v)|
  {
    n := 1;
    var w := v;
    while w >= 0x80
      invariant n + |Varint(w)| == 1 + |Varint(v)|
    {
      w, n := w / 128, n + 1;
    }
  }

  method DecodeVarint(src: Bytes) returns (r: Option<(nat, Bytes)>)
    ensures r == ReadVarint(src)
  {
    var result, shift, i := 0, 0, 0;
    while i < |src|
      invariant 0 <= i <= |src|
      invariant ReadVarint(src) == ReadFrom(src[i..], shift, result)
    {
      if shift >= 64 {
        return None;
      }
      assert src[i..][0] == src[i] && src[i..][1..] == src[i + 1..];
      result := Or(result, ((src[i] % 128) * Pow2(shift)) % U64);
      if src[i] < 128 {
        return Some((result, src[i + 1..]));
      }
      shift, i := shift + 7, i + 1;
    }
    return None;
  }

  /** A varint is refused exactly when none of the first ten bytes there are ends it. */
  lemma VarintRefused(src: Bytes)
    ensures ReadVarint(src) == None <==> forall i :: 0 <= i < |src| && i < 10 ==> src[i] >= 128
  {
    ReadFromRefused(src, 0, 0);
  }

  lemma {:induction false} ReadFromRefused(src: Bytes, k: nat, acc: nat)
    ensures ReadFrom(src, 7 * k, acc) == None <==> forall i :: 0 <= i < |src| && i < 10 - k ==> src[i] >= 128
    decreases |src|
  {
    hide OrIn;
    if src != [] && k < 10 {
      ReadFromRefused(src[1..], k + 1, OrIn(acc, src[0], 7 * k));
      assert 7 * k + 7 == 7 * (k + 1);
      assert forall i :: 0 < i < |src| ==> src[i] == src[1..][i - 1];
      assert forall i :: 0 <= i < |src[1..]| ==> src[1..][i] == src[i + 1];
    }
  }
}
