/** The little-endian counter nonce. */
module Nonce {
  import opened Common
  import Bits

  function Pow256(n: nat): (r: nat)
    ensures r > 0
  {
    if n == 0 then 1 else 256 * Pow256(n - 1)
  }

  /** The number a nonce spells, least significant byte first. */
  function Value(s: Bytes): nat {
    if s == [] then 0 else s[0] as nat + 256 * Value(s[1..])
  }

  /** Adding one, carrying while a byte wraps. */
  function Incremented(s: Bytes): Bytes {
    if s == [] then []
    else if s[0] == 255 then [0] + Incremented(s[1..])
    else [s[0] + 1] + s[1..]
  }

  function IncrementedBy(s: Bytes, n: nat): Bytes {
    if n == 0 then s else Incremented(IncrementedBy(s, n - 1))
  }

  lemma {:induction false} ValueBound(s: Bytes)
    ensures Value(s) < Pow256(|s|)
  {
    if s != [] {
      ValueBound(s[1..]);
    }
  }

  lemma {:induction false} ValueInjective(a: Bytes, b: Bytes)
    requires |a| == |b| && Value(a) == Value(b)
    ensures a == b
  {
    if a != [] {
      ValueInjective(a[1..], b[1..]);
      assert a == [a[0]] + a[1..] && b == [b[0]] + b[1..];
    }
  }

  lemma {:induction false} IncrementedValue(s: Bytes)
    ensures |Incremented(s)| == |s|
    ensures Value(Incremented(s)) == if Value(s) + 1 == Pow256(|s|) then 0 else Value(s) + 1
  {
    if s != [] {
      IncrementedValue(s[1..]);
      ValueBound(s[1..]);
      assert Incremented(s)[1..] == if s[0] == 255 then Incremented(s[1..]) else s[1..];
    }
  }

  lemma ModStep(x: nat, m: nat)
    requires m > 0
    ensures (x + 1) % m == if x % m + 1 == m then 0 else x % m + 1
  {
    var q, r := x / m, x % m;
    assert x == q * m + r;
    if r + 1 == m {
      assert x + 1 == (q + 1) * m;
      Bits.DivModUnique(x + 1, m, q + 1, 0);
    } else {
      Bits.DivModUnique(x + 1, m, q, r + 1);
    }
  }

  lemma ModApart(x: nat, d: nat, m: nat)
    requires 0 < d <= m
    ensures (x + d) % m == x % m <==> d == m
  {
    var q, r := x / m, x % m;
    assert x == q * m + r;
    if r + d < m {
      Bits.DivModUnique(x + d, m, q, r + d);
    } else {
      assert x + d == (q + 1) * m + (r + d - m);
      Bits.DivModUnique(x + d, m, q + 1, r + d - m);
    }
  }

  /** The counter counts modulo 256 to its size. */
  lemma {:induction false} CountsModulo(s: Bytes, n: nat)
    ensures |IncrementedBy(s, n)| == |s|
    ensures Value(IncrementedBy(s, n)) == (Value(s) + n) % Pow256(|s|)
  {
    if n == 0 {
      ValueBound(s);
      Bits.DivModUnique(Value(s), Pow256(|s|), 0, Value(s));
    } else {
      CountsModulo(s, n - 1);
      IncrementedValue(IncrementedBy(s, n - 1));
      ModStep(Value(s) + n - 1, Pow256(|s|));
    }
  }

  /** A nonce first repeats after exactly 256 to the size increments. */
  lemma NoEarlyRepeat(s: Bytes, i: nat, j: nat)
    requires i < j <= i + Pow256(|s|)
    ensures IncrementedBy(s, i) == IncrementedBy(s, j) <==> j - i == Pow256(|s|)
  {
    CountsModulo(s, i);
    CountsModulo(s, j);
    ModApart(Value(s) + i, j - i, Pow256(|s|));
    if Value(IncrementedBy(s, i)) == Value(IncrementedBy(s, j)) {
      ValueInjective(IncrementedBy(s, i), IncrementedBy(s, j));
    }
  }

  /** The counter of the ciphers: a fixed buffer of which the first `size` bytes count. */
  class NonceCtr {
    const buf: array<Byte>
    const size: nat

    constructor (size: nat)
      ensures Valid() && fresh(buf)
      ensures this.size == Min(size, 24) && Contents() == seq(this.size, i => 0)
    {
      var b := new Byte[24](i => 0);
      this.buf, this.size := b, if size <= 24 then size else 24;
      new;
      assert forall i :: 0 <= i < 24 ==> buf[i] == 0;
    }

    ghost predicate Valid()
      reads this
    {
      buf.Length == 24 && size <= 24
    }

    ghost function Contents(): (s: Bytes)
      requires Valid()
      reads this, buf
    {
      buf[..size]
    }

    method Current() returns (s: Bytes)
      requires Valid()
      ensures s == Contents()
    {
      s := buf[..size];
    }

    method Inc()
      requires Valid()
      modifies buf
      ensures Valid() && Contents() == Incremented(old(Contents()))
    {
      ghost var was := Contents();
      var i := 0;
      while i < size
        invariant 0 <= i <= size && Valid()
        invariant forall k :: 0 <= k < i ==> was[k] == 255 && buf[k] == 0
        invariant forall k :: i <= k < size ==> buf[k] == was[k]
      {
        if buf[i] == 255 {
          buf[i] := 0;
          i := i + 1;
        } else {
          buf[i] := buf[i] + 1;
          CarryStops(was, Contents(), i);
          return;
        }
      }
      CarryStops(was, Contents(), i);
    }
  }

  lemma {:induction false} CarryStops(was: Bytes, now: Bytes, i: nat)
    requires |now| == |was| && i <= |was|
    requires forall k :: 0 <= k < i ==> was[k] == 255 && now[k] == 0
    requires i < |was| ==> was[i] < 255 && now[i] == was[i] + 1
    requires forall k :: i < k < |was| ==> now[k] == was[k]
    ensures now == Incremented(was)
    decreases i
  {
    if i > 0 {
      CarryStops(was[1..], now[1..], i - 1);
      assert now == [0] + now[1..];
    }
  }
}
