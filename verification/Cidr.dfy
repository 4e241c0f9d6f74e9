/** CIDR matching: the byte-and-mask loop against integer arithmetic on addresses. */
module Cidr {
  import opened Common
  import opened Bits
  import opened Addr

  /** An address as the big-endian number its octets spell. */
  function ToInt(s: Bytes): nat {
    if s == [] then 0 else s[0] as int * Pow2(8 * (|s| - 1)) + ToInt(s[1..])
  }

  /** Two addresses of one width have the same network part. */
  predicate SameNetwork(net: Bytes, ip: Bytes, prefix: nat)
    requires |net| == |ip| && prefix <= 8 * |net|
  {
    var host := Pow2(8 * |net| - prefix);
    ToInt(net) / host == ToInt(ip) / host
  }

  /** `0xffu8` shifted left within a byte. */
  function Mask(shift: nat): (r: nat)
    ensures r < 256
  {
    (0xff * Pow2(shift)) % 256
  }

  lemma MaskValue(shift: nat)
    requires shift <= 8
    ensures Pow2(shift) <= 256 && Mask(shift) == 256 - Pow2(shift)
  {
    Pow2Sixteen();
    Pow2Monotone(shift, 8);
    var p := Pow2(shift);
    assert 0xff * p == (p - 1) * 256 + (256 - p);
    DivModUnique(0xff * p, 256, p - 1, 256 - p);
  }

  lemma {:induction false} ToIntBound(s: Bytes)
    ensures ToInt(s) < Pow2(8 * |s|)
  {
    hide Pow2;
    if s != [] {
      ToIntBound(s[1..]);
      Pow2Sixteen();
      Pow2Add(8, 8 * (|s| - 1));
      assert 8 + 8 * (|s| - 1) == 8 * |s|;
      RemainderBelow(s[0], ToInt(s[1..]), 256, Pow2(8 * (|s| - 1)));
    }
  }

  /** Two-digit numbers agree exactly when both digits do. */
  lemma DigitsAgree(m: nat, a: nat, x: nat, b: nat, y: nat)
    requires x < m && y < m
    ensures a * m + x == b * m + y <==> a == b && x == y
  {
    DivModUnique(a * m + x, m, a, x);
    DivModUnique(b * m + y, m, b, y);
  }

  lemma Regroup(a: nat, k: nat, host: nat, q: nat, r: nat)
    ensures a * (k * host) + (q * host + r) == (a * k + q) * host + r
  {
    assert a * (k * host) == (a * k) * host;
    assert (a * k + q) * host == (a * k) * host + q * host;
  }

  lemma QuotientBelow(q: nat, r: nat, k: nat, host: nat)
    requires q * host + r < k * host
    ensures q < k
  {
    if q >= k {
      MulMonotone(k, q, host);
      assert false;
    }
  }

  lemma RemainderBelow(q: nat, r: nat, k: nat, host: nat)
    requires q < k && r < host
    ensures q * host + r < k * host
  {
    MulMonotone(q + 1, k, host);
  }

  lemma Quotient(n: nat, d: nat) returns (q: nat, r: nat)
    requires d > 0
    ensures n == q * d + r && r < d && n / d == q
  {
    q, r := n / d, n % d;
  }

  /** Dividing by a divisor of the low part's modulus. */
  lemma QuotientSplit(a: nat, x: nat, k: nat, host: nat)
    requires host > 0 && x < k * host
    ensures (a * (k * host) + x) / host == a * k + x / host && x / host < k
  {
    var q, r := Quotient(x, host);
    QuotientBelow(q, r, k, host);
    Regroup(a, k, host, q, r);
    DivModUnique(a * (k * host) + x, host, a * k + q, r);
  }

  lemma WholeQuotient(net: Bytes, prefix: nat)
    requires |net| > 0 && 8 <= prefix <= 8 * |net|
    ensures var host, k := Pow2(8 * |net| - prefix), Pow2(prefix - 8);
            && ToInt(net) / host == net[0] as int * k + ToInt(net[1..]) / host
            && ToInt(net[1..]) / host < k
  {
    hide Pow2;
    var host, k := Pow2(8 * |net| - prefix), Pow2(prefix - 8);
    Pow2Add(prefix - 8, 8 * |net| - prefix);
    assert prefix - 8 + (8 * |net| - prefix) == 8 * (|net| - 1);
    ToIntBound(net[1..]);
    QuotientSplit(net[0], ToInt(net[1..]), k, host);
  }

  /** A whole leading octet inside the prefix. */
  lemma WholeOctet(net: Bytes, ip: Bytes, prefix: nat)
    requires |net| == |ip| > 0 && 8 <= prefix <= 8 * |net|
    ensures SameNetwork(net, ip, prefix) <==> net[0] == ip[0] && SameNetwork(net[1..], ip[1..], prefix - 8)
  {
    hide Pow2, ToInt;
    WholeQuotient(net, prefix);
    WholeQuotient(ip, prefix);
    var host := Pow2(8 * |net| - prefix);
    assert 8 * |net[1..]| - (prefix - 8) == 8 * |net| - prefix;
    DigitsAgree(Pow2(prefix - 8), net[0], ToInt(net[1..]) / host, ip[0], ToInt(ip[1..]) / host);
  }

  /** The leading octet cut by the prefix. */
  lemma CutOctet(net: Bytes, ip: Bytes, prefix: nat)
    requires |net| == |ip| > 0 && 0 < prefix < 8
    ensures SameNetwork(net, ip, prefix) <==> And(net[0], Mask(8 - prefix)) == And(ip[0], Mask(8 - prefix))
  {
    hide Pow2, ToInt, And, Mask;
    CutQuotient(net, prefix);
    CutQuotient(ip, prefix);
    MaskedOctet(net[0], prefix);
    MaskedOctet(ip[0], prefix);
    var s := Pow2(8 - prefix);
    DigitsAgree(s, net[0] as int / s, 0, ip[0] as int / s, 0);
  }

  lemma MaskedOctet(a: Byte, prefix: nat)
    requires 0 < prefix < 8
    ensures And(a, Mask(8 - prefix)) == (a as int / Pow2(8 - prefix)) * Pow2(8 - prefix)
  {
    hide Pow2, And, Mask;
    var s := Pow2(8 - prefix);
    var q, r := a as int / s, a as int % s;
    assert a as int == q * s + r;
    Pow2Sixteen();
    AndHighMask(a, 8, 8 - prefix, q, r);
    MaskValue(8 - prefix);
  }

  lemma CutQuotient(net: Bytes, prefix: nat)
    requires |net| > 0 && 0 < prefix < 8
    ensures ToInt(net) / Pow2(8 * |net| - prefix) == net[0] as int / Pow2(8 - prefix)
  {
    hide Pow2;
    var s, m := Pow2(8 - prefix), Pow2(8 * (|net| - 1));
    Pow2Add(8 - prefix, 8 * (|net| - 1));
    assert 8 - prefix + 8 * (|net| - 1) == 8 * |net| - prefix;
    ToIntBound(net[1..]);
    QuotientOfHead(net[0], ToInt(net[1..]), s, m);
  }

  lemma QuotientOfHead(a: nat, x: nat, s: nat, m: nat)
    requires s > 0 && x < m
    ensures s * m > 0 && (a * m + x) / (s * m) == a / s
  {
    var q, r := Quotient(a, s);
    RemainderBelow(r, x, s, m);
    Regroup(q, s, m, r, x);
    DivModUnique(a * m + x, s * m, q, r * m + x);
  }

  lemma NoPrefix(net: Bytes, ip: Bytes)
    requires |net| == |ip|
    ensures SameNetwork(net, ip, 0)
  {
    ToIntBound(net);
    ToIntBound(ip);
    DivModUnique(ToInt(net), Pow2(8 * |net|), 0, ToInt(net));
    DivModUnique(ToInt(ip), Pow2(8 * |net|), 0, ToInt(ip));
  }

  /** The loop over octet pairs decides agreement of the network parts. */
  method PrefixMatch(net: Bytes, ip: Bytes, prefix: nat) returns (r: bool)
    requires |net| == |ip| && prefix <= 8 * |net|
    ensures r == SameNetwork(net, ip, prefix)
  {
    hide SameNetwork, And, Mask, ToInt, Pow2;
    var bits: nat := prefix;
    assert net[0..] == net && ip[0..] == ip;
    for i := 0 to |net|
      invariant bits <= 8 * |net[i..]|
      invariant SameNetwork(net, ip, prefix) == SameNetwork(net[i..], ip[i..], bits)
    {
      if bits == 0 {
        NoPrefix(net[i..], ip[i..]);
        return true;
      }
      assert net[i..][1..] == net[i + 1..] && ip[i..][1..] == ip[i + 1..];
      if bits >= 8 {
        WholeOctet(net[i..], ip[i..], bits);
        if net[i] != ip[i] {
          return false;
        }
        bits := bits - 8;
      } else {
        CutOctet(net[i..], ip[i..], bits);
        var mask := Mask(8 - bits);
        if And(net[i], mask) != And(ip[i], mask) {
          return false;
        }
        bits := 0;
        NoPrefix(net[i + 1..], ip[i + 1..]);
      }
    }
    NoPrefix(net[|net|..], ip[|ip|..]);
    return true;
  }

  /** Agreement under a prefix gives agreement under every shorter one. */
  lemma ShorterPrefixMatches(net: Bytes, ip: Bytes, prefix: nat, shorter: nat)
    requires |net| == |ip| && shorter <= prefix <= 8 * |net| && SameNetwork(net, ip, prefix)
    ensures SameNetwork(net, ip, shorter)
  {
    hide Pow2, ToInt;
    var host, k := Pow2(8 * |net| - prefix), Pow2(prefix - shorter);
    Pow2Add(prefix - shorter, 8 * |net| - prefix);
    assert prefix - shorter + (8 * |net| - prefix) == 8 * |net| - shorter;
    QuotientTwice(ToInt(net), host, k);
    QuotientTwice(ToInt(ip), host, k);
  }

  lemma QuotientTwice(n: nat, host: nat, k: nat)
    requires host > 0 && k > 0
    ensures k * host > 0 && n / (k * host) == n / host / k
  {
    var q, r := Quotient(n, host);
    var q', r' := Quotient(q, k);
    RemainderBelow(r', r, k, host);
    Regroup(q', k, host, r', r);
    DivModUnique(n, k * host, q', r' * host + r);
  }

  /** The full width matches only the address itself. */
  lemma {:induction false} FullPrefixIsEquality(net: Bytes, ip: Bytes)
    requires |net| == |ip|
    ensures SameNetwork(net, ip, 8 * |net|) <==> net == ip
  {
    hide Pow2, ToInt;
    if net == [] {
      NoPrefix(net, ip);
    } else {
      WholeOctet(net, ip, 8 * |net|);
      FullPrefixIsEquality(net[1..], ip[1..]);
      assert net == [net[0]] + net[1..] && ip == [ip[0]] + ip[1..];
    }
  }

  function Octets(ip: IpAddr): Bytes { if ip.V4? then ip.v4 else ip.v6 }

  datatype Block = Block(addr: IpAddr, prefix: nat)

  /** A block as the parser leaves it: the prefix is no longer than the address. */
  predicate Sound(block: Block) { block.prefix <= 8 * |Octets(block.addr)| }

  /** Membership: same family and same network part. */
  predicate InBlock(block: Block, ip: IpAddr)
    requires Sound(block)
  {
    block.addr.V4? == ip.V4? && SameNetwork(Octets(block.addr), Octets(ip), block.prefix)
  }

  method Contains(block: Block, ip: IpAddr) returns (r: bool)
    requires Sound(block)
    ensures r == InBlock(block, ip)
  {
    match (block.addr, ip) {
      case (V4(net), V4(octets)) => r := PrefixMatch(net, octets, block.prefix);
      case (V6(net), V6(octets)) => r := PrefixMatch(net, octets, block.prefix);
      case _ => r := false;
    }
  }
}
