/** Powers of two and the bitwise operators, defined bit by bit on naturals. */
module Bits {

  function Pow2(n: nat): (r: nat)
    ensures r > 0
  {
    if n == 0 then 1 else 2 * Pow2(n - 1)
  }

  lemma {:induction false} Pow2Add(a: nat, b: nat)
    ensures Pow2(a + b) == Pow2(a) * Pow2(b)
  {
    if a > 0 {
      Pow2Add(a - 1, b);
      assert a + b - 1 == (a - 1) + b;
    }
  }

  lemma Pow2Sixteen()
    ensures Pow2(8) == 256 && Pow2(16) == 0x1_0000
  {
    assert Pow2(4) == 16;
    Pow2Add(4, 4);
    Pow2Add(8, 8);
  }

  lemma {:induction false} Pow2Monotone(a: nat, b: nat)
    requires a <= b
    ensures Pow2(a) <= Pow2(b)
    decreases b
  {
    if a < b {
      Pow2Monotone(a, b - 1);
    }
  }

  function And(a: nat, b: nat): nat
    decreases a
  {
    if a == 0 then 0 else 2 * And(a / 2, b / 2) + (if a % 2 == 1 && b % 2 == 1 then 1 else 0)
  }

  function Or(a: nat, b: nat): nat
    decreases a
  {
    if a == 0 then b else 2 * Or(a / 2, b / 2) + (if a % 2 == 1 || b % 2 == 1 then 1 else 0)
  }

  function Xor(a: nat, b: nat): nat
    decreases a
  {
    if a == 0 then b else 2 * Xor(a / 2, b / 2) + (if a % 2 != b % 2 then 1 else 0)
  }

  /** Masking twice with the same word gives the original word back. */
  lemma {:induction false} XorCancels(a: nat, b: nat)
    ensures Xor(a, Xor(a, b)) == b
    decreases a
  {
    if a > 0 {
      XorCancels(a / 2, b / 2);
      var x := Xor(a, b);
      assert x / 2 == Xor(a / 2, b / 2) && x % 2 == (if a % 2 != b % 2 then 1 else 0);
      assert Xor(a, x) == 2 * Xor(a / 2, x / 2) + (if a % 2 != x % 2 then 1 else 0);
    }
  }

  lemma {:induction false} XorBound(a: nat, b: nat, k: nat)
    requires a < Pow2(k) && b < Pow2(k)
    ensures Xor(a, b) < Pow2(k)
    decreases k
  {
    if a > 0 {
      assert k > 0;
      XorBound(a / 2, b / 2, k - 1);
    }
  }

  lemma {:induction false} AndOdd(a: nat, b: nat)
    ensures And(a, 2 * b + 1) == 2 * And(a / 2, b) + a % 2
  {
  }

  lemma {:induction false} AndAllOnes(a: nat, w: nat)
    requires a < Pow2(w)
    ensures And(a, Pow2(w) - 1) == a
    decreases w
  {
    hide And;
    if w == 0 {
      AndNothing(Pow2(w) - 1);
    } else {
      AndAllOnes(a / 2, w - 1);
      AndOdd(a, Pow2(w - 1) - 1);
    }
  }

  lemma AndNothing(b: nat)
    ensures And(0, b) == 0
  {
  }

  /** Masking with ones above the low `s` bits of a `w`-bit word clears those bits. */
  lemma {:induction false} AndHighMask(a: nat, w: nat, s: nat, q: nat, r: nat)
    requires a < Pow2(w) && s <= w && a == q * Pow2(s) + r && r < Pow2(s)
    ensures Pow2(s) <= Pow2(w)
    ensures And(a, Pow2(w) - Pow2(s)) == q * Pow2(s)
    decreases w
  {
    hide And;
    Pow2Monotone(s, w);
    if s == 0 {
      AndAllOnes(a, w);
    } else {
      var m := Pow2(s - 1);
      var low: nat := Pow2(w - 1) - m;
      var t := q * m;
      assert q * Pow2(s) == 2 * t;
      AndHighMask(a / 2, w - 1, s - 1, q, r / 2);
      AndEven(a, low);
    }
  }

  lemma {:induction false} AndEven(a: nat, b: nat)
    ensures And(a, 2 * b) == 2 * And(a / 2, b)
  {
  }

  lemma MulMonotone(a: nat, b: nat, d: nat)
    requires a <= b
    ensures a * d <= b * d
  {
  }

  lemma DivModUnique(a: nat, d: nat, q: nat, r: nat)
    requires d > 0 && r < d && a == q * d + r
    ensures a / d == q && a % d == r
  {
    var q', r' := a / d, a % d;
    assert a == q' * d + r';
    if q' < q {
      MulMonotone(q' + 1, q, d);
      assert false;
    } else if q' > q {
      MulMonotone(q + 1, q', d);
      assert false;
    }
  }

  lemma {:induction false} OrHalves(a: nat, b: nat)
    requires a > 0
    ensures Or(a, 2 * b) == 2 * Or(a / 2, b) + a % 2
  {
  }

  /** Or-ing disjoint bit ranges is addition. */
  lemma {:induction false} OrDisjoint(a: nat, b: nat, k: nat)
    requires a < Pow2(k)
    ensures Or(a, b * Pow2(k)) == a + b * Pow2(k)
    decreases k
  {
    if a == 0 {
      OrNothing(b * Pow2(k));
    } else {
      hide Or;
      var half := Pow2(k - 1);
      var high := b * half;
      OrDisjoint(a / 2, b, k - 1);
      TwiceProduct(b, half);
      OrHalves(a, high);
    }
  }

  lemma OrNothing(b: nat)
    ensures Or(0, b) == b
  {
  }

  lemma TwiceProduct(b: nat, half: nat)
    ensures b * (2 * half) == 2 * (b * half)
  {
  }
}
