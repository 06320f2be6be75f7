/**
 * Bit operations on natural numbers. Bit 0 is the least significant one.
 * The Go operators `^`, `|= 1 << k`, `&= ^(1 << k)` and `(x >> k) & 1` on unsigned
 * bytes are `Xor`, `SetBit`, `ClearBit` and `Bit` restricted to values below 256.
 */
module Bits {

  function Pow2(n: nat): (p: nat)
    ensures p >= 1
  {
    if n == 0 then 1 else 2 * Pow2(n - 1)
  }

  lemma {:induction false} Pow2Monotone(m: nat, n: nat)
    requires m <= n
    ensures Pow2(m) <= Pow2(n)
  {
    if m < n {
      Pow2Monotone(m, n - 1);
    }
  }

  function LowXor(a: nat, b: nat): (x: nat)
    ensures x <= 1
  {
    if a % 2 == b % 2 then 0 else 1
  }

  function Xor(a: nat, b: nat): nat {
    if a == 0 && b == 0 then 0 else 2 * Xor(a / 2, b / 2) + LowXor(a, b)
  }

  predicate Bit(a: nat, k: nat) {
    if k == 0 then a % 2 == 1 else Bit(a / 2, k - 1)
  }

  function SetBit(a: nat, k: nat): nat {
    if k == 0 then 2 * (a / 2) + 1 else 2 * SetBit(a / 2, k - 1) + a % 2
  }

  function ClearBit(a: nat, k: nat): nat {
    if k == 0 then 2 * (a / 2) else 2 * ClearBit(a / 2, k - 1) + a % 2
  }

  lemma {:induction false} XorBelow(a: nat, b: nat, n: nat)
    requires a < Pow2(n) && b < Pow2(n)
    ensures Xor(a, b) < Pow2(n)
  {
    if n > 0 {
      XorBelow(a / 2, b / 2, n - 1);
    }
  }

  lemma {:induction false} XorSymmetric(a: nat, b: nat)
    ensures Xor(a, b) == Xor(b, a)
  {
    if a != 0 || b != 0 {
      XorSymmetric(a / 2, b / 2);
    }
  }

  lemma {:induction false} XorZero(a: nat)
    ensures Xor(a, 0) == a && Xor(a, a) == 0
  {
    if a != 0 {
      XorZero(a / 2);
    }
  }

  lemma XorUnfold(a: nat, b: nat)
    ensures Xor(a, b) == 2 * Xor(a / 2, b / 2) + LowXor(a, b)
    ensures Xor(a, b) / 2 == Xor(a / 2, b / 2)
    ensures Xor(a, b) % 2 == LowXor(a, b)
  {
  }

  /** XOR with the same number twice is the identity. */
  lemma {:induction false} XorUndo(a: nat, t: nat, x: nat)
    requires x == Xor(a, t)
    ensures Xor(x, t) == a
    decreases a + t
  {
    if a == 0 && t == 0 {
    } else {
      XorUnfold(a, t);
      XorUndo(a / 2, t / 2, x / 2);
      XorUnfold(x, t);
    }
  }

  /** The carry-free sum of two differences never exceeds their sum. */
  lemma {:induction false} XorTriangle(a: nat, b: nat, c: nat)
    ensures Xor(a, c) <= Xor(a, b) + Xor(b, c)
    decreases a + b + c
  {
    if a == 0 && b == 0 && c == 0 {
    } else {
      XorTriangle(a / 2, b / 2, c / 2);
      XorUnfold(a, b);
      XorUnfold(a, c);
      XorUnfold(b, c);
    }
  }

  lemma {:induction false} XorBit(a: nat, b: nat, k: nat)
    ensures Bit(Xor(a, b), k) <==> Bit(a, k) != Bit(b, k)
  {
    XorUnfold(a, b);
    if k == 0 {
    } else {
      XorBit(a / 2, b / 2, k - 1);
    }
  }

  lemma {:induction false} ZeroHasNoBits(k: nat)
    ensures !Bit(0, k)
  {
    if k > 0 {
      ZeroHasNoBits(k - 1);
    }
  }

  lemma {:induction false} BitOfPow2(n: nat, k: nat)
    ensures Bit(Pow2(n), k) <==> k == n
  {
    if n > 0 && k > 0 {
      BitOfPow2(n - 1, k - 1);
    } else if n == 0 && k > 0 {
      ZeroHasNoBits(k - 1);
    }
  }

  lemma {:induction false} BitByDivision(a: nat, k: nat)
    ensures Bit(a, k) <==> (a / Pow2(k)) % 2 == 1
  {
    if k > 0 {
      BitByDivision(a / 2, k - 1);
      DivTwice(a, Pow2(k - 1));
    }
  }

  lemma DivTwice(a: nat, d: nat)
    requires d > 0
    ensures (a / 2) / d == a / (2 * d)
  {
    var q, r := (a / 2) / d, (a / 2) % d;
    assert a / 2 == d * q + r;
    assert a == (2 * d) * q + (2 * r + a % 2);
    QuotientUnique(a, 2 * d, q, 2 * r + a % 2);
  }

  lemma MulBounds(d: int, x: int)
    requires d > 0
    ensures x >= 1 ==> d * x >= d
    ensures x <= -1 ==> d * x <= -d
  {
  }

  lemma QuotientUnique(a: nat, d: nat, q: nat, r: nat)
    requires d > 0 && r < d && a == d * q + r
    ensures a / d == q
  {
    var p := a / d;
    assert d * (p - q) == r - a % d;
    MulBounds(d, p - q);
  }

  lemma {:induction false} SetBitBits(a: nat, j: nat, k: nat)
    ensures Bit(SetBit(a, j), k) <==> k == j || Bit(a, k)
    ensures Bit(ClearBit(a, j), k) <==> k != j && Bit(a, k)
  {
    var s, c := SetBit(a, j), ClearBit(a, j);
    if j > 0 {
      assert s / 2 == SetBit(a / 2, j - 1) && s % 2 == a % 2;
      assert c / 2 == ClearBit(a / 2, j - 1) && c % 2 == a % 2;
      if k > 0 {
        SetBitBits(a / 2, j - 1, k - 1);
      }
    } else {
      assert s / 2 == a / 2 && c / 2 == a / 2 && s % 2 == 1 && c % 2 == 0;
    }
  }

  lemma {:induction false} SetBitBelow(a: nat, j: nat, n: nat)
    requires a < Pow2(n) && j < n
    ensures SetBit(a, j) < Pow2(n) && ClearBit(a, j) < Pow2(n)
  {
    assert Pow2(n) == 2 * Pow2(n - 1) && a / 2 < Pow2(n - 1);
    if j > 0 {
      SetBitBelow(a / 2, j - 1, n - 1);
    }
  }

  /** Numbers below 2^n that agree on all `n` bits are equal. */
  lemma {:induction false} AgreeOnBits(a: nat, b: nat, n: nat)
    requires a < Pow2(n) && b < Pow2(n)
    requires forall i: nat :: i < n ==> Bit(a, i) == Bit(b, i)
    ensures a == b
  {
    if n > 0 {
      assert Bit(a, 0) == Bit(b, 0);
      forall i: nat | i < n - 1 ensures Bit(a / 2, i) == Bit(b / 2, i) {
        assert Bit(a, i + 1) == Bit(b, i + 1);
      }
      AgreeOnBits(a / 2, b / 2, n - 1);
    }
  }

  /** The most significant differing bit decides the order. */
  lemma {:induction false} HighBitOrders(a: nat, b: nat, k: nat, n: nat)
    requires a < Pow2(n) && b < Pow2(n) && k < n
    requires forall i: nat :: k < i < n ==> Bit(a, i) == Bit(b, i)
    requires !Bit(a, k) && Bit(b, k)
    ensures a < b
  {
    forall i: nat | i < n - 1 ensures Bit(a, i + 1) == Bit(a / 2, i) && Bit(b, i + 1) == Bit(b / 2, i) {}
    if k == 0 {
      AgreeOnBits(a / 2, b / 2, n - 1);
    } else {
      HighBitOrders(a / 2, b / 2, k - 1, n - 1);
    }
  }
}
