/** Bitwise operators of the source's unsigned integers, on naturals. */
module Bits {

  function Pow2(n: nat): (p: nat)
    ensures p > 0
  {
    if n == 0 then 1 else 2 * Pow2(n - 1)
  }

  /** Bit `i` of `x` is one. */
  predicate Bit(x: nat, i: nat) {
    if i == 0 then x % 2 == 1 else Bit(x / 2, i - 1)
  }

  function And(x: nat, y: nat): nat {
    if x == 0 || y == 0 then 0
    else 2 * And(x / 2, y / 2) + if x % 2 == 1 && y % 2 == 1 then 1 else 0
  }

  function Or(x: nat, y: nat): nat {
    if x == 0 then y else if y == 0 then x
    else 2 * Or(x / 2, y / 2) + if x % 2 == 1 || y % 2 == 1 then 1 else 0
  }

  function Xor(x: nat, y: nat): nat {
    if x == 0 then y else if y == 0 then x
    else 2 * Xor(x / 2, y / 2) + if x % 2 != y % 2 then 1 else 0
  }

  /** `x << s` in a word of `w` bits: the bits shifted past the top are lost. */
  function Shl(x: nat, s: nat, w: nat): nat
    decreases s
  {
    if s == 0 then x else Shl(2 * x % Pow2(w), s - 1, w)
  }

  lemma {:induction false} BitOfZero(i: nat)
    ensures !Bit(0, i)
  {
    if i > 0 {
      BitOfZero(i - 1);
    }
  }

  lemma {:induction false} BitOr(x: nat, y: nat, i: nat)
    ensures Bit(Or(x, y), i) <==> Bit(x, i) || Bit(y, i)
  {
    if x == 0 || y == 0 {
      BitOfZero(i);
    } else if i > 0 {
      BitOr(x / 2, y / 2, i - 1);
    }
  }

  lemma {:induction false} BitMod(x: nat, w: nat, i: nat)
    ensures Bit(x % Pow2(w), i) <==> i < w && Bit(x, i)
  {
    if w == 0 {
      BitOfZero(i);
    } else {
      ModHalf(x, Pow2(w - 1));
      if i > 0 {
        BitMod(x / 2, w - 1, i - 1);
      }
    }
  }

  lemma ModHalf(x: nat, p: nat)
    requires p > 0
    ensures x % (2 * p) / 2 == x / 2 % p
    ensures x % (2 * p) % 2 == x % 2
  {
    var q, r := x / 2 / p, x / 2 % p;
    assert x == 2 * (p * q) + (2 * r + x % 2);
    DoubleProduct(p, q);
    DivModUnique(x, 2 * p, q, 2 * r + x % 2);
  }

  lemma DoubleProduct(p: nat, q: nat)
    ensures 2 * p * q == 2 * (p * q)
  {
  }

  lemma DivModUnique(x: nat, p: nat, q: nat, r: nat)
    requires p > 0 && r < p && x == p * q + r
    ensures x / p == q && x % p == r
  {
    var q', r' := x / p, x % p;
    if q < q' {
      MulOrder(p, q, q', r);
    } else if q' < q {
      MulOrder(p, q', q, r');
    }
  }

  lemma MulOrder(p: nat, q: nat, q': nat, r: nat)
    requires r < p && q < q'
    ensures p * q + r < p * q'
  {
    var d: nat := q' - q - 1;
    assert p * q' == p * q + p + p * d by {
      assert q' == q + 1 + d;
    }
    assert p * d >= 0;
  }

  /** A left shift moves bit `i - s` to bit `i` and fills with zeros. */
  lemma {:induction false} BitShl(x: nat, s: nat, w: nat, i: nat)
    requires i < w
    ensures Bit(Shl(x, s, w), i) <==> s <= i && Bit(x, i - s)
    decreases s
  {
    if s > 0 {
      BitShl(2 * x % Pow2(w), s - 1, w, i);
      if s - 1 <= i {
        BitMod(2 * x, w, i - (s - 1));
      }
    }
  }

  lemma {:induction false} ShlBound(x: nat, s: nat, w: nat)
    requires x < Pow2(w)
    ensures Shl(x, s, w) < Pow2(w)
    decreases s
  {
    if s > 0 {
      ShlBound(2 * x % Pow2(w), s - 1, w);
    }
  }

  /** The bit test of the source: masking with `1 << d` is nonzero exactly when bit `d` is one. */
  lemma {:induction false} MaskTest(x: nat, d: nat, w: nat)
    requires d < w
    ensures And(x, Shl(1, d, w)) != 0 <==> Bit(x, d)
  {
    ShlOne(d, w);
    AndPow2(x, d);
  }

  lemma SmallMod(x: nat, p: nat)
    requires x < p
    ensures x % p == x
  {
  }

  lemma {:induction false} ShlPow2(k: nat, s: nat, w: nat)
    requires k + s < w
    ensures Shl(Pow2(k), s, w) == Pow2(k + s)
    decreases s
  {
    if s > 0 {
      Pow2Less(k + 1, w);
      SmallMod(Pow2(k + 1), Pow2(w));
      ShlPow2(k + 1, s - 1, w);
    }
  }

  lemma ShlOne(s: nat, w: nat)
    requires s < w
    ensures Shl(1, s, w) == Pow2(s)
  {
    ShlPow2(0, s, w);
  }

  lemma {:induction false} Pow2Less(k: nat, w: nat)
    requires k < w
    ensures Pow2(k) < Pow2(w)
    decreases w
  {
    if k < w - 1 {
      Pow2Less(k, w - 1);
    }
  }

  lemma {:induction false} AndPow2(x: nat, d: nat)
    ensures And(x, Pow2(d)) != 0 <==> Bit(x, d)
  {
    if x == 0 {
      BitOfZero(d);
    } else if d > 0 {
      AndPow2(x / 2, d - 1);
    } else {
      assert And(x / 2, 0) == 0;
    }
  }

  lemma {:induction false} BitPow2(d: nat, i: nat)
    ensures Bit(Pow2(d), i) <==> i == d
  {
    if d == 0 {
      if i > 0 {
        BitOfZero(i - 1);
      }
    } else if i > 0 {
      BitPow2(d - 1, i - 1);
    }
  }

  lemma {:induction false} OrBound(x: nat, y: nat, w: nat)
    requires x < Pow2(w) && y < Pow2(w)
    ensures Or(x, y) < Pow2(w)
  {
    if x != 0 && y != 0 && w > 0 {
      OrBound(x / 2, y / 2, w - 1);
    }
  }

  lemma {:induction false} XorBound(x: nat, y: nat, w: nat)
    requires x < Pow2(w) && y < Pow2(w)
    ensures Xor(x, y) < Pow2(w)
  {
    if x != 0 && y != 0 && w > 0 {
      XorBound(x / 2, y / 2, w - 1);
    }
  }

  lemma {:induction false} XorSelfInverse(x: nat, y: nat)
    ensures Xor(Xor(x, y), y) == x
  {
    if x == 0 {
      XorSame(y);
    } else if y != 0 {
      XorSelfInverse(x / 2, y / 2);
      XorHalf(x, y);
    }
  }

  lemma XorHalf(x: nat, y: nat)
    ensures Xor(x, y) / 2 == Xor(x / 2, y / 2)
    ensures Xor(x, y) % 2 == if x % 2 != y % 2 then 1 else 0
  {
  }

  lemma {:induction false} XorSame(y: nat)
    ensures Xor(y, y) == 0
  {
    if y != 0 {
      XorSame(y / 2);
    }
  }
}
