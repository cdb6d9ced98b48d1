/** The capacity of the retransmission ring: rounding up to a power of two by
    smearing bits. */
module Rounding {
  import opened Words

  /** `v |= v >> s` */
  function Smear(v: nat, s: nat): nat
  {
    Or(v, Shr(v, s))
  }

  /** One of n bits of x from bit j on is set. */
  ghost predicate Above(x: nat, j: nat, n: nat)
  {
    exists d: nat :: d < n && BitAt(x, j, d)
  }

  predicate BitAt(x: nat, j: nat, d: nat)
  {
    Bit(x, j + d)
  }

  /** Every bit of y tells whether one of the n bits of x from there on is set. */
  ghost predicate Spread(x: nat, y: nat, n: nat)
  {
    forall j: nat :: Bit(y, j) <==> Above(x, j, n)
  }

  lemma SmearSpreads(x: nat, y: nat, n: nat)
    requires Spread(x, y, n)
    ensures Spread(x, Smear(y, n), 2 * n)
  {
    forall j: nat ensures Bit(Smear(y, n), j) <==> Above(x, j, 2 * n) {
      BitOfOr(y, Shr(y, n), j);
      BitOfShr(y, n, j);
      AboveTwice(x, j, n);
    }
  }

  lemma AboveTwice(x: nat, j: nat, n: nat)
    ensures Above(x, j, 2 * n) <==> Above(x, j, n) || Above(x, j + n, n)
  {
    if Above(x, j, 2 * n) {
      var d: nat :| d < 2 * n && BitAt(x, j, d);
      if d >= n {
        assert BitAt(x, j + n, d - n);
      }
    }
    if Above(x, j + n, n) {
      var d: nat :| d < n && BitAt(x, j + n, d);
      assert BitAt(x, j, n + d);
    }
  }

  lemma SpreadOne(x: nat)
    ensures Spread(x, x, 1)
  {
    forall j: nat ensures Bit(x, j) <==> Above(x, j, 1) {
      assert BitAt(x, j, 0) <==> Bit(x, j);
    }
  }

  /** The position of the highest bit. */
  function Top(x: nat): (h: nat)
    requires x > 0
  {
    if x == 1 then 0 else 1 + Top(x / 2)
  }

  lemma {:induction false} TopIs(x: nat)
    requires x > 0
    ensures Pow2(Top(x)) <= x < Pow2(Top(x) + 1) && Bit(x, Top(x))
  {
    if x > 1 {
      TopIs(x / 2);
    }
  }

  lemma {:induction false} BitsOfOnes(k: nat, j: nat)
    ensures Bit(Pow2(k) - 1, j) <==> j < k
  {
    if k == 0 {
      BitOfZero(j);
    } else if j > 0 {
      assert (Pow2(k) - 1) / 2 == Pow2(k - 1) - 1;
      BitsOfOnes(k - 1, j - 1);
    }
  }

  lemma {:induction false} SameBits(x: nat, y: nat)
    requires forall j: nat :: Bit(x, j) <==> Bit(y, j)
    ensures x == y
    decreases x + y
  {
    if x > 0 || y > 0 {
      assert Bit(x, 0) <==> Bit(y, 0);
      forall j: nat ensures Bit(x / 2, j) <==> Bit(y / 2, j) {
        assert Bit(x, j + 1) <==> Bit(y, j + 1);
      }
      SameBits(x / 2, y / 2);
    }
  }

  /** All bits up to the highest one. */
  lemma SpreadOnes(x: nat, y: nat, n: nat)
    requires 0 < x < Pow2(n) && Spread(x, y, n)
    ensures y == Pow2(Top(x) + 1) - 1
  {
    var h := Top(x);
    TopIs(x);
    TopBelow(h, n, x);
    forall j: nat ensures Bit(y, j) <==> Bit(Pow2(h + 1) - 1, j) {
      BitsOfOnes(h + 1, j);
      AboveTop(x, h, j, n);
    }
    SameBits(y, Pow2(h + 1) - 1);
  }

  lemma AboveTop(x: nat, h: nat, j: nat, n: nat)
    requires h < n && x < Pow2(h + 1) && Bit(x, h)
    ensures Above(x, j, n) <==> j <= h
  {
    if j <= h {
      assert BitAt(x, j, h - j);
    } else {
      forall d: nat ensures !BitAt(x, j, d) {
        BitBeyond(x, h + 1, j + d);
      }
    }
  }

  lemma TopBelow(h: nat, n: nat, x: nat)
    requires Pow2(h) <= x < Pow2(n)
    ensures h < n
  {
    if n < h {
      Pow2Less(n, h);
    }
  }

  /** `next_pow2` */
  function NextPow2(v: int): int
    requires 1 <= v <= 0x4000_0000
  {
    var r := Smear(Smear(Smear(Smear(Smear(v - 1, 1), 2), 4), 8), 16) + 1;
    if r < 2 then 2 else r
  }

  /** The least power of two that is at least the request and at least 2. */
  lemma NextPow2Least(v: int) returns (k: nat)
    requires 1 <= v <= 0x4000_0000
    ensures 1 <= k <= 30 && NextPow2(v) == Pow2(k) && v <= Pow2(k) && (k > 1 ==> Pow2(k - 1) < v)
  {
    var x := v - 1;
    if x == 0 {
      SmearZero();
      k := 1;
    } else {
      Smeared(x);
      k := Top(x) + 1;
      TopIs(x);
      Pow2Thirty();
      TopBelow(Top(x), 30, x);
    }
  }

  lemma Pow2Thirty()
    ensures Pow2(30) == 0x4000_0000
  {
    Pow2Constants();
    assert Pow2(32) == 2 * Pow2(31) && Pow2(31) == 2 * Pow2(30);
  }

  lemma SmearZero()
    ensures Smear(0, 1) == 0 && Smear(0, 2) == 0 && Smear(0, 4) == 0 && Smear(0, 8) == 0 && Smear(0, 16) == 0
  {
    ShrBound(0, 1);
    ShrBound(0, 2);
    ShrBound(0, 4);
    ShrBound(0, 8);
    ShrBound(0, 16);
  }

  lemma Smeared(x: nat)
    requires 0 < x < 0x4000_0000
    ensures Smear(Smear(Smear(Smear(Smear(x, 1), 2), 4), 8), 16) == Pow2(Top(x) + 1) - 1
  {
    var a := Smear(x, 1);
    var b := Smear(a, 2);
    var c := Smear(b, 4);
    var d := Smear(c, 8);
    var e := Smear(d, 16);
    SpreadOne(x);
    SmearSpreads(x, x, 1);
    SmearSpreads(x, a, 2);
    SmearSpreads(x, b, 4);
    SmearSpreads(x, c, 8);
    SmearSpreads(x, d, 16);
    Pow2Constants();
    SpreadOnes(x, e, 32);
  }
}
