/** Unsigned machine words as natural numbers, bit by bit: the C operators
    `|`, `<<`, `>>` and what each does to every single bit. */
module Words {

  function Pow2(n: nat): (p: nat)
    ensures p >= 1
  {
    if n == 0 then 1 else 2 * Pow2(n - 1)
  }

  predicate Bit(w: nat, k: nat)
  {
    if k == 0 then w % 2 == 1 else Bit(w / 2, k - 1)
  }

  /** `a | b` */
  function Or(a: nat, b: nat): nat
  {
    if a == 0 then b
    else 2 * Or(a / 2, b / 2) + if a % 2 == 1 || b % 2 == 1 then 1 else 0
  }

  const TWO_64: nat := 0x1_0000_0000_0000_0000

  /** `w << d` for a 64-bit word, as d shifts by one */
  function Shl(w: nat, d: nat): nat
  {
    if d == 0 then w else 2 * Shl(w, d - 1) % TWO_64
  }

  /** `w >> d`, as d shifts by one */
  function Shr(w: nat, d: nat): nat
  {
    if d == 0 then w else Shr(w, d - 1) / 2
  }

  lemma {:induction false} BitOfZero(k: nat)
    ensures !Bit(0, k)
  {
    if k > 0 {
      BitOfZero(k - 1);
    }
  }

  lemma {:induction false} BitOfOr(a: nat, b: nat, k: nat)
    ensures Bit(Or(a, b), k) <==> Bit(a, k) || Bit(b, k)
  {
    if a == 0 {
      BitOfZero(k);
    } else if k > 0 {
      assert Or(a, b) / 2 == Or(a / 2, b / 2);
      BitOfOr(a / 2, b / 2, k - 1);
    }
  }

  lemma {:induction false} BitOfMask(j: nat, k: nat)
    ensures Bit(Pow2(j), k) <==> j == k
  {
    if j == 0 {
      if k > 0 { BitOfZero(k - 1); }
    } else if k > 0 {
      BitOfMask(j - 1, k - 1);
    }
  }

  /** Truncating to `width` bits keeps exactly the bits below it. */
  lemma {:induction false} BitOfTruncated(w: nat, width: nat, k: nat)
    ensures Bit(w % Pow2(width), k) <==> k < width && Bit(w, k)
  {
    if width == 0 {
      BitOfZero(k);
    } else {
      HalfOfMod(w, Pow2(width - 1));
      if k > 0 {
        BitOfTruncated(w / 2, width - 1, k - 1);
      }
    }
  }

  lemma HalfOfMod(w: nat, p: nat)
    requires p >= 1
    ensures (w % (2 * p)) / 2 == (w / 2) % p
    ensures (w % (2 * p)) % 2 == w % 2
  {
    HalfParts(w, p, w / (2 * p), w % (2 * p));
  }

  lemma HalfParts(w: nat, p: nat, q: nat, r: nat)
    requires w == 2 * p * q + r && r < 2 * p
    ensures r / 2 == w / 2 % p && r % 2 == w % 2
  {
    Regrouped(p, q);
    HalfOfSum(p * q, r);
    ModUnique(w / 2, p, q, r / 2);
  }

  lemma Regrouped(p: nat, q: nat)
    ensures 2 * p * q == 2 * (p * q)
  {
  }

  lemma HalfOfSum(a: nat, r: nat)
    ensures (2 * a + r) / 2 == a + r / 2 && (2 * a + r) % 2 == r % 2
  {
  }

  lemma ModUnique(x: nat, p: nat, q: nat, r: nat)
    requires x == p * q + r && r < p
    ensures x % p == r && x / p == q
  {
    var d: int := x / p - q;
    assert p * d == r - x % p;
    assert d > 0 ==> p * d >= p;
    assert d < 0 ==> p * d <= 0 - p;
  }

  lemma {:induction false} Pow2Sum(a: nat, b: nat)
    ensures Pow2(a + b) == Pow2(a) * Pow2(b)
  {
    if a > 0 {
      Pow2Sum(a - 1, b);
      assert Pow2(a) * Pow2(b) == 2 * (Pow2(a - 1) * Pow2(b));
    }
  }

  lemma Pow2Small()
    ensures Pow2(14) == 0x4000 && Pow2(15) == 0x8000
  {
    assert Pow2(7) == 128;
    Pow2Sum(7, 7);
  }

  lemma Pow2Constants()
    ensures Pow2(16) == 0x1_0000 && Pow2(32) == 0x1_0000_0000
    ensures Pow2(63) == TWO_64 / 2 && Pow2(64) == TWO_64
  {
    assert Pow2(4) == 16;
    Pow2Sum(4, 4);
    Pow2Sum(8, 8);
    Pow2Sum(16, 16);
    Pow2Sum(32, 32);
  }

  lemma BitOfDouble(w: nat, k: nat)
    ensures Bit(2 * w % TWO_64, k) <==> 0 < k < 64 && Bit(w, k - 1)
  {
    Pow2Constants();
    HalfOfMod(2 * w, Pow2(63));
    if k > 0 {
      BitOfTruncated(w, 63, k - 1);
    }
  }

  lemma {:induction false} BitOfShl(w: nat, d: nat, k: nat)
    requires k < 64
    ensures Bit(Shl(w, d), k) <==> d <= k && Bit(w, k - d)
  {
    if d > 0 {
      BitOfDouble(Shl(w, d - 1), k);
      if k > 0 {
        BitOfShl(w, d - 1, k - 1);
      }
    }
  }

  lemma {:induction false} BitOfShr(w: nat, d: nat, k: nat)
    ensures Bit(Shr(w, d), k) <==> Bit(w, k + d)
  {
    if d > 0 {
      BitOfShr(w, d - 1, k + 1);
    }
  }

  lemma {:induction false} BitBeyond(w: nat, width: nat, k: nat)
    requires w < Pow2(width) && width <= k
    ensures !Bit(w, k)
  {
    ModUnique(w, Pow2(width), 0, w);
    BitOfTruncated(w, width, k);
  }

  lemma {:induction false} Pow2Less(a: nat, b: nat)
    requires a < b
    ensures Pow2(a) < Pow2(b)
  {
    if a + 1 < b {
      Pow2Less(a, b - 1);
    }
  }

  lemma {:induction false} OrBound(a: nat, b: nat, width: nat)
    requires a < Pow2(width) && b < Pow2(width)
    ensures Or(a, b) < Pow2(width)
  {
    if a > 0 {
      OrBound(a / 2, b / 2, width - 1);
    }
  }

  lemma {:induction false} ShrBound(w: nat, d: nat)
    ensures Shr(w, d) <= w
  {
    if d > 0 {
      ShrBound(w, d - 1);
    }
  }

  /** `a ^ b` */
  function Xor(a: nat, b: nat): nat
    decreases a + b
  {
    if a == 0 then b else if b == 0 then a
    else 2 * Xor(a / 2, b / 2) + if a % 2 == b % 2 then 0 else 1
  }

  lemma {:induction false} BitOfXor(a: nat, b: nat, k: nat)
    ensures Bit(Xor(a, b), k) <==> Bit(a, k) != Bit(b, k)
    decreases k
  {
    if a == 0 || b == 0 {
      BitOfZero(k);
    } else if k > 0 {
      assert Xor(a, b) / 2 == Xor(a / 2, b / 2);
      BitOfXor(a / 2, b / 2, k - 1);
    }
  }

  lemma {:induction false} XorCancels(a: nat, b: nat)
    ensures Xor(Xor(a, b), b) == a
    decreases a + b
  {
    if a > 0 && b > 0 {
      XorCancels(a / 2, b / 2);
      XorParts(Xor(a / 2, b / 2), if a % 2 == b % 2 then 0 else 1, b);
    } else if b > 0 {
      XorSelf(b);
    }
  }

  /** One bit and the rest. */
  lemma XorParts(x: nat, bit: nat, b: nat)
    requires bit <= 1 && b > 0
    ensures Xor(2 * x + bit, b) == 2 * Xor(x, b / 2) + if bit == b % 2 then 0 else 1
  {
    assert (2 * x + bit) / 2 == x && (2 * x + bit) % 2 == bit;
    if 2 * x + bit == 0 {
      assert Xor(0, b / 2) == b / 2;
    }
  }

  lemma {:induction false} XorSelf(b: nat)
    ensures Xor(b, b) == 0
  {
    if b > 0 {
      XorSelf(b / 2);
    }
  }

  lemma {:induction false} XorBound(a: nat, b: nat, width: nat)
    requires a < Pow2(width) && b < Pow2(width)
    ensures Xor(a, b) < Pow2(width)
  {
    if a > 0 && b > 0 {
      XorBound(a / 2, b / 2, width - 1);
    }
  }

  /** `a & b` */
  function And(a: nat, b: nat): (r: nat)
    ensures r <= b
  {
    if a == 0 then 0 else 2 * And(a / 2, b / 2) + if a % 2 == 1 && b % 2 == 1 then 1 else 0
  }

  /** Masking with a power of two minus one takes the remainder. */
  lemma {:induction false} AndMask(a: nat, n: nat)
    ensures And(a, Pow2(n) - 1) == a % Pow2(n)
    decreases n
  {
    if n == 0 {
      AndZero(a);
    } else if a == 0 {
      ModUnique(0, Pow2(n), 0, 0);
    } else {
      AndMask(a / 2, n - 1);
      AndMaskStep(a, Pow2(n - 1), Pow2(n));
    }
  }

  lemma AndMaskStep(a: nat, p: nat, q: nat)
    requires a > 0 && p >= 1 && q == 2 * p && And(a / 2, p - 1) == a / 2 % p
    ensures And(a, q - 1) == a % q
  {
    assert (q - 1) / 2 == p - 1 && (q - 1) % 2 == 1;
    HalfOfMod(a, p);
    assert a % q == 2 * (a % q / 2) + a % q % 2;
  }

  lemma {:induction false} AndZero(a: nat)
    ensures And(a, 0) == 0
  {
  }
}
