/** Rounding up to a power of two by smearing bits. */
module Growth {
  import opened Bytes
  import opened Documented

  // ----- bits of a number -----

  lemma {:induction false} OrBit(a: nat, b: nat, k: nat)
    ensures Bit(Or(a, b), k) <==> Bit(a, k) || Bit(b, k)
  {
    if a == 0 || b == 0 {
      ZeroBit(k);
    } else if k > 0 {
      OrBit(a / 2, b / 2, k - 1);
    }
  }

  function Shr(x: nat, s: nat): (r: nat)
  {
    if s == 0 then x else Shr(x / 2, s - 1)
  }

  lemma {:induction false} ShrBit(x: nat, s: nat, k: nat)
    ensures Bit(Shr(x, s), k) <==> Bit(x, k + s)
  {
    if s > 0 {
      ShrBit(x / 2, s - 1, k);
    }
  }

  lemma {:induction false} HighBits(x: nat, n: nat, k: nat)
    requires x < Pow2(n) && k >= n
    ensures !Bit(x, k)
  {
    if n == 0 {
      ZeroBit(k);
    } else if k > 0 {
      HighBits(x / 2, n - 1, k - 1);
    }
  }

  lemma {:induction false} TopBit(x: nat, n: nat)
    requires n > 0 && Pow2(n - 1) <= x < Pow2(n)
    ensures Bit(x, n - 1)
  {
    if n > 1 {
      TopBit(x / 2, n - 1);
    }
  }

  lemma {:induction false} BoundedByBits(x: nat, n: nat)
    requires forall k: nat :: k >= n ==> !Bit(x, k)
    ensures x < Pow2(n)
    decreases x
  {
    if n == 0 {
      if x > 0 {
        assert !Bit(x, 0);
        forall k: nat ensures !Bit(x / 2, k) {
          assert !Bit(x, k + 1);
        }
        BoundedByBits(x / 2, 0);
      }
    } else if x > 0 {
      forall k: nat | k >= n - 1 ensures !Bit(x / 2, k) {
        assert !Bit(x, k + 1);
      }
      BoundedByBits(x / 2, n - 1);
    }
  }

  /** `x` has `n` bits, and the top `m` of them are ones. */
  ghost predicate TopOnes(x: nat, n: nat, m: nat)
  {
    (forall k: nat :: k >= n ==> !Bit(x, k)) && forall k: nat :: k < n <= k + m ==> Bit(x, k)
  }

  /** One step of the smearing lengthens the run of ones at the top by the shift. */
  lemma SmearStep(x: nat, n: nat, m: nat, s: nat)
    requires TopOnes(x, n, m) && (s <= m || n <= m)
    ensures TopOnes(Or(x, Shr(x, s)), n, m + s)
  {
    hide Bit, Or, Shr;
    var y := Or(x, Shr(x, s));
    forall k: nat | k < n <= k + (m + s) ensures Bit(y, k) {
      SmearBit(x, s, k);
      assert n <= k + m ==> Bit(x, k);
      assert k + s < n <= (k + s) + m || n <= k + m;
    }
    forall k: nat | k >= n ensures !Bit(y, k) {
      SmearBit(x, s, k);
    }
  }

  lemma SmearBit(x: nat, s: nat, k: nat)
    ensures Bit(Or(x, Shr(x, s)), k) <==> Bit(x, k) || Bit(x, k + s)
  {
    OrBit(x, Shr(x, s), k);
    ShrBit(x, s, k);
  }

  lemma AllOnes(x: nat, n: nat, m: nat)
    requires TopOnes(x, n, m) && m >= n
    ensures x == Pow2(n) - 1
  {
    BoundedByBits(x, n);
    forall k | 0 <= k < n ensures Bit(x, k) <==> Bit(Pow2(n) - 1, k) {
      OnesBit(n, k);
    }
    BitsEqual(x, Pow2(n) - 1, n);
  }

  lemma {:induction false} BitLength(x: nat, m: nat) returns (n: nat)
    requires x < Pow2(m)
    ensures n <= m && x < Pow2(n) && (n > 0 ==> Pow2(n - 1) <= x)
  {
    if m == 0 || x >= Pow2(m - 1) {
      n := m;
    } else {
      n := BitLength(x, m - 1);
    }
  }

  lemma {:induction false} Pow2Mono(a: nat, b: nat)
    requires a <= b
    ensures Pow2(a) <= Pow2(b)
  {
    if a < b {
      Pow2Mono(a, b - 1);
    }
  }

  ghost predicate IsPow2(x: nat)
  {
    exists k: nat :: x == Pow2(k)
  }

  /** `r` is the least power of two that is at least `v`. */
  ghost predicate LeastPow2(v: nat, r: nat)
  {
    IsPow2(r) && v <= r && forall k: nat :: v <= Pow2(k) ==> r <= Pow2(k)
  }

  /** A number of `n` bits, plus one: the least power of two not below it is 2^n. */
  lemma LeastAbove(x: nat, n: nat)
    requires x < Pow2(n) && (n > 0 ==> Pow2(n - 1) <= x)
    ensures LeastPow2(x + 1, Pow2(n))
  {
    forall k: nat | x + 1 <= Pow2(k) ensures Pow2(n) <= Pow2(k) {
      if k < n {
        Pow2Mono(k, n - 1);
      } else {
        Pow2Mono(n, k);
      }
    }
  }

  /**
   * The routine as it is. Five smearing steps are enough for 32-bit values; a power of two of any
   * width is its own answer.
   */
  method RoundNextPowerOf2(value: nat) returns (r: nat)
    requires 1 <= value
    ensures value <= 0x1_0000_0000 || IsPow2(value) ==> LeastPow2(value, r)
  {
    var v := value - 1;
    ghost var known := value <= 0x1_0000_0000 || IsPow2(value);
    ghost var n, m := 0, 0;
    if known {
      n, m := SmearStart(v);
    }
    ghost var x := v;
    v := Or(v, Shr(v, 1));
    if known {
      SmearStep(x, n, m, 1);
    }
    x := v;
    v := Or(v, Shr(v, 2));
    if known {
      SmearStep(x, n, m + 1, 2);
    }
    x := v;
    v := Or(v, Shr(v, 4));
    if known {
      SmearStep(x, n, m + 3, 4);
    }
    x := v;
    v := Or(v, Shr(v, 8));
    if known {
      SmearStep(x, n, m + 7, 8);
    }
    x := v;
    v := Or(v, Shr(v, 16));
    if known {
      SmearStep(x, n, m + 15, 16);
      AllOnes(v, n, m + 31);
    }
    r := v + 1;
  }

  lemma SmearStart(v: nat) returns (n: nat, m: nat)
    requires v < 0x1_0000_0000 || IsPow2(v + 1)
    ensures TopOnes(v, n, m) && m >= 1 && n <= m + 31 && LeastPow2(v + 1, Pow2(n))
  {
    if v < 0x1_0000_0000 {
      Pow32();
      n := BitLength(v, 32);
      m := 1;
    } else {
      var j: nat :| v + 1 == Pow2(j);
      n := j;
      m := j + 1;
      forall k: nat | k < n ensures Bit(v, k) {
        OnesBit(j, k);
      }
    }
    forall k: nat | k >= n ensures !Bit(v, k) {
      HighBits(v, n, k);
    }
    if n > 0 {
      TopBit(v, n);
    }
    LeastAbove(v, n);
  }

  /** Doubling a power of two: the routine returns it unchanged. */
  lemma LeastOfPow2(x: nat, r: nat)
    requires IsPow2(x) && LeastPow2(x, r)
    ensures r == x
  {
  }

  lemma DoublePow2(x: nat)
    requires IsPow2(x)
    ensures IsPow2(2 * x)
  {
    var k: nat :| x == Pow2(k);
    assert 2 * x == Pow2(k + 1);
  }
}
