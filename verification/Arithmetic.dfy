/** Powers of two and the division facts that the bucket and block arithmetic rests on. */
module Arithmetic {

  /** An unsigned char. */
  type Octet = x: int | 0 <= x < 256

  function Pow2(n: nat): (r: nat)
    ensures r >= 1
  {
    if n == 0 then 1 else 2 * Pow2(n - 1)
  }

  lemma {:induction false} Pow2Monotone(m: nat, n: nat)
    requires m <= n
    ensures Pow2(m) <= Pow2(n)
    decreases n
  {
    if m < n {
      Pow2Monotone(m, n - 1);
    }
  }

  lemma MulAtLeast(k: int, m: int)
    requires m > 0
    ensures k >= 1 ==> k * m >= m
    ensures k <= -1 ==> k * m <= -m
  {
    if k >= 1 {
      assert k * m == (k - 1) * m + m;
    } else if k <= -1 {
      assert k * m == (k + 1) * m - m;
    }
  }

  /** Division by `m` is determined by any quotient and remainder in range. */
  lemma DivModUnique(x: int, m: int, q: int, r: int)
    requires m > 0
    requires x == q * m + r
    requires 0 <= r < m
    ensures x / m == q
    ensures x % m == r
  {
    var d := x / m - q;
    assert d * m == (x / m) * m - q * m;
    MulAtLeast(d, m);
  }

  lemma SplitBy(x: nat, m: nat) returns (q: nat, r: nat)
    requires m > 0
    ensures x == q * m + r && r < m && q == x / m && r == x % m
  {
    q, r := x / m, x % m;
  }

  lemma MulMonotone(x: nat, y: nat, m: nat)
    requires x <= y
    ensures x * m <= y * m
  {
    assert y * m == x * m + (y - x) * m;
  }

  /** Residues of `q * 2h + o` modulo `2h` and modulo `h`. */
  lemma HalfResidues(q: nat, o: nat, h: nat)
    requires o < 2 * h
    ensures (q * (2 * h) + o) % (2 * h) == o
    ensures (q * (2 * h) + o) % h == if o >= h then o - h else o
  {
    var x := q * (2 * h) + o;
    DivModUnique(x, 2 * h, q, o);
    assert q * (2 * h) == (2 * q) * h;
    if o >= h {
      assert (2 * q + 1) * h == (2 * q) * h + h;
      DivModUnique(x, h, 2 * q + 1, o - h);
    } else {
      DivModUnique(x, h, 2 * q, o);
    }
  }

  function FloorLog2(x: nat): nat {
    if x < 2 then 0 else 1 + FloorLog2(x / 2)
  }

  lemma {:induction false} FloorLog2Bounds(x: nat)
    requires x > 0
    ensures Pow2(FloorLog2(x)) <= x < Pow2(FloorLog2(x) + 1)
  {
    if x >= 2 {
      FloorLog2Bounds(x / 2);
    }
  }

  /** The low `n` bits. */
  function LowBits(x: nat, n: nat): (r: nat)
    ensures r < Pow2(n)
  {
    if n == 0 then 0 else x % 2 + 2 * LowBits(x / 2, n - 1)
  }

  lemma HalvedModulo(x: nat, m: nat)
    requires m > 0
    ensures x % (2 * m) == x % 2 + 2 * (x / 2 % m)
  {
    var q, r := SplitBy(x / 2, m);
    Doubling(q, m);
    DivModUnique(x, 2 * m, q, x % 2 + 2 * r);
  }

  lemma {:induction false} LowBitsIsModulo(x: nat, n: nat)
    ensures LowBits(x, n) == x % Pow2(n)
  {
    if n > 0 {
      LowBitsIsModulo(x / 2, n - 1);
      HalvedModulo(x, Pow2(n - 1));
    }
  }

  lemma {:induction false} Pow2Sum(n: nat, k: nat)
    ensures Pow2(n + k) == Pow2(n) * Pow2(k)
  {
    if k > 0 {
      Pow2Sum(n, k - 1);
      Doubling(Pow2(n), Pow2(k - 1));
    }
  }

  const WORD_RANGE: nat := 0x1_0000_0000_0000_0000

  lemma WordIsPower()
    ensures Pow2(64) == WORD_RANGE
  {
    assert Pow2(4) == 16;
    Pow2Sum(4, 4);
    Pow2Sum(8, 8);
    Pow2Sum(16, 16);
    Pow2Sum(32, 32);
  }

  lemma Doubling(a: nat, b: nat)
    ensures 2 * (a * b) == a * (2 * b)
  {
  }

  /** Pushing the high bits out to the left and coming back leaves a residue. */
  lemma PushOut(x: nat, p: nat, k: nat)
    requires p > 0 && k > 0
    ensures (x * k) % (p * k) / k == x % p
  {
    var q, r := SplitBy(x, p);
    assert x * k == q * (p * k) + r * k;
    MulMonotone(r + 1, p, k);
    assert (r + 1) * k == r * k + k;
    assert 0 <= r * k;
    DivModUnique(x * k, p * k, q, r * k);
    DivModUnique(r * k, k, r, 0);
  }

  /** Shifting left by `k` within `n + k` bits and right again keeps the low `n` bits. */
  lemma ShiftsKeepLowBits(x: nat, n: nat, k: nat)
    ensures (x * Pow2(k)) % Pow2(n + k) / Pow2(k) == LowBits(x, n)
  {
    Pow2Sum(n, k);
    PushOut(x, Pow2(n), Pow2(k));
    LowBitsIsModulo(x, n);
  }

  lemma {:induction false} LowBitsGrow(x: nat, n: nat)
    ensures LowBits(x, n + 1) == LowBits(x, n) || LowBits(x, n + 1) == LowBits(x, n) + Pow2(n)
  {
    if n > 0 {
      LowBitsGrow(x / 2, n - 1);
    }
  }

  /** Bitwise and of two naturals. */
  function And(x: nat, y: nat): nat {
    if x == 0 || y == 0 then 0 else (if x % 2 == 1 && y % 2 == 1 then 1 else 0) + 2 * And(x / 2, y / 2)
  }

  /** Masking with `2^n - 1` keeps the low `n` bits. */
  lemma {:induction false} AndLowMask(x: nat, n: nat)
    ensures And(x, Pow2(n) - 1) == x % Pow2(n)
  {
    AndIsLowBits(x, n);
    LowBitsIsModulo(x, n);
  }

  lemma AndOnes(x: nat, m: nat)
    requires m > 0
    ensures And(x, 2 * m - 1) == x % 2 + 2 * And(x / 2, m - 1)
  {
    assert (2 * m - 1) / 2 == m - 1;
  }

  lemma {:induction false} AndIsLowBits(x: nat, n: nat)
    ensures And(x, Pow2(n) - 1) == LowBits(x, n)
  {
    if n > 0 {
      AndIsLowBits(x / 2, n - 1);
      AndOnes(x, Pow2(n - 1));
    }
  }

  lemma {:induction false} LowBitsOfZero(n: nat)
    ensures LowBits(0, n) == 0
  {
    if n > 0 {
      LowBitsOfZero(n - 1);
    }
  }

  /** Masking with `2^n` tests bit `n`: the residue modulo `2^(n+1)` is in the upper half. */
  lemma {:induction false} AndBit(x: nat, n: nat)
    ensures And(x, Pow2(n)) != 0 <==> LowBits(x, n + 1) >= Pow2(n)
  {
    if n > 0 {
      AndBit(x / 2, n - 1);
      if x == 0 {
        LowBitsOfZero(n + 1);
      }
    }
  }
}
