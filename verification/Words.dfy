// Machine words as natural numbers: shifts, masks and the bit tricks of dlmalloc's bin maps,
// with the wrap-around of 32-bit and 64-bit arithmetic written out.

module Words {
  const WORD32: nat := 0x1_0000_0000
  const WORD64: nat := 0x1_0000_0000_0000_0000

  type Word = m: nat | m < WORD32 // binmap_t
  type SizeT = s: int | 0 <= s < WORD64
  type Index = i: nat | i < 32

  function Pow2(n: nat): (p: nat)
    ensures p > 0
  {
    if n == 0 then 1 else 2 * Pow2(n - 1)
  }

  function Shr(x: nat, n: nat): nat {
    if n == 0 then x else Shr(x, n - 1) / 2
  }

  // x << n on a 64-bit word
  function Shl64(x: nat, n: nat): SizeT {
    x * Pow2(n) % WORD64
  }

  // x << n on a 32-bit word
  function Shl32(x: nat, n: nat): Word {
    x * Pow2(n) % WORD32
  }

  // a - b on a 64-bit word
  function Sub64(a: int, b: int): SizeT {
    (a - b) % WORD64
  }

  // a + b on a 64-bit word
  function Add64(a: int, b: int): SizeT {
    (a + b) % WORD64
  }

  // Bit i of x.
  predicate Has(x: nat, i: nat) {
    if i == 0 then x % 2 == 1 else Has(x / 2, i - 1)
  }

  function And(x: nat, y: nat): (r: nat)
    ensures r <= x
    decreases x
  {
    if x == 0 then 0 else 2 * And(x / 2, y / 2) + if x % 2 == 1 && y % 2 == 1 then 1 else 0
  }

  function Or(x: nat, y: nat): (r: nat)
    decreases x + y
  {
    if x == 0 && y == 0 then 0 else 2 * Or(x / 2, y / 2) + if x % 2 == 1 || y % 2 == 1 then 1 else 0
  }

  // ~x and -x on w-bit words
  function Not(x: nat, w: nat): nat
    requires x < Pow2(w)
  {
    Pow2(w) - 1 - x
  }

  function Neg(x: nat, w: nat): nat
    requires x < Pow2(w)
  {
    if x == 0 then 0 else Pow2(w) - x
  }

  // ---- Powers and shifts --------------------------------------------------------------

  lemma Pow2Small()
    ensures Pow2(0) == 1 && Pow2(1) == 2 && Pow2(2) == 4 && Pow2(3) == 8 && Pow2(4) == 0x10
    ensures Pow2(5) == 0x20 && Pow2(6) == 0x40 && Pow2(7) == 0x80 && Pow2(8) == 0x100
    ensures Pow2(9) == 0x200 && Pow2(10) == 0x400 && Pow2(11) == 0x800 && Pow2(12) == 0x1000
    ensures Pow2(13) == 0x2000 && Pow2(14) == 0x4000 && Pow2(15) == 0x8000 && Pow2(16) == 0x1_0000
  {
  }

  lemma {:induction false} Pow2Add(m: nat, n: nat)
    ensures Pow2(m + n) == Pow2(m) * Pow2(n)
  {
    if m > 0 {
      Pow2Add(m - 1, n);
      assert Pow2(m + n) == 2 * (Pow2(m - 1) * Pow2(n));
    }
  }

  lemma WordSizes()
    ensures Pow2(32) == WORD32 && Pow2(63) == WORD64 / 2 && Pow2(64) == WORD64
  {
    Pow2Small();
    Pow2Add(16, 16);
    Pow2Add(32, 32);
  }

  lemma {:induction false} Pow2Less(m: nat, n: nat)
    requires m < n
    ensures Pow2(m) < Pow2(n)
  {
    if m < n - 1 {
      Pow2Less(m, n - 1);
    }
  }

  lemma AtLeastOnce(a: nat, d: int)
    requires d >= 1
    ensures a * d >= a
  {
  }

  lemma QuotientUnique(x: nat, a: nat, q: nat, r: nat)
    requires a > 0 && x == a * q + r && r < a
    ensures x / a == q && x % a == r
  {
    var q1, r1 := x / a, x % a;
    assert x == a * q1 + r1;
    assert a * (q1 - q) == r - r1;
    if q1 < q {
      AtLeastOnce(a, q - q1);
    } else if q1 > q {
      AtLeastOnce(a, q1 - q);
    }
  }

  // Rounding down to a multiple
  lemma Rounded(x: nat, a: nat)
    requires a > 0
    ensures 0 <= x / a * a <= x < x / a * a + a
  {
    var q, r := x / a, x % a;
    assert x == a * q + r;
    assert q * a == a * q;
  }

  lemma DivDiv(x: nat, a: nat)
    requires a > 0
    ensures x / a / 2 == x / (2 * a)
  {
    var q, r := x / a, x % a;
    assert x == q * a + r;
    var h := q / 2;
    assert x == (2 * a) * h + (q % 2 * a + r);
    assert 0 <= q % 2 * a + r < 2 * a;
    QuotientUnique(x, 2 * a, h, q % 2 * a + r);
  }

  lemma {:induction false} ShrIsDivision(x: nat, n: nat)
    ensures Shr(x, n) == x / Pow2(n)
  {
    if n > 0 {
      ShrIsDivision(x, n - 1);
      DivDiv(x, Pow2(n - 1));
    }
  }

  lemma {:induction false} ShrMonotone(x: nat, y: nat, n: nat)
    requires x <= y
    ensures Shr(x, n) <= Shr(y, n)
  {
    if n > 0 {
      ShrMonotone(x, y, n - 1);
    }
  }

  // A number with a smaller leading part is smaller.
  lemma ShrOrders(x: nat, y: nat, n: nat)
    requires Shr(x, n) < Shr(y, n)
    ensures x < y
  {
    if y <= x {
      ShrMonotone(y, x, n);
    }
  }

  lemma {:induction false} ShrAgreeAbove(x: nat, y: nat, m: nat, n: nat)
    requires m <= n && Shr(x, m) == Shr(y, m)
    ensures Shr(x, n) == Shr(y, n)
    decreases n
  {
    if m < n {
      ShrAgreeAbove(x, y, m, n - 1);
    }
  }

  lemma ScaleUp(s: nat, a: nat, b: nat, q: nat, r: nat)
    requires s == a * q + r && r < a && b > 0
    ensures s * b == (a * b) * q + r * b && r * b < a * b
  {
    assert (a * q + r) * b == (a * q) * b + r * b;
    assert (a * q) * b == (a * b) * q;
    assert (a - r) * b == a * b - r * b;
    AtLeastOnce(b, a - r);
  }

  lemma SplitTopBit(y: nat, q: nat, r: nat, half: nat)
    requires half > 0 && y == half * q + r && r < half
    ensures y % (2 * half) / half == q % 2
  {
    var h, b := q / 2, q % 2;
    assert half * q == (2 * half) * h + half * b;
    assert half * b + r < 2 * half;
    QuotientUnique(y, 2 * half, h, half * b + r);
    QuotientUnique(half * b + r, half, b, r);
  }

  lemma TopBitOfProduct(s: nat, a: nat, b: nat, half: nat)
    requires a > 0 && b > 0 && a * b == half
    ensures s * b % (2 * half) / half == s / a % 2
  {
    var q, r := s / a, s % a;
    assert s == a * q + r;
    ScaleUp(s, a, b, q, r);
    SplitTopBit(s * b, q, r * b, half);
  }

  // The sign bit of s << n is bit 63 - n of s.
  lemma SignBit(s: SizeT, n: nat)
    requires n <= 63
    ensures Shl64(s, n) / Pow2(63) == Shr(s, 63 - n) % 2
  {
    Pow2Add(63 - n, n);
    ShrIsDivision(s, 63 - n);
    WordSizes();
    TopBitOfProduct(s, Pow2(63 - n), Pow2(n), Pow2(63));
  }

  lemma ShiftOnce(s: SizeT, n: nat)
    ensures Shl64(Shl64(s, n), 1) == Shl64(s, n + 1)
  {
    var x := s * Pow2(n);
    assert Pow2(1) == 2;
    assert s * Pow2(n + 1) == 2 * x;
    DoubleMod(x);
  }

  lemma DoubleMod(x: nat)
    ensures (x % WORD64) * 2 % WORD64 == 2 * x % WORD64
  {
    var q, r := x / WORD64, x % WORD64;
    assert 2 * x == WORD64 * (2 * q) + 2 * r;
  }

  // ---- Bits ---------------------------------------------------------------------------

  lemma {:induction false} HasAnd(x: nat, y: nat, i: nat)
    ensures Has(And(x, y), i) <==> Has(x, i) && Has(y, i)
  {
    if x == 0 {
      HasZero(i);
    } else {
      AndHalf(x, y);
      if i > 0 {
        HasAnd(x / 2, y / 2, i - 1);
      }
    }
  }

  lemma AndHalf(x: nat, y: nat)
    ensures And(x, y) / 2 == And(x / 2, y / 2)
    ensures And(x, y) % 2 == 1 <==> x % 2 == 1 && y % 2 == 1
  {
  }

  lemma {:induction false} HasOr(x: nat, y: nat, i: nat)
    ensures Has(Or(x, y), i) <==> Has(x, i) || Has(y, i)
  {
    OrHalf(x, y);
    if i > 0 {
      HasOr(x / 2, y / 2, i - 1);
    }
  }

  lemma OrHalf(x: nat, y: nat)
    ensures Or(x, y) / 2 == Or(x / 2, y / 2)
    ensures Or(x, y) % 2 == 1 <==> x % 2 == 1 || y % 2 == 1
  {
  }

  lemma {:induction false} HasZero(i: nat)
    ensures !Has(0, i)
  {
    if i > 0 {
      HasZero(i - 1);
    }
  }

  lemma {:induction false} HasPow2(n: nat, i: nat)
    ensures Has(Pow2(n), i) <==> i == n
  {
    if n == 0 {
      if i > 0 { HasZero(i - 1); }
    } else if i > 0 {
      assert Pow2(n) / 2 == Pow2(n - 1);
      HasPow2(n - 1, i - 1);
    }
  }

  lemma {:induction false} HasNot(x: nat, w: nat, i: nat)
    requires x < Pow2(w) && i < w
    ensures Has(Not(x, w), i) <==> !Has(x, i)
  {
    if i > 0 {
      HasNot(x / 2, w - 1, i - 1);
      assert Not(x, w) / 2 == Not(x / 2, w - 1);
    }
  }

  // -2^k has the bits from k on.
  lemma {:induction false} HasNegPow2(k: nat, w: nat, i: nat)
    requires k < w && i < w && Pow2(k) < Pow2(w)
    ensures Has(Neg(Pow2(k), w), i) <==> k <= i
  {
    if k == 0 {
      AllOnes(w, i);
    } else if i > 0 {
      Pow2Less(k - 1, w - 1);
      HasNegPow2(k - 1, w - 1, i - 1);
      assert Neg(Pow2(k), w) / 2 == Neg(Pow2(k - 1), w - 1);
    }
  }

  lemma {:induction false} AllOnes(w: nat, i: nat)
    requires i < w
    ensures Has(Pow2(w) - 1, i)
  {
    if i > 0 {
      AllOnes(w - 1, i - 1);
      assert (Pow2(w) - 1) / 2 == Pow2(w - 1) - 1;
    }
  }

  lemma {:induction false} HasShr(x: nat, n: nat, i: nat)
    ensures Has(Shr(x, n), i) <==> Has(x, n + i)
  {
    if n > 0 {
      HasShr(x, n - 1, i + 1);
    }
  }

  lemma {:induction false} SomeBit(x: nat, w: nat) returns (i: nat)
    requires 0 < x < Pow2(w)
    ensures i < w && Has(x, i)
  {
    if x % 2 == 1 {
      i := 0;
    } else {
      i := SomeBit(x / 2, w - 1);
      i := i + 1;
    }
  }

  lemma {:induction false} OrRange(x: nat, y: nat, w: nat)
    requires x < Pow2(w) && y < Pow2(w)
    ensures Or(x, y) < Pow2(w)
  {
    if w > 0 {
      OrRange(x / 2, y / 2, w - 1);
    }
  }

  lemma {:induction false} AndNotSelf(x: nat, w: nat)
    requires x < Pow2(w)
    ensures And(x, Not(x, w)) == 0
  {
    if x > 0 {
      AndNotSelf(x / 2, w - 1);
      assert Not(x, w) / 2 == Not(x / 2, w - 1);
    }
  }

  // x & -x is the lowest bit of x.
  lemma {:induction false} LeastBitIsLowest(x: nat, w: nat) returns (i: nat)
    requires 0 < x < Pow2(w)
    ensures i < w && And(x, Neg(x, w)) == Pow2(i)
    ensures Has(x, i) && forall j: nat :: j < i ==> !Has(x, j)
  {
    if x % 2 == 1 {
      i := 0;
      AndNotSelf(x / 2, w - 1);
      assert Neg(x, w) / 2 == Not(x / 2, w - 1);
    } else {
      i := LeastBitIsLowest(x / 2, w - 1);
      assert Neg(x, w) / 2 == Neg(x / 2, w - 1);
      i := i + 1;
      forall j: nat | j < i ensures !Has(x, j) {
        if j > 0 { assert !Has(x / 2, j - 1); }
      }
    }
  }
}
