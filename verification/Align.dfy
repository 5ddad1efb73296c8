// FFI_ALIGN: rounding up to a multiple of an alignment.

module Align {
  import opened Words

  // The least multiple of a from x on
  function AlignUp(x: nat, a: nat): nat
    requires a > 0
  {
    if x == 0 then 0 else if x <= a then a else a + AlignUp(x - a, a)
  }

  // The multiple after the last one below x
  lemma {:induction false} AlignUpIs(x: nat, a: nat)
    requires a > 0 && x > 0
    ensures AlignUp(x, a) == ((x - 1) / a + 1) * a
  {
    if x <= a {
      QuotientUnique(x - 1, a, 0, x - 1);
    } else {
      AlignUpIs(x - a, a);
      NextQuotient(x - 1, a);
    }
  }

  lemma NextQuotient(y: nat, a: nat)
    requires a > 0 && y >= a
    ensures y / a == (y - a) / a + 1 && (y / a + 1) * a == ((y - a) / a + 1) * a + a
  {
    var k, r := (y - a) / a, (y - a) % a;
    assert y - a == a * k + r;
    assert a * (k + 1) == a * k + a;
    QuotientUnique(y, a, k + 1, r);
    assert (k + 2) * a == (k + 1) * a + a;
  }

  // FFI_ALIGN sets all bits below the alignment, a power of two, of the number before x.
  lemma AlignUpIsMacro(x: nat, k: nat)
    requires x > 0
    ensures Or(x - 1, Pow2(k) - 1) + 1 == AlignUp(x, Pow2(k))
  {
    hide AlignUp, Or, Shr, Pow2;
    var q, a := Shr(x - 1, k), Pow2(k);
    OrOnes(x - 1, k);
    ShrIsDivision(x - 1, k);
    AlignUpIs(x, a);
    assert (q + 1) * a == q * a + a;
  }

  lemma {:induction false} OrOnes(y: nat, k: nat)
    ensures Or(y, Pow2(k) - 1) == Shr(y, k) * Pow2(k) + Pow2(k) - 1
  {
    hide Or, Shr, Pow2;
    if k == 0 {
      OrNone(y);
      NoShift(y);
    } else {
      PowerTwice(k);
      OrOnes(y / 2, k - 1);
      OrHalf(y, Pow2(k) - 1);
      ShrHalf(y, k - 1);
      Doubled(Shr(y, k), Pow2(k - 1));
    }
  }

  lemma NoShift(y: nat)
    ensures Pow2(0) == 1 && Shr(y, 0) * Pow2(0) == y
  {
  }

  lemma PowerTwice(k: nat)
    requires k > 0
    ensures Pow2(k) == 2 * Pow2(k - 1)
  {
  }

  lemma Doubled(q: nat, h: nat)
    ensures 2 * (q * h) == q * (2 * h)
  {
  }

  lemma {:induction false} ShrHalf(y: nat, n: nat)
    ensures Shr(y / 2, n) == Shr(y, n + 1)
  {
    if n > 0 {
      ShrHalf(y, n - 1);
    }
  }

  lemma {:induction false} OrNone(y: nat)
    ensures Or(y, 0) == y
  {
    if y > 0 {
      OrNone(y / 2);
      OrHalf(y, 0);
    }
  }

  lemma Aligned(x: nat, a: nat)
    requires a > 0
    ensures x <= AlignUp(x, a) < x + a && AlignUp(x, a) % a == 0
  {
    if x > 0 {
      AlignUpIs(x, a);
      var q, r := (x - 1) / a, (x - 1) % a;
      assert x - 1 == a * q + r;
      assert (q + 1) * a == a * q + a;
      QuotientUnique((q + 1) * a, a, q + 1, 0);
    } else {
      QuotientUnique(0, a, 0, 0);
    }
  }

  lemma NoLess(x: nat, a: nat)
    requires a > 0
    ensures x <= AlignUp(x, a)
  {
    Aligned(x, a);
  }

  lemma AlignedIs(x: nat, a: nat, y: nat)
    requires a > 0 && y % a == 0 && x <= y < x + a
    ensures AlignUp(x, a) == y
  {
    hide AlignUp;
    Aligned(x, a);
    var z := AlignUp(x, a);
    if z < y {
      Multiples(z, y, a);
    } else if y < z {
      Multiples(y, z, a);
    }
  }

  lemma AlignMono(x: nat, y: nat, a: nat)
    requires a > 0 && x <= y
    ensures AlignUp(x, a) <= AlignUp(y, a)
  {
    hide AlignUp;
    Aligned(x, a);
    Aligned(y, a);
    if AlignUp(x, a) > AlignUp(y, a) {
      Multiples(AlignUp(y, a), AlignUp(x, a), a);
    }
  }

  // Two different multiples are at least a apart.
  lemma Multiples(y: nat, z: nat, a: nat)
    requires a > 0 && y % a == 0 && z % a == 0 && y < z
    ensures y + a <= z
  {
    var j, k := y / a, z / a;
    assert y == a * j && z == a * k;
    assert a * (k - j) == z - y;
    assert k > j;
    AtLeastOnce(a, k - j);
  }

  lemma MultipleOf(x: nat, a: nat, b: nat)
    requires a > 0 && b > 0 && a % b == 0 && x % a == 0
    ensures x % b == 0
  {
    var k, m := x / a, a / b;
    assert x == a * k && a == b * m;
    assert x == b * (m * k);
    QuotientUnique(x, b, m * k, 0);
  }

  // Rounding to a first does not change rounding to a multiple of it.
  lemma AlignTwice(x: nat, b: nat, a: nat)
    requires b > 0 && a > 0 && a % b == 0
    ensures AlignUp(AlignUp(x, b), a) == AlignUp(x, a)
  {
    hide AlignUp;
    Aligned(x, a);
    Aligned(x, b);
    var y, z := AlignUp(x, a), AlignUp(x, b);
    MultipleOf(y, a, b);
    if y < z {
      Multiples(y, z, b);
    }
    AlignedIs(z, a, y);
  }

  // Moving by a multiple of the alignment moves the result.
  lemma AlignShift(x: nat, d: nat, a: nat)
    requires a > 0 && d % a == 0
    ensures AlignUp(d + x, a) == d + AlignUp(x, a)
  {
    hide AlignUp;
    Aligned(x, a);
    var k, m := AlignUp(x, a) / a, d / a;
    assert AlignUp(x, a) == a * k && d == a * m;
    assert d + AlignUp(x, a) == a * (m + k);
    QuotientUnique(d + AlignUp(x, a), a, m + k, 0);
    AlignedIs(d + x, a, d + AlignUp(x, a));
  }
}
