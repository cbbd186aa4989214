/** Numeric bounds as the code compares them: after conversion to double. */
module Numbers {
  import opened Prelude
  import opened Canonical

  const TWO_52: nat := 0x10_0000_0000_0000
  const TWO_53: nat := 0x20_0000_0000_0000

  /** The distance between neighbouring doubles at n, a power of two. */
  function Spacing(n: nat): (p: nat)
    ensures p >= 1
  {
    if n < TWO_53 then 1 else 2 * Spacing(n / 2)
  }

  /** static_cast<double> of an unsigned integer: to nearest, ties to even (IEEE 754-2019, section 4.3.1). */
  function ToDouble(n: nat): nat {
    var p := Spacing(n);
    var q, r := n / p, n % p;
    if 2 * r > p || (2 * r == p && q % 2 == 1) then (q + 1) * p else q * p
  }

  function Scale(e: int): real
    decreases if e < 0 then -e else e
  {
    if e == 0 then 1.0 else if e > 0 then 2.0 * Scale(e - 1) else Scale(e + 1) / 2.0
  }

  /** The value of the double with these bits, if it is finite. */
  function DoubleValue(bits: u64): real {
    var e, m := bits / TWO_52 % 2048, bits % TWO_52;
    var magnitude := (if e == 0 then m else TWO_52 + m) as real * Scale((if e == 0 then 1 else e) - 1075);
    if bits < 0x8000_0000_0000_0000 then magnitude else -magnitude
  }

  /** The operand of Min and Max. The signed case passes through uint64_t; the other kinds throw. */
  function NumberOf(c: Canon): Result<real> {
    match c
    case Float(bits) => Ok(DoubleValue(bits))
    case Uint(u) => Ok(ToDouble(u) as real)
    case Int(i) => Ok(ToDouble(BitsOfInt(i)) as real)
    case _ => Err
  }

  // ---- How far the conversion can be trusted ----

  lemma {:induction false} SpacingBounds(n: nat)
    ensures n < TWO_53 * Spacing(n)
    ensures Spacing(n) == 1 || (Spacing(n) >= 2 && TWO_52 * Spacing(n) <= n)
  {
    if n >= TWO_53 {
      SpacingBounds(n / 2);
    }
  }

  lemma {:induction false} SpacingGrows(a: nat, b: nat)
    requires a <= b
    ensures Spacing(a) == Spacing(b) || 2 * Spacing(a) <= Spacing(b)
  {
    if a >= TWO_53 {
      SpacingGrows(a / 2, b / 2);
    }
  }

  lemma MulMono(a: int, b: int, p: nat)
    requires a <= b
    ensures a * p <= b * p
  {
  }

  lemma Nearest(n: nat)
    ensures var p := Spacing(n); n / p * p <= ToDouble(n) <= (n / p + 1) * p
    ensures -(Spacing(n) as int) <= 2 * (ToDouble(n) as int - n) <= Spacing(n)
  {
    hide Spacing;
    var p := Spacing(n);
    var q, r := n / p, n % p;
    Division(n, p);
    Successor(q, p);
    assert ToDouble(n) == q * p || ToDouble(n) == q * p + p;
  }

  lemma Division(n: nat, p: int)
    requires p >= 1
    ensures n == n / p * p + n % p && 0 <= n % p < p
  {
  }

  lemma Successor(q: int, p: int)
    ensures (q + 1) * p == q * p + p
  {
  }

  lemma SameQuotient(a: nat, b: nat, p: int)
    requires p >= 1 && a <= b && a / p == b / p
    ensures a % p <= b % p
  {
    assert a == a / p * p + a % p && b == b / p * p + b % p;
  }

  lemma QuotientMono(a: nat, b: nat, p: int)
    requires p >= 1 && a <= b
    ensures a / p <= b / p
  {
    var d := b / p - a / p;
    assert d * p == b - b % p - (a - a % p);
    assert d <= -1 ==> d * p <= -p;
  }

  lemma QuotientBelow(n: nat, k: nat, p: int)
    requires p >= 1
    ensures n < k * p ==> n / p < k
    ensures k * p <= n ==> k <= n / p
  {
    var d := n / p - k;
    assert d * p == n - n % p - k * p;
    assert d >= 0 ==> d * p >= 0;
    assert d <= -1 ==> d * p <= -p;
  }

  /** Conversion keeps the order, so a bound that is met is never refused. */
  lemma ToDoubleMonotone(a: nat, b: nat)
    requires a <= b
    ensures ToDouble(a) <= ToDouble(b)
  {
    var p, q := Spacing(a), Spacing(b);
    SpacingGrows(a, b);
    Nearest(a);
    Nearest(b);
    if p == q {
      QuotientMono(a, b, p);
      if a / p == b / p {
        SameQuotient(a, b, p);
      } else {
        MulMono(a / p + 1, b / p, p);
      }
    } else {
      SpacingBounds(a);
      SpacingBounds(b);
      QuotientBelow(a, TWO_53, p);
      QuotientBelow(b, TWO_52, q);
      MulMono(a / p + 1, TWO_53, p);
      MulMono(TWO_52, b / q, q);
    }
  }

  lemma ToDoubleExact(n: nat)
    requires n <= TWO_53
    ensures ToDouble(n) == n
  {
  }

  lemma SpacingLimit(n: u64)
    ensures Spacing(n) <= 2048
  {
    SpacingGrows(n, 0xFFFF_FFFF_FFFF_FFFF);
    assert Spacing(0xFFFF_FFFF_FFFF_FFFF) == 2048;
  }

  /** Values taken for equal lie within 2048 of each other. */
  lemma Confused(a: u64, b: u64)
    requires ToDouble(a) == ToDouble(b)
    ensures -2048 <= a - b <= 2048
  {
    Nearest(a);
    Nearest(b);
    SpacingLimit(a);
    SpacingLimit(b);
  }

  /** A lower bound is checked exactly, for every field value, precisely if conversion tells it from its predecessor. */
  lemma LowerBoundExact(b: u64)
    ensures (forall a: u64 :: ToDouble(a) >= ToDouble(b) <==> a >= b) <==> b == 0 || ToDouble(b - 1) != ToDouble(b)
  {
    if b != 0 {
      ToDoubleMonotone(b - 1, b);
      forall a: u64 ensures a >= b ==> ToDouble(a) >= ToDouble(b) {
        if a >= b { ToDoubleMonotone(b, a); }
      }
      forall a: u64 ensures a < b ==> ToDouble(a) <= ToDouble(b - 1) {
        if a < b { ToDoubleMonotone(a, b - 1); }
      }
      var below: u64 := b - 1;
      assert below < b;
      assert ToDouble(below) == ToDouble(b - 1);
    }
  }

  lemma UpperBoundExact(b: u64)
    ensures (forall a: u64 :: ToDouble(a) <= ToDouble(b) <==> a <= b)
            <==> b == TWO_64 - 1 || ToDouble(b + 1) != ToDouble(b)
  {
    forall a: u64 ensures a <= b ==> ToDouble(a) <= ToDouble(b) {
      if a <= b { ToDoubleMonotone(a, b); }
    }
    if b < TWO_64 - 1 {
      var above: u64 := b + 1;
      ToDoubleMonotone(b, above);
      forall a: u64 ensures a > b ==> ToDouble(a) >= ToDouble(above) {
        if a > b { ToDoubleMonotone(above, a); }
      }
      assert above > b;
    }
  }

  /** The first bound that is not checked exactly: 2^53 passes for 2^53 + 1. */
  lemma FirstConfusion()
    ensures ToDouble(TWO_53) == ToDouble(TWO_53 + 1) == TWO_53
  {
    assert Spacing(TWO_53 + 1) == 2;
  }
}
