/** Integer semantics of the firmware's C++: fixed-width types, two's-complement
    wrap-around, division that truncates toward zero, and uint32_t clock arithmetic. */
module CInt {

  const U32Mod: int := 0x1_0000_0000
  const I32Min: int := -0x8000_0000
  const I32Max: int := 0x7FFF_FFFF

  type u8 = x: int | 0 <= x < 0x100
  type u32 = x: int | 0 <= x < 0x1_0000_0000
  type i32 = x: int | -0x8000_0000 <= x <= 0x7FFF_FFFF

  function Abs(x: int): (r: nat)
    ensures r == x || r == -x
  {
    if x < 0 then -x else x
  }

  /** The int32_t that an out-of-range result lands on under two's-complement
      wrap-around: the unique int32_t congruent to x modulo 2^32. */
  function Wrap32(x: int): (r: i32)
    ensures (r - x) % U32Mod == 0
    ensures I32Min <= x <= I32Max ==> r == x
  {
    I32Min + (x - I32Min) % U32Mod
  }

  /** C++ `a / b`: the quotient truncated toward zero. */
  function CDiv(a: int, b: int): (q: int)
    requires b != 0
    ensures 0 <= a && 0 < b ==> q == a / b
    ensures Abs(q) == Abs(a) / Abs(b)
    ensures q != 0 ==> ((q < 0) <==> ((a < 0) != (b < 0)))
  {
    var n := Abs(a) / Abs(b);
    DivOfNatIsNat(Abs(a), Abs(b));
    if (a < 0) == (b < 0) then n else -n
  }

  lemma DivOfNatIsNat(a: nat, b: nat)
    requires 0 < b
    ensures 0 <= a / b
  {
  }

  /** C++ `a % b`: the remainder left by truncating division; it takes the sign of a. */
  function CRem(a: int, b: int): (r: int)
    requires b != 0
    ensures a == b * CDiv(a, b) + r
    ensures Abs(r) < Abs(b)
    ensures 0 <= a ==> 0 <= r
    ensures a <= 0 ==> r <= 0
    ensures 0 <= a && 0 < b ==> r == a % b
  {
    var q := Abs(a) / Abs(b);
    var m := Abs(a) % Abs(b);
    assert Abs(a) == Abs(b) * q + m;
    SignedQuotient(a, b, q, m);
    if 0 <= a then m else -m
  }

  /** Restoring the signs of a and b in |a| == |b| * q + m. */
  lemma SignedQuotient(a: int, b: int, q: int, m: int)
    requires b != 0 && Abs(a) == Abs(b) * q + m
    ensures a == b * (if (a < 0) == (b < 0) then q else -q) + (if 0 <= a then m else -m)
  {
    if b < 0 {
      assert Abs(b) * q == b * -q;
    }
  }

  /** A truncated remainder that is shifted up by m when negative is the Euclidean remainder. */
  lemma CRemAdjusted(a: int, m: int)
    requires 0 < m
    ensures (if CRem(a, m) < 0 then CRem(a, m) + m else CRem(a, m)) == a % m
  {
    var r := CRem(a, m);
    var q := CDiv(a, m);
    var r' := if r < 0 then r + m else r;
    var q' := if r < 0 then q - 1 else q;
    assert a == m * q' + r' && 0 <= r' < m;
    EuclideanUnique(a, m, q', r');
  }

  /** Quotient and remainder are unique: if a == m*q + r with 0 <= r < m then
      they are a / m and a % m. */
  lemma EuclideanUnique(a: int, m: int, q: int, r: int)
    requires 0 < m && a == m * q + r && 0 <= r < m
    ensures a / m == q && a % m == r
  {
    var q0, r0 := a / m, a % m;
    assert a == m * q0 + r0 && 0 <= r0 < m;
    var k := q - q0;
    assert m * k == r0 - r by {
      assert m * q - m * q0 == r0 - r;
      assert m * (q - q0) == m * q - m * q0;
    }
    if k > 0 {
      MulAtLeast(m, k);
    }
  }

  lemma MulAtLeast(m: nat, k: nat)
    requires 0 < k
    ensures m <= m * k
  {
    if k > 1 {
      MulAtLeast(m, k - 1);
      assert m * k == m * (k - 1) + m;
    }
  }

  /** Multiplying by a non-negative factor keeps an order. */
  lemma MulMonotone(a: nat, x: int, y: int)
    requires x <= y
    ensures a * x <= a * y
  {
    var d: nat := y - x;
    assert a * y == a * x + a * d;
  }

  /** A multiple of a positive m smaller than m is not a positive multiple. */
  lemma ProductBelowFactor(m: int, d: int)
    requires 0 < m && m * d < m
    ensures d <= 0
  {
    if d > 0 {
      MulAtLeast(m, d);
    }
  }

  /** A multiple of m leaves no remainder. */
  lemma MultipleHasNoRemainder(m: int, k: int)
    requires 0 < m
    ensures (m * k) % m == 0
  {
    EuclideanUnique(m * k, m, k, 0);
  }

  /** `now - since` on uint32_t: the elapsed ticks, counted across one wrap of the clock. */
  function Elapsed(now: u32, since: u32): (d: u32)
    ensures since <= now ==> d == now - since
    ensures now < since ==> d == now - since + U32Mod
  {
    (now - since) % U32Mod
  }

  /** `a + b` on uint32_t. */
  function AddU32(a: u32, b: u32): (s: u32)
    ensures a + b < U32Mod ==> s == a + b
    ensures U32Mod <= a + b ==> s == a + b - U32Mod
  {
    (a + b) % U32Mod
  }
}
