/** The GUI's integer helpers: list-index normalisation, clamping and cyclic wrapping. */
module GuiMath {
  import opened CInt

  /** `a` reduced into [0, m) with C++'s truncating `%` corrected for negative
      remainders; an empty list (m <= 0) yields index 0. */
  function ModPos(a: int, m: int): (r: int)
    ensures m <= 0 ==> r == 0
    ensures 0 < m ==> 0 <= r < m && (a - r) % m == 0
  {
    if m <= 0 then 0
    else
      var r := CRem(a, m);
      CRemAdjusted(a, m);
      EuclideanUnique(a, m, a / m, a % m);
      MultipleHasNoRemainder(m, a / m);
      if r < 0 then r + m else r
  }

  /** ModPos is Dafny's Euclidean remainder: the unique representative in [0, m). */
  lemma ModPosIsEuclidean(a: int, m: int)
    requires 0 < m
    ensures ModPos(a, m) == a % m
  {
    CRemAdjusted(a, m);
  }

  /** Advancing an index by b and then by c is advancing it by b + c. */
  lemma ModPosAdd(a: int, b: int, c: int, m: int)
    requires 0 < m
    ensures ModPos(ModPos(a + b, m) + c, m) == ModPos(a + b + c, m)
  {
    ModPosIsEuclidean(a + b, m);
    ModPosIsEuclidean((a + b) % m + c, m);
    ModPosIsEuclidean(a + b + c, m);
    ModAddIsAddMod(a + b, c, m);
  }

  lemma ModAddIsAddMod(x: int, c: int, m: int)
    requires 0 < m
    ensures (x % m + c) % m == (x + c) % m
  {
    var q, r := x / m, x % m;
    var q2, r2 := (r + c) / m, (r + c) % m;
    assert x + c == m * (q + q2) + r2 by {
      assert x == m * q + r;
      assert r + c == m * q2 + r2;
      assert m * (q + q2) == m * q + m * q2;
    }
    EuclideanUnique(x + c, m, q + q2, r2);
  }

  /** List navigation is a group: one step forward and one back restores any valid index. */
  lemma ModPosStepBackRestores(i: int, m: int)
    requires 0 < m && 0 <= i < m
    ensures ModPos(ModPos(i + 1, m) - 1, m) == i
  {
    ModPosAdd(i, 1, -1, m);
    ModPosIsEuclidean(i, m);
    EuclideanUnique(i, m, 0, i);
  }

  /** The value limited to [lo, hi]; values inside are returned unchanged. */
  function ClampI32(v: i32, lo: i32, hi: i32): (r: i32)
    ensures lo <= hi ==> lo <= r <= hi
    ensures lo <= v <= hi ==> r == v
    ensures v < lo ==> r == lo
    ensures lo <= v && hi < v ==> r == hi
  {
    if v < lo then lo
    else if v > hi then hi
    else v
  }

  /** The value wrapped cyclically into [lo, hi], whose size hi - lo + 1 must fit
      in int32_t; lo > hi returns v. When v - lo does not overflow, the result is
      congruent to v modulo the range size. */
  function WrapI32(v: i32, lo: i32, hi: i32): (r: i32)
    requires lo <= hi ==> hi - lo < I32Max
    ensures lo > hi ==> r == v
    ensures lo <= hi ==> lo <= r <= hi
    ensures lo <= v <= hi ==> r == v
    ensures lo <= hi && I32Min <= v - lo <= I32Max ==> (r - v) % (hi - lo + 1) == 0
  {
    if lo > hi then v
    else
      var range := hi - lo + 1;
      var x := CRem(Wrap32(v - lo), range);
      var x' := if x < 0 then x + range else x;
      CRemAdjusted(Wrap32(v - lo), range);
      WrapCongruent(v, lo, range, x');
      lo + x'
  }

  lemma WrapCongruent(v: int, lo: int, range: int, x: int)
    requires 0 < range <= I32Max && 0 <= x < range
    requires I32Min <= v - lo <= I32Max ==> x == (v - lo) % range
    ensures I32Min <= v - lo <= I32Max ==> (lo + x - v) % range == 0
    ensures 0 <= v - lo < range ==> x == v - lo
  {
    if I32Min <= v - lo <= I32Max {
      var q := (v - lo) / range;
      assert lo + x - v == range * (-q);
      MultipleHasNoRemainder(range, -q);
      if 0 <= v - lo < range {
        EuclideanUnique(v - lo, range, 0, v - lo);
      }
    }
  }

  /** Wrapping is cyclic: one past the top lands on the bottom and one below the bottom on the top. */
  lemma WrapIsCyclic(lo: i32, hi: i32)
    requires lo <= hi && hi - lo < I32Max && hi < I32Max && I32Min < lo
    ensures WrapI32(hi + 1, lo, hi) == lo
    ensures WrapI32(lo - 1, lo, hi) == hi
  {
    var range := hi - lo + 1;
    EuclideanUnique(hi + 1 - lo, range, 1, 0);
    EuclideanUnique(lo - 1 - lo, range, -1, range - 1);
    CRemAdjusted(hi + 1 - lo, range);
    CRemAdjusted(lo - 1 - lo, range);
  }
}
