/** The frequency model: an int32_t value in Hz, quantised to the minimum step and
    kept in range by a clamp or wrap policy; digit steps for the edit cursor; and
    integer-only "DDD.DDD" MHz formatting. */
module Frequency {
  import opened CInt
  import opened GuiMath

  /** The frequency constraints of the configuration. */
  datatype Limits = Limits(minHz: i32, maxHz: i32, stepHz: i32, wrap: bool)

  /** A positive step of which both bounds are multiples. */
  predicate Aligned(lim: Limits)
  {
    0 < lim.stepHz && lim.minHz <= lim.maxHz && lim.minHz % lim.stepHz == 0 && lim.maxHz % lim.stepHz == 0
  }

  /** Subtracts the truncated remainder: the value is rounded toward zero onto the step grid. */
  function Quantize(f: i32, step: i32): (r: i32)
    ensures step <= 0 ==> r == f
    ensures 0 < step ==> r % step == 0 && Abs(f - r) < step
    ensures 0 < step && f % step == 0 ==> r == f
    ensures 0 <= f ==> 0 <= r <= f
    ensures f <= 0 ==> f <= r <= 0
  {
    if 0 < step then
      var rem := CRem(f, step);
      MultipleHasNoRemainder(step, CDiv(f, step));
      var r := if rem != 0 then f - rem else f;
      if f % step == 0 then
        MultipleNear(r, f, step);
        r
      else r
    else f
  }

  /** Two multiples of m less than m apart are equal. */
  lemma MultipleNear(x: int, c: int, m: int)
    requires 0 < m && x % m == 0 && c % m == 0 && c - m < x < c + m
    ensures x == c
  {
    var a, b := x / m, c / m;
    assert x == m * a && c == m * b;
    assert x - c == m * (a - b);
    assert c - x == m * (b - a);
    if a - b > 0 {
      MulAtLeast(m, a - b);
    } else if b - a > 0 {
      MulAtLeast(m, b - a);
    }
  }

  /** limitFreq exactly as the firmware writes it: quantise, then wrap over the
      integer range [minHz, maxHz] or clamp to it. */
  function LimitFreqAsWritten(f: i32, lim: Limits): (r: i32)
    requires lim.minHz <= lim.maxHz ==> lim.maxHz - lim.minHz < I32Max
    ensures lim.minHz <= lim.maxHz ==> lim.minHz <= r <= lim.maxHz
    ensures !lim.wrap && Aligned(lim) ==> r % lim.stepHz == 0
  {
    var q := Quantize(f, lim.stepHz);
    if lim.wrap then WrapI32(q, lim.minHz, lim.maxHz)
    else ClampI32(q, lim.minHz, lim.maxHz)
  }

  /** The spacing of the wrap cycle: the step, or 1 Hz when there is no step. */
  function Grid(lim: Limits): (g: int)
    ensures 0 < g
    ensures 0 < lim.stepHz ==> g == lim.stepHz
  {
    if 0 < lim.stepHz then lim.stepHz else 1
  }

  /** The bounds leave room for one grid step of wrap above maxHz. */
  predicate Representable(lim: Limits)
  {
    && lim.maxHz + Grid(lim) - 1 <= I32Max
    && (lim.minHz <= lim.maxHz ==> lim.maxHz - lim.minHz + Grid(lim) <= I32Max)
  }

  /** limitFreq with the wrap cycle taken over the step grid: the range is
      maxHz - minHz + step, so one step past maxHz is minHz. Under clamp it is
      the firmware's limitFreq unchanged. */
  function LimitFreq(f: i32, lim: Limits): (r: i32)
    requires Representable(lim)
    ensures lim.minHz <= lim.maxHz && !lim.wrap ==> lim.minHz <= r <= lim.maxHz
    ensures lim.minHz <= lim.maxHz && lim.wrap ==> lim.minHz <= r <= lim.maxHz + Grid(lim) - 1
  {
    var q := Quantize(f, lim.stepHz);
    if lim.wrap then WrapI32(q, lim.minHz, lim.maxHz + Grid(lim) - 1)
    else ClampI32(q, lim.minHz, lim.maxHz)
  }

  /** With bounds on the grid the corrected limitFreq always yields a grid point
      inside [minHz, maxHz] (for wrap, as long as the quantised f - minHz is an int32_t). */
  lemma LimitFreqOnGrid(f: i32, lim: Limits)
    requires Aligned(lim) && Representable(lim)
    requires lim.wrap ==> I32Min <= Quantize(f, lim.stepHz) - lim.minHz <= I32Max
    ensures lim.minHz <= LimitFreq(f, lim) <= lim.maxHz
    ensures LimitFreq(f, lim) % lim.stepHz == 0
  {
    var q := Quantize(f, lim.stepHz);
    var r := LimitFreq(f, lim);
    if lim.wrap {
      var hi := lim.maxHz + lim.stepHz - 1;
      assert r == WrapI32(q, lim.minHz, hi);
      assert (r - q) % (hi - lim.minHz + 1) == 0;
      assert hi - lim.minHz + 1 == lim.maxHz + lim.stepHz - lim.minHz;
      WrapStaysOnGrid(q, r, lim);
    } else {
      assert r == q || r == lim.minHz || r == lim.maxHz;
    }
  }

  lemma WrapStaysOnGrid(q: int, r: int, lim: Limits)
    requires Aligned(lim) && q % lim.stepHz == 0
    requires lim.minHz <= r <= lim.maxHz + lim.stepHz - 1
    requires (r - q) % (lim.maxHz + lim.stepHz - lim.minHz) == 0
    ensures lim.minHz <= r <= lim.maxHz && r % lim.stepHz == 0
  {
    var s := lim.stepHz;
    var j := lim.maxHz / s + 1 - lim.minHz / s;
    assert lim.maxHz + s - lim.minHz == s * j by {
      assert lim.maxHz == s * (lim.maxHz / s) && lim.minHz == s * (lim.minHz / s);
    }
    ShiftByMultiple(q, r, s, j);
    BelowNextGridPoint(r, lim.maxHz, s);
  }

  /** A grid point shifted by a multiple of a multiple of the step stays on the grid. */
  lemma ShiftByMultiple(q: int, r: int, s: int, j: int)
    requires 0 < s && q % s == 0 && s * j != 0 && (r - q) % (s * j) == 0
    ensures r % s == 0
  {
    var k := (r - q) / (s * j);
    var a := q / s;
    assert r - q == (s * j) * k;
    assert (s * j) * k == s * (j * k);
    assert r == s * (a + j * k);
    MultipleHasNoRemainder(s, a + j * k);
  }

  /** A grid point below the grid point after max is at most max. */
  lemma BelowNextGridPoint(r: int, max: int, s: int)
    requires 0 < s && r % s == 0 && max % s == 0 && r <= max + s - 1
    ensures r <= max
  {
    var n, b := r / s, max / s;
    assert r == s * n && max == s * b;
    assert r - max == s * (n - b);
    ProductBelowFactor(s, n - b);
  }

  /** Under clamp the corrected limitFreq is the firmware's. */
  lemma LimitFreqMatchesSourceUnderClamp(f: i32, lim: Limits)
    requires !lim.wrap && Representable(lim)
    ensures LimitFreq(f, lim) == LimitFreqAsWritten(f, lim)
  {
  }

  /** The firmware's wrap leaves the step grid: with the shipped bounds and wrap
      enabled, one 1 kHz step above 511.999 MHz lands on 30 000 999 Hz. */
  lemma WrapAsWrittenLeavesGrid()
    ensures var lim := Limits(30000000, 511999000, 1000, true);
      LimitFreqAsWritten(511999000 + 1000, lim) == 30000999 && 30000999 % 1000 != 0
  {
    var range := 511999000 - 30000000 + 1;
    assert CRem(512000000 - 30000000, range) == 999;
  }

  /** The corrected wrap is cyclic on the grid: one step above the top is the
      bottom and one step below the bottom is the top. */
  lemma WrapOnGridIsCyclic(lim: Limits)
    requires Aligned(lim) && lim.wrap && Representable(lim)
    requires lim.maxHz + lim.stepHz <= I32Max && I32Min <= lim.minHz - lim.stepHz
    ensures LimitFreq(lim.maxHz + lim.stepHz, lim) == lim.minHz
    ensures LimitFreq(lim.minHz - lim.stepHz, lim) == lim.maxHz
  {
    WrapPastTop(lim);
    WrapPastBottom(lim);
  }

  lemma WrapPastTop(lim: Limits)
    requires Aligned(lim) && lim.wrap && Representable(lim)
    requires lim.maxHz + lim.stepHz <= I32Max
    ensures LimitFreq(lim.maxHz + lim.stepHz, lim) == lim.minHz
  {
    var s := lim.stepHz;
    var range := lim.maxHz + s - lim.minHz;
    var up := lim.maxHz + s;
    StepKeepsGrid(lim.maxHz, s, s);
    assert Quantize(up, s) == up;
    var r := WrapI32(up, lim.minHz, lim.maxHz + s - 1);
    assert LimitFreq(up, lim) == r;
    assert (r - up) % range == 0;
    MultipleHasNoRemainder(range, -1);
    assert -range == range * -1;
    MultipleNear(r - up, -range, range);
  }

  lemma WrapPastBottom(lim: Limits)
    requires Aligned(lim) && lim.wrap && Representable(lim)
    requires I32Min <= lim.minHz - lim.stepHz
    ensures LimitFreq(lim.minHz - lim.stepHz, lim) == lim.maxHz
  {
    var s := lim.stepHz;
    var range := lim.maxHz + s - lim.minHz;
    var down := lim.minHz - s;
    StepKeepsGrid(lim.minHz, -s, s);
    assert Quantize(down, s) == down;
    var r := WrapI32(down, lim.minHz, lim.maxHz + s - 1);
    assert LimitFreq(down, lim) == r;
    assert (r - down) % range == 0;
    MultipleHasNoRemainder(range, 1);
    MultipleNear(r - down, range, range);
  }

  /** A grid point moved by one step is a grid point. */
  lemma StepKeepsGrid(x: int, y: int, s: int)
    requires 0 < s && x % s == 0 && (y == s || y == -s)
    ensures (x + y) % s == 0
  {
    var k := x / s;
    assert x == s * k;
    if y == s {
      assert x + y == s * (k + 1);
      MultipleHasNoRemainder(s, k + 1);
    } else {
      assert x + y == s * (k - 1);
      MultipleHasNoRemainder(s, k - 1);
    }
  }

  function Pow10(n: nat): (p: nat)
    ensures 0 < p
  {
    if n == 0 then 1 else 10 * Pow10(n - 1)
  }

  /** The Hz added per encoder step for each cursor digit of "DDD.DDD" MHz;
      a cursor beyond the last digit counts as the last digit. */
  function CursorStepHz(c: u8): (r: i32)
    ensures c <= 5 ==> r == 1000 * Pow10(5 - c)
    ensures 5 <= c ==> r == 1000
  {
    var steps := [100000000, 10000000, 1000000, 100000, 10000, 1000];
    assert Pow10(5) == 100000 && Pow10(4) == 10000 && Pow10(3) == 1000;
    steps[if c > 5 then 5 else c]
  }

  /** The character of the decimal digit n (a negative n gives a character below '0'). */
  function DigitChar(n: int): (ch: char)
    requires -9 <= n <= 9
    ensures 0 <= n ==> '0' <= ch <= '9' && ch as int - '0' as int == n
  {
    (48 + n) as char
  }

  /** The 8-byte buffer "DDD.DDD" plus NUL for f Hz: whole MHz, then the kHz
      fraction, each digit taken by truncating division and remainder. */
  function FormatFreq(f: i32): (r: string)
    ensures |r| == 8 && r[3] == '.' && r[7] == '\0'
    ensures 0 <= f ==> forall i :: 0 <= i < 7 && i != 3 ==> '0' <= r[i] <= '9'
  {
    var kHz := CDiv(f, 1000);
    var mhz := CDiv(kHz, 1000);
    var frac := CRem(kHz, 1000);
    [ DigitChar(CRem(CDiv(mhz, 100), 10)),
      DigitChar(CRem(CDiv(mhz, 10), 10)),
      DigitChar(CRem(CDiv(mhz, 1), 10)),
      '.',
      DigitChar(CRem(CDiv(frac, 100), 10)),
      DigitChar(CRem(CDiv(frac, 10), 10)),
      DigitChar(CRem(CDiv(frac, 1), 10)),
      '\0' ]
  }

  function DigitValue(ch: char): int
  {
    ch as int - '0' as int
  }

  /** Reads "DDD.DDD" MHz back as Hz: the partner of FormatFreq. */
  function ParseFreqHz(s: string): int
    requires 7 <= |s|
  {
    var mhz := 100 * DigitValue(s[0]) + 10 * DigitValue(s[1]) + DigitValue(s[2]);
    var frac := 100 * DigitValue(s[4]) + 10 * DigitValue(s[5]) + DigitValue(s[6]);
    (mhz * 1000 + frac) * 1000
  }

  lemma DivDiv(x: int, a: int, b: int)
    requires 0 <= x && 0 < a && 0 < b
    ensures (x / a) / b == x / (a * b)
  {
    var q1, r1 := x / a, x % a;
    var q2, r2 := q1 / b, q1 % b;
    assert x == (a * b) * q2 + (a * r2 + r1) by {
      assert x == a * q1 + r1;
      assert q1 == b * q2 + r2;
      assert a * q1 == a * (b * q2) + a * r2;
      assert a * (b * q2) == (a * b) * q2;
    }
    assert a * r2 + r1 < a * b by {
      MulMonotone(a, r2, b - 1);
      assert a * (b - 1) == a * b - a;
    }
    assert 0 <= a * r2;
    EuclideanUnique(x, a * b, q2, a * r2 + r1);
  }

  /** The digit of x at place b survives reducing x modulo b*k when k is a multiple of 10. */
  lemma DigitOfRemainder(x: int, b: int, k: int)
    requires 0 <= x && 0 < b && 0 < k && k % 10 == 0
    ensures ((x % (b * k)) / b) % 10 == (x / b) % 10
  {
    var Q, y := x / (b * k), x % (b * k);
    DivDiv(x, b * k, 1);
    assert x == b * (k * Q) + y by {
      assert x == (b * k) * Q + y;
      assert (b * k) * Q == b * (k * Q);
    }
    var yq, yr := y / b, y % b;
    assert x == b * (k * Q + yq) + yr by {
      assert y == b * yq + yr;
      assert b * (k * Q) + b * yq == b * (k * Q + yq);
    }
    EuclideanUnique(x, b, k * Q + yq, yr);
    var kk := k / 10;
    var t, u := yq / 10, yq % 10;
    assert k * Q + yq == 10 * (kk * Q + t) + u by {
      assert k == 10 * kk;
      assert k * Q == 10 * (kk * Q) by { assert (10 * kk) * Q == 10 * (kk * Q); }
      assert yq == 10 * t + u;
    }
    EuclideanUnique(k * Q + yq, 10, kk * Q + t, u);
  }

  lemma ThreeDigits(n: int)
    requires 0 <= n < 1000
    ensures 100 * ((n / 100) % 10) + 10 * ((n / 10) % 10) + n % 10 == n
  {
    DivDiv(n, 10, 10);
    assert n / 100 < 10;
    assert n == 10 * (n / 10) + n % 10;
    assert n / 10 == 10 * ((n / 10) / 10) + (n / 10) % 10;
  }

  /** For a non-negative f below 10^9 the digits read back as the whole kHz in f:
      formatting drops only the sub-kHz remainder, so a value on the 1 kHz grid
      reads back exactly. */
  lemma {:induction false} FormatFreqReadsBack(f: i32)
    requires 0 <= f < 1000000000
    ensures ParseFreqHz(FormatFreq(f)) == f - f % 1000
    ensures f % 1000 == 0 ==> ParseFreqHz(FormatFreq(f)) == f
  {
    var s := FormatFreq(f);
    var kHz := f / 1000;
    var mhz := kHz / 1000;
    var frac := kHz % 1000;
    FormatFreqDigits(f);
    MhzBelowThousand(f);
    ThreeDigits(mhz);
    ThreeDigits(frac);
    assert 100 * DigitValue(s[0]) + 10 * DigitValue(s[1]) + DigitValue(s[2]) == mhz;
    assert 100 * DigitValue(s[4]) + 10 * DigitValue(s[5]) + DigitValue(s[6]) == frac;
    KhzReadBack(f);
  }

  /** Below 10^9 Hz the whole MHz fit in three digits. */
  lemma MhzBelowThousand(f: int)
    requires 0 <= f < 1000000000
    ensures f / 1000 / 1000 < 1000
  {
    DivDiv(f, 1000, 1000);
    var m := f / 1000000;
    assert f == 1000000 * m + f % 1000000;
    assert 1000000 * (m - 999) == 1000000 * m - 999000000;
    ProductBelowFactor(1000000, m - 999);
  }

  /** Whole MHz and the kHz fraction recombine to f less its sub-kHz remainder. */
  lemma KhzReadBack(f: int)
    requires 0 <= f
    ensures ((f / 1000 / 1000) * 1000 + (f / 1000) % 1000) * 1000 == f - f % 1000
  {
    var kHz := f / 1000;
    assert kHz == 1000 * (kHz / 1000) + kHz % 1000;
    assert f == 1000 * kHz + f % 1000;
  }

  /** 104.2 MHz, the start frequency, formats as "104.200". */
  lemma FormatStartFrequency()
    ensures FormatFreq(104200000) == "104.200\0"
  {
    assert CDiv(104200000, 1000) == 104200;
    assert CDiv(104200, 1000) == 104 && CRem(104200, 1000) == 200;
  }

  /** The upper bound 511.999 MHz formats as "511.999". */
  lemma FormatUpperBound()
    ensures FormatFreq(511999000) == "511.999\0"
  {
    assert CDiv(511999000, 1000) == 511999;
    assert CDiv(511999, 1000) == 511 && CRem(511999, 1000) == 999;
  }

  /** The lower bound keeps its leading zero: "030.000". */
  lemma FormatLowerBound()
    ensures FormatFreq(30000000) == "030.000\0"
  {
    assert CDiv(30000000, 1000) == 30000;
    assert CDiv(30000, 1000) == 30 && CRem(30000, 1000) == 0;
  }

  /** The character the edit cursor underlines: digits 0-2 are the whole MHz, 3-5
      skip the decimal point. */
  function CursorColumn(c: u8): (col: nat)
    ensures c <= 5 ==> col < 7 && col != 3
  {
    if c <= 2 then c else c + 1
  }

  /** For a non-negative f the characters of FormatFreq are Euclidean digits. */
  lemma FormatFreqDigits(f: i32)
    requires 0 <= f
    ensures var kHz := f / 1000;
      var mhz := kHz / 1000;
      var frac := kHz % 1000;
      var s := FormatFreq(f);
      && s[0] == DigitChar((mhz / 100) % 10)
      && s[1] == DigitChar((mhz / 10) % 10)
      && s[2] == DigitChar(mhz % 10)
      && s[4] == DigitChar((frac / 100) % 10)
      && s[5] == DigitChar((frac / 10) % 10)
      && s[6] == DigitChar(frac % 10)
  {
    var kHz := f / 1000;
    var mhz := kHz / 1000;
    var frac := kHz % 1000;
    assert CDiv(f, 1000) == kHz;
    assert CDiv(kHz, 1000) == mhz && CRem(kHz, 1000) == frac;
  }

  /** The whole-MHz digits sit at place values 10^8, 10^7 and 10^6 of f. */
  lemma MhzPlaces(f: nat)
    ensures ((f / 1000 / 1000) / 100) % 10 == (f / 100000000) % 10
    ensures ((f / 1000 / 1000) / 10) % 10 == (f / 10000000) % 10
    ensures (f / 1000 / 1000) % 10 == (f / 1000000) % 10
  {
    DivDiv(f, 1000, 1000);
    DivDiv(f, 1000000, 100);
    DivDiv(f, 1000000, 10);
  }

  /** The kHz fraction's digits sit at place values 10^5, 10^4 and 10^3 of f. */
  lemma KhzPlaces(f: nat)
    ensures (((f / 1000) % 1000) / 100) % 10 == (f / 100000) % 10
    ensures (((f / 1000) % 1000) / 10) % 10 == (f / 10000) % 10
    ensures ((f / 1000) % 1000) % 10 == (f / 1000) % 10
  {
    var kHz := f / 1000;
    DigitOfRemainder(kHz, 100, 10);
    DivDiv(f, 1000, 100);
    DigitOfRemainder(kHz, 10, 100);
    DivDiv(f, 1000, 10);
    DigitOfRemainder(kHz, 1, 1000);
  }

  /** The cursor underlines the digit that a step of CursorStepHz changes: the
      character at the cursor column is the digit of f at that place value. */
  lemma {:induction false} CursorMarksSteppedDigit(f: i32, c: u8)
    requires 0 <= f < 1000000000 && c <= 5
    ensures FormatFreq(f)[CursorColumn(c)] == DigitChar((f / CursorStepHz(c)) % 10)
  {
    FormatFreqDigits(f);
    if c <= 2 {
      MhzPlaces(f);
    } else {
      KhzPlaces(f);
    }
    assert c == 0 ==> CursorStepHz(c) == 100000000;
    assert c == 1 ==> CursorStepHz(c) == 10000000;
    assert c == 2 ==> CursorStepHz(c) == 1000000;
    assert c == 3 ==> CursorStepHz(c) == 100000;
    assert c == 4 ==> CursorStepHz(c) == 10000;
    assert c == 5 ==> CursorStepHz(c) == 1000;
  }
}
