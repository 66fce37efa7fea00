/** The masked accumulators of bench/kernels/e3_index_arith and
    bench/kernels/e2_checksum, in 64-bit arithmetic, against closed forms.
    Masking an int64 with 2^k - 1 is its Euclidean remainder modulo 2^k. */
module MaskedLoops {
  import opened Wrappers

  const MASK: int := 0x10_0000

  /** Reducing early changes nothing that a later reduction sees. */
  lemma ReduceEarly(x: int, k: int, y: int)
    requires k == 1 || k == 31
    ensures (x % MASK * k + y) % MASK == (x * k + y) % MASK
  {
    var q := x / MASK;
    assert x == MASK * q + x % MASK;
    Shift(q * k, x % MASK * k + y);
  }

  lemma Shift(q: int, y: int)
    ensures (MASK * q + y) % MASK == y % MASK
  {
  }

  // ------------------------------------------------------ e3: index walk --

  /** The sum of `8 * i` for `i < n`. */
  function Sweep(n: nat): int { 4 * n * (n - 1) }

  function WalkValue(n: nat, depth: nat): int { Sweep(n) * (depth + 1) }

  /** The largest count of which no step leaves an int64: 2^60 - 2^17 + 362. */
  const MAX_STEPS: int := 0x0FFF_FFFF_FFFE_0000 + 362

  /** Just below 2^60 the masked accumulator is 2^19 and a small square. */
  lemma SweepNearTop(j: nat)
    requires j <= 362
    ensures Sweep(0x0FFF_FFFF_FFFE_0000 + j) % MASK == 0x8_0000 + 4 * j * (j - 1)
  {
    var t, b := 0x0FFF_FFFF_FFFE_0000, 0x7FF_FFFF_FFFF;
    var k := 0x400_0000_0000 * (2 * j - 1) - j;
    assert 4 * t == 0x8_0000 * b;
    assert b * (2 * j - 1) == 2 * k + 1;
    var square, small := 4 * t * t, 4 * j * (j - 1);
    assert square == MASK * (0x1_0000 * b * b);
    assert 4 * t * (2 * j - 1) == MASK * k + 0x8_0000;
    SmallSquare(j);
    TopSquare(t, j);
    Shift(0x1_0000 * b * b + k, 0x8_0000 + small);
  }

  lemma TopSquare(t: int, j: int)
    ensures 4 * (t + j) * (t + j - 1) == 4 * t * t + 4 * t * (2 * j - 1) + 4 * j * (j - 1)
  {
  }

  lemma SmallSquare(j: nat)
    requires j <= 362
    ensures 0 <= 4 * j * (j - 1) <= 522_728 && (j <= 361 ==> 4 * j * (j - 1) <= 519_840)
  {
    assert j * (j - 1) <= 362 * 361 by { ProductOrder(j, 362); }
    if j <= 361 {
      ProductOrder(j, 361);
    }
  }

  lemma ProductOrder(j: nat, k: nat)
    requires j <= k
    ensures 0 <= j * (j - 1) + (if j == 0 then 1 else 0) && j * (j - 1) <= k * (k - 1)
  {
    assert k * (k - 1) - j * (j - 1) == (k - j) * (k + j - 1);
  }

  /** The sum that step `i` masks. */
  function StepSum(i: nat): int { Sweep(i) % MASK + i * 8 }

  /** The bound is exact: every step within it fits an int64, and the next one does not. */
  lemma StepsFit(i: nat)
    ensures i < MAX_STEPS ==> StepSum(i) <= 0x7FFF_FFFF_FFFF_FFFF
    ensures i == MAX_STEPS ==> StepSum(i) > 0x7FFF_FFFF_FFFF_FFFF
  {
    var j := i - 0x0FFF_FFFF_FFFE_0000;
    if 0 <= j <= 362 {
      SweepNearTop(j);
      SmallSquare(j);
    }
    hide Sweep;
  }

  /** Masking at every step, at every depth, is reducing the closed form once. */
  method Walk(n: i64, depth: i64) returns (acc: i64)
    requires n as int <= MAX_STEPS
    ensures acc as int == WalkValue(AtLeastZero(n as int), AtLeastZero(depth as int)) % MASK
    decreases AtLeastZero(depth as int)
  {
    acc := 0;
    var i: i64 := 0;
    while i < n
      invariant 0 <= i && (0 <= n ==> i <= n) && (n < 0 ==> i == 0)
      invariant acc as int == Sweep(i as int) % MASK
    {
      ReduceEarly(Sweep(i as int), 1, i as int * 8);
      SweepStep(i as int);
      StepsFit(i as int);
      acc := (acc + i * 8) % 0x10_0000;
      i := i + 1;
    }
    if depth > 0 {
      var deeper := Walk(n, depth - 1);
      var sweep, rest := Sweep(i as int), WalkValue(i as int, depth as int - 1);
      ReduceEarly(sweep, 1, deeper as int);
      ReduceEarly(rest, 1, sweep);
      assert sweep * (depth as int + 1) == sweep * depth as int + sweep;
      acc := (acc + deeper) % 0x10_0000;
    } else {
      assert WalkValue(i as int, 0) == Sweep(i as int);
    }
  }

  lemma SweepStep(i: int)
    ensures 4 * i * (i - 1) + i * 8 == 4 * (i + 1) * i
  {
  }

  // ------------------------------------------------- e2: rolling checksum --

  function Pow31(n: nat): nat { if n == 0 then 1 else 31 * Pow31(n - 1) }

  /** The sum over `i < k` of `31^(n-1-i) * (i mod 256)`. */
  function Terms(n: nat, k: nat): nat
    requires k <= n
  {
    if k == 0 then 0 else Terms(n, k - 1) + Pow31(n - k) * ((k - 1) % 256)
  }

  function ChecksumValue(n: nat, seed: int): int { Pow31(n) * seed + Terms(n, n) }

  lemma {:induction false} TermsScale(n: nat, k: nat)
    requires k <= n
    ensures Terms(n + 1, k) == 31 * Terms(n, k)
  {
    if k > 0 {
      TermsScale(n, k - 1);
      assert Pow31(n + 1 - k) == 31 * Pow31(n - k);
      assert 31 * Pow31(n - k) * ((k - 1) % 256) == 31 * (Pow31(n - k) * ((k - 1) % 256));
    }
  }

  lemma ChecksumStep(n: nat, seed: int)
    ensures ChecksumValue(n + 1, seed) == ChecksumValue(n, seed) * 31 + n % 256
  {
    TermsScale(n, n);
    assert Pow31(n + 1) * seed == 31 * (Pow31(n) * seed);
  }

  lemma NoRounds(seed: int)
    ensures ChecksumValue(0, seed) == seed
  {
  }

  /** One step at least reduces the polynomial of the seed; no step returns it
      unreduced. `peak` is the largest value a step masks: below 2^25 from a
      masked seed. The seed need only survive its first multiplication. */
  method Checksum(n: i64, seed: i64) returns (h: i64, ghost peak: int)
    requires n > 0 ==> -0x8000_0000_0000_0000 <= seed as int * 31 <= 0x7FFF_FFFF_FFFF_FFFF
    ensures h as int == if n <= 0 then seed as int else ChecksumValue(n as int, seed as int) % MASK
    ensures 0 <= seed as int < MASK ==> 0 <= h as int < MASK && peak < 0x200_0000
  {
    hide ChecksumValue;
    h, peak := seed, 0;
    assert ChecksumValue(0, seed as int) == seed as int by { NoRounds(seed as int); }
    var i: i64 := 0;
    while i < n
      invariant 0 <= i && (0 <= n ==> i <= n) && (n < 0 ==> i == 0)
      invariant if i == 0 then h == seed else h as int == ChecksumValue(i as int, seed as int) % MASK
      invariant 0 <= seed as int < MASK ==> peak < 0x200_0000
    {
      ChecksumStep(i as int, seed as int);
      ReduceEarly(ChecksumValue(i as int, seed as int), 31, i as int % 256);
      assert i > 0 ==> 0 <= h as int < MASK;
      if peak < h as int * 31 + i as int % 256 {
        peak := h as int * 31 + i as int % 256;
      }
      h := (h * 31 + i % 256) % 0x10_0000;
      i := i + 1;
    }
  }
}
