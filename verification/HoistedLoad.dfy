/** The a5_hoist_call kernel: a load on either side of a store through a second
    pointer (bench/kernels/a5_hoist_call/ref.c), and the same loop with the load
    hoisted, which only disjoint buffers license (expert.c). */
module HoistedLoad {
  import opened Wrappers

  /** The accumulator and `scratch[0]` after some iterations. */
  datatype Probe = Probe(acc: int, scratch: int)

  /** `n` iterations that reload `src[0]`. When the buffers are one, `src[0]`
      is `scratch[0]`: before the store the old value, after it the new one. */
  function Reloading(aliased: bool, src: int, scratch: int, n: nat): Probe {
    if n == 0 then Probe(0, scratch)
    else
      var p := Reloading(aliased, src, scratch, n - 1);
      var side := (p.scratch + n - 1) % 1_024;
      var a := if aliased then p.scratch else src;
      var b := if aliased then side else src;
      Probe((p.acc + a + b + side) % 0x10_0000, side)
  }

  /** `n` iterations with `src[0]` loaded once. */
  function Hoisted(src: int, scratch: int, n: nat): Probe {
    if n == 0 then Probe(0, scratch)
    else
      var p := Hoisted(src, scratch, n - 1);
      var side := (p.scratch + n - 1) % 1_024;
      Probe((p.acc + src + src + side) % 0x10_0000, side)
  }

  predicate Fits(x: int) { -0x8000_0000_0000_0000 <= x < 0x8000_0000_0000_0000 }

  method Bump(dst: array<i64>, x: i64) returns (r: i64)
    requires dst.Length > 0 && Fits(dst[0] as int + x as int)
    modifies dst
    ensures r as int == (old(dst[0]) as int + x as int) % 1_024
    ensures dst[..] == old(dst[..])[0 := r]
  {
    dst[0] := (dst[0] + x) % 1_024;
    r := dst[0];
  }

  /** Iteration `i` sums nothing past an int64. */
  predicate StepFits(aliased: bool, src: int, scratch: int, i: nat) {
    var p := Reloading(aliased, src, scratch, i);
    var side := (p.scratch + i) % 1_024;
    var a := if aliased then p.scratch else src;
    var b := if aliased then side else src;
    Fits(p.scratch + i) && Fits(p.acc + a) && Fits(p.acc + a + b) && Fits(p.acc + a + b + side)
  }

  /** No sum of the kernel overflows: past that a C program means nothing. */
  ghost predicate NoOverflow(aliased: bool, src: int, scratch: int, n: nat) {
    forall i: nat | i < n :: StepFits(aliased, src, scratch, i)
  }

  /** Whatever 62-bit loads and counts the kernel is given, nothing overflows. */
  lemma SmallLoadsFit(aliased: bool, src: int, scratch: int, n: nat)
    requires -0x2000_0000_0000_0000 <= src <= 0x2000_0000_0000_0000 && n <= 0x2000_0000_0000_0000
    requires -0x2000_0000_0000_0000 <= scratch <= 0x2000_0000_0000_0000
    ensures NoOverflow(aliased, src, scratch, n)
  {
    forall i: nat | i < n ensures StepFits(aliased, src, scratch, i) {
      MaskedAfterOne(aliased, src, scratch, i);
      hide Reloading;
    }
  }

  lemma MaskedAfterOne(aliased: bool, src: int, scratch: int, n: nat)
    ensures 0 <= Reloading(aliased, src, scratch, n).acc < 0x10_0000
    ensures n > 0 ==> 0 <= Reloading(aliased, src, scratch, n).scratch < 1_024
    ensures n == 0 ==> Reloading(aliased, src, scratch, n).scratch == scratch
  {
  }

  lemma ReloadingStep(aliased: bool, src: int, scratch: int, n: nat)
    ensures var p := Reloading(aliased, src, scratch, n);
            var side := (p.scratch + n) % 1_024;
            Reloading(aliased, src, scratch, n + 1)
            == Probe((p.acc + (if aliased then p.scratch else src) + (if aliased then side else src) + side)
                     % 0x10_0000, side)
  {
  }

  /** Naive C: whether or not the buffers are one. */
  method ProbeReloading(src: array<i64>, scratch: array<i64>, n: i64) returns (acc: i64)
    requires src.Length > 0 && scratch.Length > 0
    requires NoOverflow(src == scratch, src[0] as int, scratch[0] as int, AtLeastZero(n as int))
    modifies scratch
    ensures var p := Reloading(src == scratch, old(src[0]) as int, old(scratch[0]) as int, AtLeastZero(n as int));
            acc as int == p.acc && scratch[0] as int == p.scratch
    ensures scratch[1..] == old(scratch[1..])
  {
    ghost var s, d := src[0] as int, scratch[0] as int;
    acc := 0;
    var i: i64 := 0;
    while i < n
      invariant 0 <= i as int <= AtLeastZero(n as int)
      invariant Probe(acc as int, scratch[0] as int) == Reloading(src == scratch, s, d, i as int)
      invariant 0 <= acc as int < 0x10_0000 && (i > 0 ==> 0 <= scratch[0] < 1_024)
      invariant src != scratch ==> src[0] as int == s
      invariant i == 0 ==> scratch[0] as int == d
      invariant scratch[1..] == old(scratch[1..])
    {
      assert StepFits(src == scratch, s, d, i as int);
      ReloadingStep(src == scratch, s, d, i as int);
      hide Reloading;
      var a := src[0];
      var side := Bump(scratch, i);
      var b := src[0];
      acc := (acc + a + b + side) % 0x10_0000;
      i := i + 1;
    }
  }

  /** Expert C: the load moved out of the loop. `restrict` promises distinct buffers. */
  method ProbeHoisted(src: array<i64>, scratch: array<i64>, n: i64) returns (acc: i64)
    requires src.Length > 0 && scratch.Length > 0 && src != scratch
    requires NoOverflow(false, src[0] as int, scratch[0] as int, AtLeastZero(n as int))
    modifies scratch
    ensures var p := Hoisted(old(src[0]) as int, old(scratch[0]) as int, AtLeastZero(n as int));
            acc as int == p.acc && scratch[0] as int == p.scratch
    ensures scratch[1..] == old(scratch[1..])
  {
    ghost var d := scratch[0] as int;
    acc := 0;
    var hoisted := src[0];
    var i: i64 := 0;
    while i < n
      invariant 0 <= i as int <= AtLeastZero(n as int)
      invariant Probe(acc as int, scratch[0] as int) == Hoisted(hoisted as int, d, i as int)
      invariant 0 <= acc as int < 0x10_0000 && (i > 0 ==> 0 <= scratch[0] < 1_024)
      invariant scratch[1..] == old(scratch[1..])
    {
      HoistingIsSound(hoisted as int, d, i as int);
      assert StepFits(false, hoisted as int, d, i as int);
      var side := Bump(scratch, i);
      acc := (acc + hoisted + hoisted + side) % 0x10_0000;
      i := i + 1;
    }
  }

  /** On distinct buffers hoisting changes neither the accumulator nor the scratch. */
  lemma {:induction false} HoistingIsSound(src: int, scratch: int, n: nat)
    ensures Reloading(false, src, scratch, n) == Hoisted(src, scratch, n)
    ensures 0 <= Hoisted(src, scratch, n).acc < 0x10_0000
  {
    if n > 0 {
      HoistingIsSound(src, scratch, n - 1);
    }
  }

  /** The scratch value after iteration `i`: a running triangle number, masked. */
  function Side(scratch: int, i: nat): int {
    (scratch + i * (i + 1) / 2) % 1_024
  }

  function Sides(scratch: int, n: nat): int {
    if n == 0 then 0 else Sides(scratch, n - 1) + Side(scratch, n - 1)
  }

  /** What both loops compute, without running them. */
  lemma {:induction false} HoistedClosedForm(src: int, scratch: int, n: nat)
    ensures var p := Hoisted(src, scratch, n);
            p.acc == (2 * n * src + Sides(scratch, n)) % 0x10_0000
            && p.scratch == if n == 0 then scratch else Side(scratch, n - 1)
  {
    hide Side;
    if n > 0 {
      var i := n - 1;
      HoistedClosedForm(src, scratch, i);
      SideStep(scratch, i);
      AccStep(src, Sides(scratch, i), Side(scratch, i), i);
    }
  }

  lemma SideStep(scratch: int, i: nat)
    ensures Side(scratch, i) == (i + if i == 0 then scratch else Side(scratch, i - 1)) % 1_024
  {
    if i > 0 {
      TriangleStep(i);
      ReduceFirst(scratch + (i - 1) * i / 2, i, 1_024);
    }
  }

  lemma AccStep(src: int, sum: int, side: int, i: nat)
    ensures ((2 * i * src + sum) % 0x10_0000 + src + src + side) % 0x10_0000
         == (2 * (i + 1) * src + (sum + side)) % 0x10_0000
  {
    ReduceFirst(2 * i * src + sum, src + src + side, 0x10_0000);
    assert 2 * (i + 1) * src == 2 * i * src + src + src;
  }

  lemma TriangleStep(i: nat)
    requires i > 0
    ensures (i - 1) * i / 2 + i == i * (i + 1) / 2
  {
    assert i * (i + 1) == (i - 1) * i + 2 * i;
  }

  lemma ReduceFirst(x: int, y: int, m: int)
    requires m == 1_024 || m == 0x10_0000
    ensures (x % m + y) % m == (x + y) % m
  {
  }

  /** What the reloading loop computes on ONE buffer: the load sees each store,
      before it and after it. */
  lemma {:induction false} AliasedClosedForm(scratch: int, n: nat)
    ensures var p := Reloading(true, scratch, scratch, n);
            p.scratch == Hoisted(scratch, scratch, n).scratch
            && p.acc == (if n == 0 then 0 else (3 * Sides(scratch, n) - Side(scratch, n - 1) + scratch) % 0x10_0000)
  {
    hide Side;
    if n > 0 {
      var i := n - 1;
      AliasedClosedForm(scratch, i);
      HoistedClosedForm(scratch, scratch, i);
      HoistedClosedForm(scratch, scratch, n);
      SideStep(scratch, i);
      var before := Reloading(true, scratch, scratch, i);
      var side := Side(scratch, i);
      if i > 0 {
        ReduceFirst(3 * Sides(scratch, i) - before.scratch + scratch, before.scratch + side + side, 0x10_0000);
      }
    }
  }

  /** On one buffer the loops agree exactly when the stores they see add up to
      the loads that the hoisted loop repeats, modulo 2^20. */
  lemma AliasedAgreesIff(scratch: int, n: nat)
    ensures Reloading(true, scratch, scratch, n) == Hoisted(scratch, scratch, n) <==>
            n == 0 || (2 * Sides(scratch, n) - Side(scratch, n - 1) + scratch - 2 * n * scratch) % 0x10_0000 == 0
  {
    AliasedClosedForm(scratch, n);
    HoistedClosedForm(scratch, scratch, n);
    if n > 0 {
      var sides, loads := Sides(scratch, n), 2 * n * scratch;
      SameRemainder(3 * sides - Side(scratch, n - 1) + scratch, loads + sides);
    }
  }

  lemma SameRemainder(x: int, y: int)
    ensures x % 0x10_0000 == y % 0x10_0000 <==> (x - y) % 0x10_0000 == 0
  {
    ReduceFirst(x - y, y, 0x10_0000);
  }

  /** Two iterations on ONE buffer: the reload sees the stores, the hoisted load does not. */
  lemma AliasingIsSeen()
    ensures Reloading(true, 0, 0, 2).acc == 2 && Hoisted(0, 0, 2).acc == 1
  {
    assert Reloading(true, 0, 0, 1) == Probe(0, 0) && Hoisted(0, 0, 1) == Probe(0, 0);
  }
}
