/** The M2 gate of xtask/src/t1.rs: `score`, `layout_noise_floor`, `geomean` and
    `evaluate_gate`, over exact reals. A geometric mean stands as its product
    and its count. */
module Gate {
  import opened Reals
  import opened Sorting
  import opened Wrappers

  // -------------------------------------------------------------- scores --

  datatype Verdict = Win(pct: real) | Tie | Loss(behind: Percent)

  function Label(v: Verdict): string {
    match v case Win(_) => "WIN" case Tie => "TIE" case Loss(_) => "LOSS"
  }

  /** The half-width of the tie band. */
  function Band(floor: Option<real>): real {
    Max(if floor.Some? then floor.value else 0.02, 0.02)
  }

  function Score(wolf: real, other: real, floor: Option<real>): Verdict
    requires wolf > 0.0
  {
    var speedup := other / wolf;
    if Abs(speedup - 1.0) <= Band(floor) then Tie
    else if speedup > 1.0 then Win((speedup - 1.0) * 100.0)
    else Loss(if other == 0.0 then Infinite(true) else Finite((wolf / other - 1.0) * 100.0))
  }

  lemma Quotients(wolf: real, other: real)
    requires wolf > 0.0 && other > 0.0
    ensures other / wolf > 0.0 && 1.0 / (other / wolf) == wolf / other
  {
    var s := other / wolf;
    assert s * wolf == other;
    var t := wolf / other;
    assert t * other == wolf;
    assert s * t == 1.0 by { Reciprocal(s, t, wolf, other); }
  }

  lemma Reciprocal(s: real, t: real, wolf: real, other: real)
    requires wolf > 0.0 && s * wolf == other && t * other == wolf
    ensures s * t == 1.0
  {
    assert t * (s * wolf) == wolf;
    assert (s * t) * wolf == wolf;
    assert (s * t - 1.0) * wolf == 0.0;
  }

  /** Scoring the ratio is scoring the pair: the stored speedup is enough. */
  lemma ScoreOfRatio(wolf: real, other: real, floor: Option<real>)
    requires wolf > 0.0 && other > 0.0
    ensures other / wolf > 0.0 && Score(1.0, other / wolf, floor) == Score(wolf, other, floor)
  {
    Quotients(wolf, other);
  }

  /** A loss seen from the other lane is a win by as much; a win is a loss by as much, or within the band. */
  lemma LossIsTheOthersWin(wolf: real, other: real, floor: Option<real>, pct: real)
    requires wolf > 0.0 && other > 0.0
    ensures Score(wolf, other, floor) == Loss(Finite(pct)) ==> Score(other, wolf, floor) == Win(pct)
    ensures Score(wolf, other, floor) == Win(pct) ==>
              Score(other, wolf, floor) == if 1.0 - wolf / other <= Band(floor) then Tie else Loss(Finite(pct))
  {
    Quotients(wolf, other);
    FurtherAbove(other / wolf, wolf / other);
    FurtherAbove(wolf / other, other / wolf);
  }

  /** A ratio above one is further from it than its inverse below. */
  lemma FurtherAbove(s: real, t: real)
    requires s > 0.0 && t > 0.0 && 1.0 / s == t
    ensures s <= 1.0 ==> t - 1.0 >= 1.0 - s
    ensures s >= 1.0 ==> t <= 1.0
  {
    assert s * t == 1.0;
    assert Times(t, s) == 1.0 && Times(1.0, s) == s;
    NearOne(s);
    hide Times;
    TimesOrder(1.0, t, s);
    TimesOrder(t, 2.0 - s, s);
  }

  lemma NearOne(s: real)
    ensures Times(2.0 - s, s) <= 1.0
  {
    var d := 1.0 - s;
    assert d * d >= 0.0;
    assert (2.0 - s) * s == 1.0 - d * d;
  }

  /** Behind by more than 10%. */
  predicate BigLoss(v: Verdict) {
    v.Loss? && (if v.behind.Infinite? then v.behind.rising else v.behind.pct > 10.0)
  }

  /** A tie is a ratio within 2% of one, or within the kernel's own noise. */
  lemma TieMeans(wolf: real, other: real, floor: Option<real>)
    requires wolf > 0.0 && other > 0.0
    ensures Score(wolf, other, floor).Tie? <==>
              Abs(other - wolf) <= 0.02 * wolf || (floor.Some? && Abs(other - wolf) <= floor.value * wolf)
  {
    WithinOf(wolf, other, 0.02);
    if floor.Some? {
      WithinOf(wolf, other, floor.value);
    }
  }

  lemma Excess(wolf: real, other: real, d: real)
    requires wolf > 0.0 && d == other / wolf - 1.0
    ensures Times(d, wolf) == other - wolf && Times(-d, wolf) == wolf - other && Times(0.0, wolf) == 0.0
  {
    var s := other / wolf;
    assert s * wolf == other;
  }

  lemma WithinOf(wolf: real, other: real, band: real)
    requires wolf > 0.0
    ensures Abs(other / wolf - 1.0) <= band <==> Abs(other - wolf) <= band * wolf
  {
    var d := other / wolf - 1.0;
    Excess(wolf, other, d);
    assert band * wolf == Times(band, wolf);
    hide Times;
    TimesOrder(band, d, wolf);
    TimesOrder(band, -d, wolf);
    TimesOrder(d, 0.0, wolf);
  }

  /** Slower by more than 10%, and by more than the kernel's own noise. */
  predicate FarBehind(speedup: real, floor: Option<real>) {
    speedup < 10.0 / 11.0 && (floor.Some? ==> 1.0 - speedup > floor.value)
  }

  /** Losing by more than 10% is a speedup from 0 to 10/11 outside the kernel's
      own noise: the 2% floor of every band never excuses it. */
  lemma LossBeyondTen(speedup: real, floor: Option<real>)
    ensures BigLoss(Score(1.0, speedup, floor)) <==> speedup >= 0.0 && FarBehind(speedup, floor)
  {
    if speedup > 0.0 {
      PositiveLoss(speedup, floor);
    } else if speedup < 0.0 {
      NegativeInverse(speedup);
    }
  }

  lemma NegativeInverse(x: real)
    requires x < 0.0
    ensures 1.0 / x < 0.0
  {
  }

  lemma PositiveLoss(speedup: real, floor: Option<real>)
    requires speedup > 0.0
    ensures BigLoss(Score(1.0, speedup, floor)) <==> FarBehind(speedup, floor)
  {
    var t := 1.0 / speedup;
    assert t * speedup == 1.0;
    TimesOrder(1.1, t, speedup);
    assert t > 1.1 <==> speedup < 10.0 / 11.0;
  }

  // ----------------------------------------------------- the noise floor --

  function Least(xs: seq<real>): (m: real)
    requires xs != []
    ensures m in xs && forall x | x in xs :: m <= x
  {
    if |xs| == 1 then xs[0] else
      var r := Least(xs[1..]);
      assert xs == [xs[0]] + xs[1..];
      Min(xs[0], r)
  }

  function Greatest(xs: seq<real>): (m: real)
    requires xs != []
    ensures m in xs && forall x | x in xs :: x <= m
  {
    if |xs| == 1 then xs[0] else
      var r := Greatest(xs[1..]);
      assert xs == [xs[0]] + xs[1..];
      Max(xs[0], r)
  }

  /** The relative spread of the medians; none from fewer than two, or from one not positive. */
  function NoiseFloor(medians: seq<real>): (floor: Option<real>)
    ensures floor.Some? ==> floor.value >= 0.0
  {
    if |medians| < 2 || Least(medians) <= 0.0 then None
    else
      Ratio(Greatest(medians) - Least(medians), Least(medians));
      Some((Greatest(medians) - Least(medians)) / Least(medians))
  }

  method LayoutNoiseFloor(medians: seq<real>) returns (floor: Option<real>)
    ensures floor == NoiseFloor(medians)
  {
    if |medians| < 2 {
      return None;
    }
    var lo, hi := medians[0], medians[0];
    for i := 0 to |medians|
      invariant forall j :: 0 <= j < i ==> 0.0 < medians[j] && lo <= medians[j] <= hi
      invariant lo in medians && hi in medians
    {
      if medians[i] <= 0.0 {
        assert medians[i] in medians;
        return None;
      }
      lo, hi := Min(lo, medians[i]), Max(hi, medians[i]);
    }
    assert lo == Least(medians) && hi == Greatest(medians);
    floor := Some((hi - lo) / lo);
  }

  function Within(floor: real, x: real): real { x * (1.0 + floor) }

  lemma FloorReach(medians: seq<real>)
    requires NoiseFloor(medians).Some?
    ensures Least(medians) > 0.0 && Greatest(medians) == Within(NoiseFloor(medians).value, Least(medians))
  {
    OnePlus(Least(medians), Greatest(medians), NoiseFloor(medians).value, 1.0 + NoiseFloor(medians).value);
  }

  /** Every layout's median lies within the floor of every other's, and no narrower floor would do. */
  lemma FloorIsSpread(medians: seq<real>)
    requires NoiseFloor(medians).Some?
    ensures forall x, y | x in medians && y in medians :: x > 0.0 && y <= Within(NoiseFloor(medians).value, x)
    ensures exists x, y :: x in medians && y in medians && y == Within(NoiseFloor(medians).value, x)
  {
    FloorReach(medians);
    hide Within, NoiseFloor;
    var lo, hi, f := Least(medians), Greatest(medians), NoiseFloor(medians).value;
    forall x, y | x in medians && y in medians ensures x > 0.0 && y <= Within(f, x) {
      Spread(lo, hi, f, x, y);
    }
  }

  lemma OnePlus(lo: real, hi: real, f: real, g: real)
    requires lo > 0.0 && f == (hi - lo) / lo && g == 1.0 + f
    ensures hi == lo * g
  {
    assert lo * f == hi - lo;
  }

  lemma Spread(lo: real, hi: real, f: real, x: real, y: real)
    requires 0.0 < lo <= x && y <= hi && hi == Within(f, lo) && f >= 0.0
    ensures x > 0.0 && y <= Within(f, x)
  {
    TimesOrder(x, lo, 1.0 + f);
  }

  lemma Ratio(x: real, y: real)
    requires x >= 0.0 && y > 0.0
    ensures x / y >= 0.0
  {
  }

  // ------------------------------------------------------------ the gate --

  datatype Scored = Scored(kernel: string, family: string, speedup: real, floor: Option<real>, verdict: Verdict)

  /** A geometric mean: the `count`-th root of `product`. */
  datatype Mean = Mean(product: real, count: nat)

  function Product(xs: seq<real>): real {
    if xs == [] then 1.0 else Product(xs[..|xs| - 1]) * xs[|xs| - 1]
  }

  function Geomean(xs: seq<real>): Option<Mean> {
    if xs == [] || exists x | x in xs :: x <= 0.0 then None else Some(Mean(Product(xs), |xs|))
  }

  function Power(g: real, n: nat): real {
    if n == 0 then 1.0 else Times(Power(g, n - 1), g)
  }

  lemma {:induction false} PowerSide(g: real, n: nat)
    requires g > 0.0
    ensures Power(g, n) > 0.0 && (g >= 1.0 ==> Power(g, n) >= 1.0) && (g < 1.0 && n > 0 ==> Power(g, n) < 1.0)
  {
    if n > 0 {
      PowerSide(g, n - 1);
      assert Times(1.0, g) == g && Times(0.0, g) == 0.0;
      hide Times;
      TimesOrder(Power(g, n - 1), 1.0, g);
      TimesOrder(1.0, Power(g, n - 1), g);
      TimesOrder(0.0, Power(g, n - 1), g);
    }
  }

  /** Whatever the root is, it is at least one exactly when the product is. */
  lemma MeanAboveOne(mean: Mean, g: real)
    requires mean.count > 0 && g > 0.0 && Power(g, mean.count) == mean.product
    ensures g >= 1.0 <==> mean.product >= 1.0
  {
    PowerSide(g, mean.count);
  }

  function Speedups(scored: seq<Scored>): (xs: seq<real>)
    ensures |xs| == |scored| && forall i :: 0 <= i < |xs| ==> xs[i] == scored[i].speedup
  {
    seq(|scored|, i requires 0 <= i < |scored| => scored[i].speedup)
  }

  function OfFamily(scored: seq<Scored>, family: string): seq<real> {
    if scored == [] then []
    else
      var s := scored[|scored| - 1];
      OfFamily(scored[..|scored| - 1], family) + if s.family == family then [s.speedup] else []
  }

  /** The kernels losing by more than 10%, excepted or not. */
  function Losses(scored: seq<Scored>, exceptions: seq<string>, excepted: bool): seq<string> {
    if scored == [] then []
    else
      var s := scored[|scored| - 1];
      Losses(scored[..|scored| - 1], exceptions, excepted)
      + if BigLoss(s.verdict) && (s.kernel in exceptions) == excepted then [s.kernel] else []
  }

  datatype Outcome = Outcome(geomean: Option<Mean>, byFamily: seq<(string, Mean)>, undocumented: seq<string>,
                             excepted: seq<string>, declared: nat, holds: bool)

  function FamilyNames(scored: seq<Scored>): (names: seq<string>)
    ensures |names| == |scored| && forall i :: 0 <= i < |names| ==> names[i] == scored[i].family
  {
    seq(|scored|, i requires 0 <= i < |scored| => scored[i].family)
  }

  /** Of these families, those whose speedups have a mean. */
  function MeansOf(families: seq<string>, scored: seq<Scored>): seq<(string, Mean)> {
    if families == [] then []
    else
      var n := |families| - 1;
      var mean := Geomean(OfFamily(scored, families[n]));
      MeansOf(families[..n], scored) + if mean.Some? then [(families[n], mean.value)] else []
  }

  /** The means by family, in the families' order. */
  function FamilyMeans(scored: seq<Scored>): seq<(string, Mean)> {
    MeansOf(SortedSet(FamilyNames(scored)), scored)
  }

  function GateOutcome(scored: seq<Scored>, exceptions: seq<string>): Outcome {
    var mean := Geomean(Speedups(scored));
    var undocumented := Losses(scored, exceptions, false);
    Outcome(mean, FamilyMeans(scored), undocumented, Losses(scored, exceptions, true), |exceptions|,
            mean.Some? && mean.value.product >= 1.0 && undocumented == [] && |exceptions| <= 3)
  }

  method MeasureGeomean(xs: seq<real>) returns (mean: Option<Mean>)
    ensures mean == Geomean(xs)
  {
    if xs == [] {
      return None;
    }
    var acc := 1.0;
    for i := 0 to |xs|
      invariant forall j :: 0 <= j < i ==> xs[j] > 0.0
      invariant acc == Product(xs[..i])
    {
      if xs[i] <= 0.0 {
        assert xs[i] in xs;
        return None;
      }
      assert xs[..i + 1][..i] == xs[..i];
      acc := acc * xs[i];
    }
    assert xs[..|xs|] == xs;
    mean := Some(Mean(acc, |xs|));
  }

  /** The speedups pushed so far, family by family. */
  ghost predicate Grouped(fams: map<string, seq<real>>, scored: seq<Scored>) {
    && (forall f :: f in fams <==> exists s | s in scored :: s.family == f)
    && (forall f | f in fams :: fams[f] == OfFamily(scored, f))
  }

  function Pushed(fams: map<string, seq<real>>, s: Scored): map<string, seq<real>> {
    fams[s.family := (if s.family in fams then fams[s.family] else []) + [s.speedup]]
  }

  method GroupFamilies(scored: seq<Scored>) returns (fams: map<string, seq<real>>)
    ensures Grouped(fams, scored)
  {
    fams := map[];
    for i := 0 to |scored|
      invariant Grouped(fams, scored[..i])
    {
      hide Grouped;
      FamilyStep(fams, scored[..i], scored[i]);
      assert scored[..i + 1] == scored[..i] + [scored[i]];
      var s := scored[i];
      fams := fams[s.family := (if s.family in fams then fams[s.family] else []) + [s.speedup]];
    }
    assert scored[..|scored|] == scored;
  }

  method MeasureFamilies(scored: seq<Scored>) returns (byFamily: seq<(string, Mean)>)
    ensures byFamily == FamilyMeans(scored)
  {
    hide Grouped, Geomean, StrictlySorted, SortedSet, OfFamily, FamilyNames;
    var fams := GroupFamilies(scored);
    var families := InOrder(fams.Keys);
    FamiliesInOrder(fams, scored, families);
    byFamily := [];
    for i := 0 to |families|
      invariant byFamily == MeansOf(families[..i], scored)
    {
      assert families[..i + 1][..i] == families[..i];
      var mean := MeasureGeomean(fams[families[i]]);
      if mean.Some? {
        byFamily := byFamily + [(families[i], mean.value)];
      }
    }
    assert families[..|families|] == families;
  }

  lemma FamiliesInOrder(fams: map<string, seq<real>>, scored: seq<Scored>, families: seq<string>)
    requires Grouped(fams, scored) && StrictlySorted(families) && forall f :: f in families <==> f in fams
    ensures families == SortedSet(FamilyNames(scored))
    ensures forall f | f in families :: f in fams && fams[f] == OfFamily(scored, f)
  {
    var names := FamilyNames(scored);
    SortedSetLists(names);
    hide StrictlySorted, SortedSet;
    forall f ensures f in families <==> f in SortedSet(names) {
      if f in names {
        var i :| 0 <= i < |names| && names[i] == f;
        assert scored[i] in scored;
      }
      if f in fams {
        var s :| s in scored && s.family == f;
        var i :| 0 <= i < |scored| && scored[i] == s;
        assert names[i] == f;
      }
    }
    StrictListIsUnique(families, SortedSet(names));
  }

  lemma FamilyStep(fams: map<string, seq<real>>, scored: seq<Scored>, s: Scored)
    requires Grouped(fams, scored)
    ensures Grouped(Pushed(fams, s), scored + [s])
  {
    var all := scored + [s];
    assert all[..|scored|] == scored;
    assert s in all && forall t :: t in all <==> t in scored || t == s;
    if s.family !in fams {
      NoneOfFamily(scored, s.family);
    }
    forall f | f in Pushed(fams, s) ensures Pushed(fams, s)[f] == OfFamily(all, f) {
      assert f != s.family ==> f in fams && OfFamily(scored, f) + [] == OfFamily(scored, f);
    }
    forall f ensures f in Pushed(fams, s) <==> exists t | t in all :: t.family == f {
      assert f in fams <==> exists t | t in scored :: t.family == f;
    }
  }

  method EvaluateGate(scored: seq<Scored>, exceptions: seq<string>) returns (outcome: Outcome)
    ensures outcome == GateOutcome(scored, exceptions)
  {
    hide Geomean, BigLoss, FamilyMeans;
    var byFamily := MeasureFamilies(scored);
    var undocumented, excepted: seq<string> := [], [];
    for i := 0 to |scored|
      invariant undocumented == Losses(scored[..i], exceptions, false)
      invariant excepted == Losses(scored[..i], exceptions, true)
    {
      var s := scored[i];
      assert scored[..i + 1][..i] == scored[..i];
      if BigLoss(s.verdict) {
        if s.kernel in exceptions {
          excepted := excepted + [s.kernel];
        } else {
          undocumented := undocumented + [s.kernel];
        }
      }
    }
    assert scored[..|scored|] == scored;
    var mean := MeasureGeomean(Speedups(scored));
    outcome := Outcome(mean, byFamily, undocumented, excepted, |exceptions|,
                       mean.Some? && mean.value.product >= 1.0 && undocumented == [] && |exceptions| <= 3);
  }

  lemma {:induction false} NoneOfFamily(scored: seq<Scored>, family: string)
    requires forall s | s in scored :: s.family != family
    ensures OfFamily(scored, family) == []
  {
    if scored != [] {
      assert scored[|scored| - 1] in scored;
      NoneOfFamily(scored[..|scored| - 1], family);
    }
  }

  lemma {:induction false} NoLosses(scored: seq<Scored>, exceptions: seq<string>)
    ensures Losses(scored, exceptions, false) == [] <==>
            forall s | s in scored :: BigLoss(s.verdict) ==> s.kernel in exceptions
  {
    if scored != [] {
      var n := |scored| - 1;
      NoLosses(scored[..n], exceptions);
      assert scored == scored[..n] + [scored[n]];
    }
  }

  /** The places of the big losses, excepted or not, in the suite's order. */
  ghost predicate LossPlaces(scored: seq<Scored>, exceptions: seq<string>, excepted: bool, at: seq<nat>) {
    && (forall k, l :: 0 <= k < l < |at| ==> at[k] < at[l])
    && (forall i: nat :: i in at <==>
          i < |scored| && BigLoss(scored[i].verdict) && (scored[i].kernel in exceptions <==> excepted))
  }

  /** The names are the kernels' at those places. */
  predicate NamedAt(scored: seq<Scored>, at: seq<nat>, names: seq<string>) {
    |names| == |at| && forall k :: 0 <= k < |at| ==> at[k] < |scored| && names[k] == scored[at[k]].kernel
  }

  lemma NamedOneMore(scored: seq<Scored>, last: Scored, at: seq<nat>, names: seq<string>)
    requires NamedAt(scored, at, names)
    ensures NamedAt(scored + [last], at + [|scored|], names + [last.kernel])
    ensures NamedAt(scored + [last], at + [], names + [])
  {
  }

  /** The report names exactly the big losses, each at its place in the order. */
  lemma {:induction false} LossesInPlace(scored: seq<Scored>, exceptions: seq<string>, excepted: bool)
      returns (at: seq<nat>)
    ensures LossPlaces(scored, exceptions, excepted, at) && NamedAt(scored, at, Losses(scored, exceptions, excepted))
  {
    hide BigLoss;
    if scored == [] {
      at := [];
    } else {
      hide LossPlaces, Losses, NamedAt;
      var n := |scored| - 1;
      var before := LossesInPlace(scored[..n], exceptions, excepted);
      NamedOneMore(scored[..n], scored[n], before, Losses(scored[..n], exceptions, excepted));
      at := before + if BigLoss(scored[n].verdict) && (scored[n].kernel in exceptions) == excepted then [n] else [];
      assert scored == scored[..n] + [scored[n]];
      OneLossMore(scored[..n], scored[n], exceptions, excepted, before);
    }
  }

  lemma OneLossMore(scored: seq<Scored>, last: Scored, exceptions: seq<string>, excepted: bool, at: seq<nat>)
    requires LossPlaces(scored, exceptions, excepted, at)
    ensures LossPlaces(scored + [last], exceptions, excepted,
                       at + if BigLoss(last.verdict) && (last.kernel in exceptions) == excepted then [|scored|] else [])
    ensures Losses(scored + [last], exceptions, excepted)
         == Losses(scored, exceptions, excepted)
            + if BigLoss(last.verdict) && (last.kernel in exceptions) == excepted then [last.kernel] else []
  {
    assert (scored + [last])[..|scored|] == scored;
    hide BigLoss;
    assert forall k :: 0 <= k < |at| ==> at[k] in at;
    var big := BigLoss(last.verdict) && (last.kernel in exceptions) == excepted;
    var next := at + if big then [|scored|] else [];
    forall i: nat
      ensures i in next <==> i < |scored| + 1 && BigLoss((scored + [last])[i].verdict)
                             && ((scored + [last])[i].kernel in exceptions <==> excepted) {
      assert i in next <==> i in at || (big && i == |scored|);
    }
  }

  /** The families reported are exactly those whose speedups have a mean, with it, once each and in order. */
  lemma FamilyMeansAre(scored: seq<Scored>)
    ensures forall f, m :: (f, m) in FamilyMeans(scored) <==>
              HasFamily(scored, f) && Geomean(OfFamily(scored, f)) == Some(m)
    ensures InFamilyOrder(FamilyMeans(scored))
  {
    var families := SortedSet(FamilyNames(scored));
    SortedSetLists(FamilyNames(scored));
    MeansAre(families, scored);
    hide SortedSet, StrLeq, Geomean, OfFamily, MeansOf, StrictlySorted, InFamilyOrder;
    forall f ensures f in families <==> HasFamily(scored, f) {
      FamilyIsNamed(scored, f);
    }
  }

  predicate HasFamily(scored: seq<Scored>, family: string) {
    exists s | s in scored :: s.family == family
  }

  lemma FamilyIsNamed(scored: seq<Scored>, family: string)
    ensures family in FamilyNames(scored) <==> HasFamily(scored, family)
  {
    if family in FamilyNames(scored) {
      var i :| 0 <= i < |scored| && FamilyNames(scored)[i] == family;
      assert scored[i] in scored;
    }
    if s :| s in scored && s.family == family {
      var i :| 0 <= i < |scored| && scored[i] == s;
      assert FamilyNames(scored)[i] == family;
    }
  }

  lemma {:induction false} MeansAre(families: seq<string>, scored: seq<Scored>)
    requires StrictlySorted(families)
    ensures forall f, m :: (f, m) in MeansOf(families, scored) <==>
              f in families && Geomean(OfFamily(scored, f)) == Some(m)
    ensures InFamilyOrder(MeansOf(families, scored))
  {
    hide Geomean, OfFamily, StrLeq;
    if families != [] {
      var n := |families| - 1;
      StrictPrefix(families, n);
      assert families == families[..n] + [families[n]];
      LastIsGreatest(families[..n], families[n]);
      hide StrictlySorted;
      MeansAre(families[..n], scored);
      var before, mean := MeansOf(families[..n], scored), Geomean(OfFamily(scored, families[n]));
      var last := if mean.Some? then [(families[n], mean.value)] else [];
      hide MeansOf, InFamilyOrder;
      assert MeansOf(families, scored) == before + last;
      forall i | 0 <= i < |before| ensures before[i].0 in families[..n] {
        assert (before[i].0, before[i].1) in before;
      }
      OrderGrows(before, last, families[n]);
      forall f, m ensures (f, m) in before + last <==> (f, m) in before || (f, m) in last { }
    }
  }

  ghost predicate InFamilyOrder(means: seq<(string, Mean)>) {
    forall i, j :: 0 <= i < j < |means| ==> StrLeq(means[i].0, means[j].0) && means[i].0 != means[j].0
  }

  lemma OrderGrows(before: seq<(string, Mean)>, last: seq<(string, Mean)>, family: string)
    requires InFamilyOrder(before) && |last| <= 1 && (last != [] ==> last[0].0 == family)
    requires forall i :: 0 <= i < |before| ==> StrLeq(before[i].0, family) && before[i].0 != family
    ensures InFamilyOrder(before + last)
  {
    hide StrLeq;
  }

  /** The contract in the raw ratios. */
  predicate MeetsContract(scored: seq<Scored>, exceptions: seq<string>) {
    && scored != [] && (forall s | s in scored :: s.speedup > 0.0) && Product(Speedups(scored)) >= 1.0
    && |exceptions| <= 3
    && (forall s | s in scored :: FarBehind(s.speedup, s.floor) ==> s.kernel in exceptions)
  }

  /** The gate, in the raw ratios: it holds iff the suite is measured and on
      the whole not slower, and every kernel slower than 10/11 beyond its own
      noise is one of at most three documented exceptions. */
  lemma GateHolds(scored: seq<Scored>, exceptions: seq<string>)
    requires forall s | s in scored :: s.verdict == Score(1.0, s.speedup, s.floor)
    ensures GateOutcome(scored, exceptions).holds <==> MeetsContract(scored, exceptions)
  {
    hide Score, FarBehind, BigLoss, Product;
    NoLosses(scored, exceptions);
    forall s | s in scored
      ensures BigLoss(s.verdict) <==> s.speedup >= 0.0 && FarBehind(s.speedup, s.floor) {
      LossBeyondTen(s.speedup, s.floor);
    }
    var xs := Speedups(scored);
    forall s | s in scored ensures s.speedup in xs {
      var i :| 0 <= i < |scored| && scored[i] == s;
      assert xs[i] == s.speedup;
    }
    forall x | x in xs ensures exists s | s in scored :: s.speedup == x {
      var i :| 0 <= i < |scored| && xs[i] == x;
      assert scored[i] in scored;
    }
  }

  function FamilyProduct(scored: seq<Scored>, families: seq<string>): real {
    if families == [] then 1.0
    else
      var n := |families| - 1;
      Times(FamilyProduct(scored, families[..n]), Product(OfFamily(scored, families[n])))
  }

  /** What one more kernel multiplies a product by that takes it in or not. */
  function Factor(s: Scored, takenIn: bool): real {
    if takenIn then s.speedup else 1.0
  }

  lemma {:induction false} FamilyProductStep(scored: seq<Scored>, s: Scored, families: seq<string>)
    requires Distinct(families)
    ensures FamilyProduct(scored + [s], families)
         == Times(FamilyProduct(scored, families), Factor(s, s.family in families))
  {
    hide Product, OfFamily, Times;
    if families == [] {
      TimesOne(1.0);
    } else {
      var n := |families| - 1;
      var a, b := FamilyProduct(scored, families[..n]), Product(OfFamily(scored, families[n]));
      assert families == families[..n] + [families[n]];
      FamilyProductStep(scored, s, families[..n]);
      OneFamilyStep(scored, s, families[n]);
      hide FamilyProduct;
      TimesOne(a);
      TimesOne(b);
      TimesOne(Times(a, b));
      TimesReassociate(a, b, s.speedup);
    }
  }

  lemma OneFamilyStep(scored: seq<Scored>, s: Scored, family: string)
    ensures Product(OfFamily(scored + [s], family))
         == Times(Product(OfFamily(scored, family)), Factor(s, s.family == family))
  {
    assert (scored + [s])[..|scored|] == scored;
    var xs := OfFamily(scored, family);
    assert (xs + [s.speedup])[..|xs|] == xs;
    assert xs + [] == xs;
  }

  /** The family means account for the suite's mean: their products multiply to its product. */
  lemma {:induction false} FamiliesMakeTheSuite(scored: seq<Scored>, families: seq<string>)
    requires Distinct(families) && forall s | s in scored :: s.family in families
    ensures FamilyProduct(scored, families) == Product(Speedups(scored))
  {
    if scored == [] {
      NoProduct(families);
    } else {
      hide FamilyProduct, Product, Distinct, Speedups, Times;
      var n := |scored| - 1;
      assert scored == scored[..n] + [scored[n]];
      assert scored[n] in scored && forall s | s in scored[..n] :: s in scored;
      FamiliesMakeTheSuite(scored[..n], families);
      KnownFamilyStep(scored[..n], scored[n], families);
      SuiteStep(scored[..n], scored[n]);
    }
  }

  lemma KnownFamilyStep(scored: seq<Scored>, s: Scored, families: seq<string>)
    requires Distinct(families) && s.family in families
    ensures FamilyProduct(scored + [s], families) == Times(FamilyProduct(scored, families), s.speedup)
  {
    hide FamilyProduct, Distinct, Times;
    FamilyProductStep(scored, s, families);
  }

  lemma SuiteStep(scored: seq<Scored>, s: Scored)
    ensures Product(Speedups(scored + [s])) == Times(Product(Speedups(scored)), s.speedup)
  {
    var xs := Speedups(scored + [s]);
    assert xs[..|xs| - 1] == Speedups(scored);
  }

  lemma {:induction false} NoProduct(families: seq<string>)
    ensures FamilyProduct([], families) == 1.0
  {
    if families != [] {
      NoProduct(families[..|families| - 1]);
    }
  }
}
