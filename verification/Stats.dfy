/** Medians, their spread, and the significance gate: xtask/src/stats.rs, over
    exact reals. `sort_by` is the ordered arrangement that `Sorting` defines. */
module Stats {
  import opened Reals
  import opened Wrappers
  import opened Sorting

  predicate RealLeq(x: real, y: real) { x <= y }

  /** The middle of an ordered sample. */
  function Middle(v: seq<real>): real
    requires v != []
  {
    var mid := |v| / 2;
    if |v| % 2 == 0 then (v[mid - 1] + v[mid]) / 2.0 else v[mid]
  }

  function Median(xs: seq<real>): (m: Option<real>)
    ensures m.None? <==> xs == []
  {
    if xs == [] then None else Some(Middle(Sort(RealLeq, xs)))
  }

  function Deviations(xs: seq<real>, m: real): (d: seq<real>)
    ensures |d| == |xs|
  {
    if xs == [] then [] else [Abs(xs[0] - m)] + Deviations(xs[1..], m)
  }

  function Mad(xs: seq<real>): (m: Option<real>)
    ensures m.None? <==> xs == []
  {
    match Median(xs)
    case None => None
    case Some(m) => Median(Deviations(xs, m))
  }

  datatype Verdict = Unchanged | Significant(delta: Percent)

  /** The verdict from the four statistics that decide it. */
  function Judge(mb: real, mc: real, db: real, dc: real): Verdict {
    var delta := mc - mb;
    if Abs(delta) > Max(3.0 * Max(db, dc), 0.02 * Abs(mb))
    then Significant(if mb == 0.0 then Infinite(delta > 0.0) else Finite(100.0 * delta / mb))
    else Unchanged
  }

  function Compare(baseline: seq<real>, candidate: seq<real>): Option<Verdict> {
    match (Median(baseline), Median(candidate), Mad(baseline), Mad(candidate))
    case (Some(mb), Some(mc), Some(db), Some(dc)) => Some(Judge(mb, mc, db, dc))
    case _ => None
  }

  /** A change is significant when the medians move by more than three times
      either sample's spread and by more than 2%; its size is in per cent of the baseline. */
  lemma SignificantMeans(baseline: seq<real>, candidate: seq<real>)
    requires baseline != [] && candidate != []
    ensures var mb, mc := Median(baseline).value, Median(candidate).value;
            (Compare(baseline, candidate) != Some(Unchanged) <==>
               Abs(mc - mb) > 3.0 * Mad(baseline).value && Abs(mc - mb) > 3.0 * Mad(candidate).value
               && Abs(mc - mb) > 0.02 * Abs(mb))
            && forall pct :: Compare(baseline, candidate) == Some(Significant(Finite(pct))) ==>
                               mb != 0.0 && pct * mb == 100.0 * (mc - mb)
    ensures var mb, mc := Median(baseline).value, Median(candidate).value;
            forall up :: Compare(baseline, candidate) == Some(Significant(Infinite(up))) ==>
                           mb == 0.0 && (up <==> mc > 0.0)
  {
    hide Median, Mad;
    var mb, mc := Median(baseline).value, Median(candidate).value;
    assert mb != 0.0 ==> 100.0 * (mc - mb) / mb * mb == 100.0 * (mc - mb);
  }

  lemma RealLeqIsTotal()
    ensures TotalOrder(RealLeq)
  {
  }

  /** In any ordered arrangement of the sample the median is the middle one, or
      half way between the middle two. */
  lemma MedianIsMiddle(xs: seq<real>, v: seq<real>)
    requires xs != [] && multiset(v) == multiset(xs) && forall i, j :: 0 <= i < j < |v| ==> v[i] <= v[j]
    ensures |v| == |xs|
    ensures |v| % 2 == 1 ==> Median(xs) == Some(v[|v| / 2])
    ensures |v| % 2 == 0 ==> 2.0 * Median(xs).value == v[|v| / 2 - 1] + v[|v| / 2]
  {
    RealLeqIsTotal();
    SortIsSorted(RealLeq, xs);
    SortedIsUnique(RealLeq, v, Sort(RealLeq, xs));
  }

  lemma {:induction false} DeviationsAre(xs: seq<real>, m: real)
    ensures forall i :: 0 <= i < |xs| ==> Deviations(xs, m)[i] == Abs(xs[i] - m)
  {
    if xs != [] {
      DeviationsAre(xs[1..], m);
    }
  }

  /** The spread is the median of the distances from the median. */
  lemma MadIsMedian(xs: seq<real>, distances: seq<real>)
    requires xs != [] && |distances| == |xs|
    requires forall i :: 0 <= i < |xs| ==> distances[i] == Abs(xs[i] - Median(xs).value)
    ensures Mad(xs) == Median(distances)
  {
    hide Median;
    DeviationsAre(xs, Median(xs).value);
    assert distances == Deviations(xs, Median(xs).value);
  }

  // ------------------------------------------------ the median is central --

  /** The sum of the distances of a sample from a centre. */
  function Spread(xs: seq<real>, c: real): real {
    if xs == [] then 0.0 else Abs(xs[0] - c) + Spread(xs[1..], c)
  }

  lemma {:induction false} SpreadOfInsert(x: real, s: seq<real>, c: real)
    ensures Spread(Insert(RealLeq, x, s), c) == Abs(x - c) + Spread(s, c)
  {
    if s != [] && !RealLeq(x, s[0]) {
      SpreadOfInsert(x, s[1..], c);
    }
  }

  lemma {:induction false} SpreadOfSort(xs: seq<real>, c: real)
    ensures Spread(Sort(RealLeq, xs), c) == Spread(xs, c)
  {
    if xs != [] {
      SpreadOfSort(xs[1..], c);
      SpreadOfInsert(xs[0], Sort(RealLeq, xs[1..]), c);
    }
  }

  lemma {:induction false} SpreadOfEnds(v: seq<real>, c: real)
    requires |v| >= 2
    ensures Spread(v, c) == Abs(v[0] - c) + Spread(v[1..|v| - 1], c) + Abs(v[|v| - 1] - c)
  {
    if |v| > 2 {
      SpreadOfEnds(v[1..], c);
      assert v[1..][1..|v| - 2] == v[2..|v| - 1] == v[1..|v| - 1][1..];
    } else {
      assert v[1..] == [v[1]] && v[1..|v| - 1] == [] && v[1..][1..] == [];
    }
  }

  /** Take the ends off an ordered sample: the middle stays, and lies between them. */
  lemma MiddleOfInner(v: seq<real>)
    requires |v| > 2 && SortedBy(RealLeq, v)
    ensures Middle(v) == Middle(v[1..|v| - 1]) && SortedBy(RealLeq, v[1..|v| - 1])
    ensures v[0] <= Middle(v) <= v[|v| - 1]
  {
    var mid := |v| / 2;
    assert RealLeq(v[0], v[mid]) && RealLeq(v[mid], v[|v| - 1]);
    if |v| % 2 == 0 {
      assert RealLeq(v[0], v[mid - 1]) && RealLeq(v[mid - 1], v[|v| - 1]);
    }
  }

  lemma {:induction false} MiddleIsCentral(v: seq<real>, c: real)
    requires v != [] && SortedBy(RealLeq, v)
    ensures Spread(v, Middle(v)) <= Spread(v, c)
    decreases |v|
  {
    if |v| > 2 {
      MiddleOfInner(v);
      MiddleIsCentral(v[1..|v| - 1], c);
      SpreadOfEnds(v, c);
      SpreadOfEnds(v, Middle(v));
    } else if |v| == 2 {
      assert RealLeq(v[0], v[1]);
      SpreadOfEnds(v, c);
      SpreadOfEnds(v, Middle(v));
    }
  }

  /** No centre is nearer, in total, to the sample than its median. */
  lemma MedianMinimises(xs: seq<real>, c: real)
    requires xs != []
    ensures Spread(xs, Median(xs).value) <= Spread(xs, c)
  {
    RealLeqIsTotal();
    SortIsSorted(RealLeq, xs);
    MiddleIsCentral(Sort(RealLeq, xs), c);
    SpreadOfSort(xs, c);
    SpreadOfSort(xs, Median(xs).value);
  }

  // ------------------------------------------------- the median is robust --

  /** How many of the sample lie in the band `lo..hi`. */
  function InBand(s: seq<real>, lo: real, hi: real): nat {
    if s == [] then 0 else (if lo <= s[0] <= hi then 1 else 0) + InBand(s[1..], lo, hi)
  }

  lemma {:induction false} InBandOfInsert(x: real, s: seq<real>, lo: real, hi: real)
    ensures InBand(Insert(RealLeq, x, s), lo, hi) == InBand([x], lo, hi) + InBand(s, lo, hi)
  {
    if s != [] && !RealLeq(x, s[0]) {
      InBandOfInsert(x, s[1..], lo, hi);
    }
  }

  lemma {:induction false} InBandOfSort(xs: seq<real>, lo: real, hi: real)
    ensures InBand(Sort(RealLeq, xs), lo, hi) == InBand(xs, lo, hi)
  {
    if xs != [] {
      InBandOfSort(xs[1..], lo, hi);
      InBandOfInsert(xs[0], Sort(RealLeq, xs[1..]), lo, hi);
    }
  }

  /** An ordered element above the band has at most the ones before it in the
      band; one below it, at most the ones after it. */
  lemma {:induction false} BandOnOneSide(v: seq<real>, k: nat, lo: real, hi: real)
    requires k < |v| && SortedBy(RealLeq, v)
    ensures v[k] > hi ==> InBand(v, lo, hi) <= k
    ensures v[k] < lo ==> InBand(v, lo, hi) <= |v| - 1 - k
  {
    AtMostAll(v[1..], lo, hi);
    if k > 0 {
      assert RealLeq(v[0], v[k]);
      BandOnOneSide(v[1..], k - 1, lo, hi);
    } else if v[0] > hi && |v| > 1 {
      assert RealLeq(v[0], v[1]);
      BandOnOneSide(v[1..], 0, lo, hi);
    }
  }

  lemma {:induction false} AtMostAll(s: seq<real>, lo: real, hi: real)
    ensures InBand(s, lo, hi) <= |s|
  {
    if s != [] {
      AtMostAll(s[1..], lo, hi);
    }
  }

  lemma MajorityHoldsMiddle(v: seq<real>, lo: real, hi: real)
    requires SortedBy(RealLeq, v) && 2 * InBand(v, lo, hi) > |v|
    ensures v != [] && lo <= Middle(v) <= hi
  {
    AtMostAll(v, lo, hi);
    var mid := |v| / 2;
    BandOnOneSide(v, mid, lo, hi);
    if |v| % 2 == 0 {
      BandOnOneSide(v, mid - 1, lo, hi);
    }
  }

  function Changes(changed: seq<bool>): nat {
    if changed == [] then 0 else (if changed[0] then 1 else 0) + Changes(changed[1..])
  }

  lemma {:induction false} UnchangedInBand(ys: seq<real>, changed: seq<bool>, lo: real, hi: real)
    requires |ys| == |changed|
    requires forall i :: 0 <= i < |ys| && !changed[i] ==> lo <= ys[i] <= hi
    ensures InBand(ys, lo, hi) >= |ys| - Changes(changed)
  {
    if ys != [] {
      UnchangedInBand(ys[1..], changed[1..], lo, hi);
    }
  }

  /** Replace strictly fewer than half of the samples by anything: the median
      stays within any band that holds the untouched ones. */
  lemma MedianIsRobust(xs: seq<real>, ys: seq<real>, changed: seq<bool>, lo: real, hi: real)
    requires |xs| == |ys| == |changed| && 2 * Changes(changed) < |xs|
    requires forall i :: 0 <= i < |xs| && !changed[i] ==> ys[i] == xs[i] && lo <= xs[i] <= hi
    ensures Median(ys).Some? && lo <= Median(ys).value <= hi
  {
    RealLeqIsTotal();
    SortIsSorted(RealLeq, ys);
    UnchangedInBand(ys, changed, lo, hi);
    InBandOfSort(ys, lo, hi);
    MajorityHoldsMiddle(Sort(RealLeq, ys), lo, hi);
  }

  function Repeated<T>(k: nat, x: T): (s: seq<T>)
    ensures |s| == k && forall i :: 0 <= i < k ==> s[i] == x
  {
    seq(k, _ => x)
  }

  lemma {:induction false} ChangesOfHead(k: nat, rest: nat)
    ensures Changes(Repeated(k, true) + Repeated(rest, false)) == k
  {
    var flags := Repeated(k, true) + Repeated(rest, false);
    if k > 0 {
      assert flags[1..] == Repeated(k - 1, true) + Repeated(rest, false);
      ChangesOfHead(k - 1, rest);
    } else if rest > 0 {
      assert flags[1..] == Repeated(0, true) + Repeated(rest - 1, false);
      ChangesOfHead(0, rest - 1);
    }
  }

  lemma {:induction false} HeadInBand(k: nat, x: real, rest: seq<real>)
    ensures InBand(Repeated(k, x) + rest, x, x) >= k
  {
    if k > 0 {
      assert (Repeated(k, x) + rest)[1..] == Repeated(k - 1, x) + rest;
      HeadInBand(k - 1, x, rest);
    }
  }

  /** With at least half of an ordered sample at `top`, its middle is at least
      the mean of `top` and the least element. */
  lemma HalfLiftsMiddle(v: seq<real>, low: real, top: real)
    requires v != [] && SortedBy(RealLeq, v) && 2 * InBand(v, top, top) >= |v|
    requires low <= top && forall x | x in v :: low <= x
    ensures Middle(v) >= (low + top) / 2.0
  {
    BandOnOneSide(v, |v| / 2, top, top);
    assert v[|v| / 2] >= top;
    assert |v| % 2 == 0 ==> v[|v| / 2 - 1] in v;
  }

  lemma HeadReplaced(xs: seq<real>, k: nat, top: real) returns (ys: seq<real>, changed: seq<bool>)
    requires k <= |xs|
    ensures |xs| == |ys| == |changed| && Changes(changed) == k && ys == Repeated(k, top) + xs[k..]
    ensures forall i :: 0 <= i < |xs| && !changed[i] ==> ys[i] == xs[i]
  {
    ys := Repeated(k, top) + xs[k..];
    changed := Repeated(k, true) + Repeated(|xs| - k, false);
    ChangesOfHead(k, |xs| - k);
    hide Changes, Repeated;
  }

  /** The bound is tight at every size: half of any sample replaced, rounded
      up, moves the median past any bound. */
  lemma HalfIsTooMany(xs: seq<real>, bound: real) returns (ys: seq<real>, changed: seq<bool>)
    requires xs != []
    ensures |xs| == |ys| == |changed| && Changes(changed) == (|xs| + 1) / 2
    ensures forall i :: 0 <= i < |xs| && !changed[i] ==> ys[i] == xs[i]
    ensures Median(ys).Some? && Median(ys).value > bound
  {
    var k := (|xs| + 1) / 2;
    var low := Sort(RealLeq, xs)[0];
    var top := Abs(low) + 2.0 * Abs(bound) + 1.0;
    assert low <= top && (low + top) / 2.0 > bound;
    hide Sort, Changes, InBand, Middle, Repeated, RealLeq, SortedBy, TotalOrder, Abs;
    ys, changed := HeadReplaced(xs, k, top);
    HeadInBand(k, top, xs[k..]);
    InBandOfSort(ys, top, top);
    RealLeqIsTotal();
    SortIsSorted(RealLeq, ys);
    LeastBounds(xs, ys, k, low, top);
    HalfLiftsMiddle(Sort(RealLeq, ys), low, top);
  }

  lemma FirstIsLeast(v: seq<real>)
    requires v != [] && SortedBy(RealLeq, v)
    ensures forall x | x in v :: v[0] <= x
  {
    forall i | 0 <= i < |v| ensures v[0] <= v[i] {
      assert i == 0 || RealLeq(v[0], v[i]);
    }
  }

  lemma LeastBounds(xs: seq<real>, ys: seq<real>, k: nat, low: real, top: real)
    requires xs != [] && k <= |xs| && ys == Repeated(k, top) + xs[k..]
    requires low == Sort(RealLeq, xs)[0] && low <= top
    ensures forall y | y in Sort(RealLeq, ys) :: low <= y
  {
    RealLeqIsTotal();
    SortIsSorted(RealLeq, xs);
    SortHolds(RealLeq, xs);
    SortHolds(RealLeq, ys);
    FirstIsLeast(Sort(RealLeq, xs));
    hide Sort, SortedBy, TotalOrder;
    forall j | 0 <= j < |ys| ensures low <= ys[j] {
      assert j >= k ==> ys[j] == xs[j] && xs[j] in xs;
    }
  }

  // ----------------------------------------------- order does not matter --

  lemma MedianOfPermutation(xs: seq<real>, ys: seq<real>)
    requires multiset(xs) == multiset(ys)
    ensures Median(xs) == Median(ys)
  {
    RealLeqIsTotal();
    SortOfPermutation(RealLeq, xs, ys);
    assert |xs| == |multiset(xs)| && |ys| == |multiset(ys)|;
  }

  /** The deviations of a sample, without their order. */
  function Bag(xs: seq<real>, m: real): multiset<real> {
    if xs == [] then multiset{} else Put(Abs(xs[0] - m), Bag(xs[1..], m))
  }

  function Put(x: real, bag: multiset<real>): multiset<real> {
    multiset{x} + bag
  }

  lemma {:induction false} DeviationsAreBag(xs: seq<real>, m: real)
    ensures multiset(Deviations(xs, m)) == Bag(xs, m)
  {
    if xs != [] {
      DeviationsAreBag(xs[1..], m);
    }
  }

  lemma BagOfCons(x: real, s: seq<real>, m: real)
    ensures Bag([x] + s, m) == Put(Abs(x - m), Bag(s, m))
  {
    hide Put;
    assert ([x] + s)[1..] == s;
  }

  lemma EitherFirst(x: real, y: real, bag: multiset<real>)
    ensures Put(x, Put(y, bag)) == Put(y, Put(x, bag))
  {
  }

  lemma {:induction false} BagOfInsert(x: real, s: seq<real>, m: real)
    ensures Bag(Insert(RealLeq, x, s), m) == Put(Abs(x - m), Bag(s, m))
  {
    hide Abs, Bag, Put;
    if s != [] && !RealLeq(x, s[0]) {
      BagOfInsert(x, s[1..], m);
      BagOfCons(s[0], Insert(RealLeq, x, s[1..]), m);
      BagOfCons(s[0], s[1..], m);
      EitherFirst(Abs(s[0] - m), Abs(x - m), Bag(s[1..], m));
      assert [s[0]] + s[1..] == s;
    } else {
      BagOfCons(x, s, m);
    }
  }

  lemma {:induction false} BagOfSort(xs: seq<real>, m: real)
    ensures Bag(Sort(RealLeq, xs), m) == Bag(xs, m)
  {
    hide Abs, Put, Insert;
    if xs != [] {
      BagOfSort(xs[1..], m);
      BagOfInsert(xs[0], Sort(RealLeq, xs[1..]), m);
    }
  }

  lemma DeviationsOfPermutation(xs: seq<real>, ys: seq<real>, m: real)
    requires multiset(xs) == multiset(ys)
    ensures multiset(Deviations(xs, m)) == multiset(Deviations(ys, m))
  {
    RealLeqIsTotal();
    SortOfPermutation(RealLeq, xs, ys);
    BagOfSort(xs, m);
    BagOfSort(ys, m);
    DeviationsAreBag(xs, m);
    DeviationsAreBag(ys, m);
  }

  lemma MadOfPermutation(xs: seq<real>, ys: seq<real>)
    requires multiset(xs) == multiset(ys)
    ensures Mad(xs) == Mad(ys)
  {
    MedianOfPermutation(xs, ys);
    if xs != [] {
      var m := Median(xs).value;
      DeviationsOfPermutation(xs, ys, m);
      MedianOfPermutation(Deviations(xs, m), Deviations(ys, m));
    }
  }

  /** The verdict depends on neither sample's order. */
  lemma CompareOfPermutations(a: seq<real>, a': seq<real>, b: seq<real>, b': seq<real>)
    requires multiset(a) == multiset(a') && multiset(b) == multiset(b')
    ensures Compare(a, b) == Compare(a', b')
  {
    hide Median, Mad;
    MedianOfPermutation(a, a');
    MedianOfPermutation(b, b');
    MadOfPermutation(a, a');
    MadOfPermutation(b, b');
  }

  /** A sample never differs from itself, in whatever order it is given. */
  lemma CompareWithItself(xs: seq<real>, ys: seq<real>)
    requires multiset(xs) == multiset(ys) && xs != []
    ensures Compare(xs, ys) == Some(Unchanged)
  {
    assert Median(xs).Some? && Mad(xs).Some?;
    hide Median, Mad;
    MedianOfPermutation(xs, ys);
    MadOfPermutation(xs, ys);
    MadIsNotNegative(xs);
  }

  lemma {:induction false} DeviationsAreNotNegative(xs: seq<real>, m: real)
    ensures forall x | x in Deviations(xs, m) :: x >= 0.0
  {
    if xs != [] {
      DeviationsAreNotNegative(xs[1..], m);
    }
  }

  lemma MadIsNotNegative(xs: seq<real>)
    requires xs != []
    ensures Mad(xs).value >= 0.0
  {
    var d := Deviations(xs, Median(xs).value);
    DeviationsAreNotNegative(xs, Median(xs).value);
    var v := Sort(RealLeq, d);
    forall x | x in v ensures x >= 0.0 {
      assert x in multiset(v) && x in multiset(d) && x in d;
    }
    assert v[|v| / 2] in v && (|v| % 2 == 0 ==> v[|v| / 2 - 1] in v);
  }

  // ------------------------------------------------ units do not matter --

  lemma TimesSteps(k: real, x: real, y: real)
    requires k > 0.0
    ensures Times(k, x) <= Times(k, y) <==> x <= y
    ensures Times(k, x) - Times(k, y) == Times(k, x - y)
    ensures (Times(k, x) + Times(k, y)) / 2.0 == Times(k, (x + y) / 2.0)
    ensures Max(Times(k, x), Times(k, y)) == Times(k, Max(x, y))
  {
    TimesSwap(k, x);
    TimesSwap(k, y);
    TimesSwap(k, x - y);
    TimesOfMean(k, x, y);
    hide Times;
    TimesOrder(x, y, k);
    TimesOrder(y, x, k);
    TimesMinus(x, y, k);
  }

  lemma TimesSwap(k: real, x: real)
    ensures Times(k, x) == Times(x, k)
  {
  }

  lemma TimesOfMean(k: real, x: real, y: real)
    ensures (Times(k, x) + Times(k, y)) / 2.0 == Times(k, (x + y) / 2.0)
  {
    assert k * (x + y) == k * x + k * y;
  }

  lemma TimesConstants(k: real, x: real)
    requires k > 0.0
    ensures Abs(Times(k, x)) == Times(k, Abs(x))
    ensures 3.0 * Times(k, x) == Times(k, 3.0 * x) && 0.02 * Times(k, x) == Times(k, 0.02 * x)
    ensures (Times(k, x) == 0.0 <==> x == 0.0) && (Times(k, x) > 0.0 <==> x > 0.0)
  {
  }

  lemma TimesRatio(k: real, x: real, y: real)
    requires k > 0.0 && y != 0.0 && Times(k, y) != 0.0
    ensures 100.0 * Times(k, x) / Times(k, y) == 100.0 * x / y
  {
    var r := 100.0 * x / y;
    assert r * y == 100.0 * x;
    assert r * (k * y) == k * (r * y);
    assert 100.0 * (k * x) == k * (100.0 * x);
  }

  /** The sample in another unit. */
  function Scale(xs: seq<real>, k: real): (s: seq<real>)
    ensures |s| == |xs| && forall i :: 0 <= i < |xs| ==> s[i] == Times(k, xs[i])
  {
    if xs == [] then [] else [Times(k, xs[0])] + Scale(xs[1..], k)
  }

  lemma {:induction false} ScaleOfInsert(x: real, s: seq<real>, k: real)
    requires k > 0.0
    ensures Insert(RealLeq, Times(k, x), Scale(s, k)) == Scale(Insert(RealLeq, x, s), k)
  {
    hide Times, Scale;
    ScaleOfCons(x, s, k);
    if s != [] {
      assert [s[0]] + s[1..] == s;
      ScaleOfCons(s[0], s[1..], k);
      TimesSteps(k, x, s[0]);
      if !RealLeq(x, s[0]) {
        ScaleOfInsert(x, s[1..], k);
        ScaleOfCons(s[0], Insert(RealLeq, x, s[1..]), k);
      }
    }
  }

  lemma ScaleOfCons(x: real, s: seq<real>, k: real)
    ensures Scale([x] + s, k) == [Times(k, x)] + Scale(s, k)
  {
    hide Times;
    assert ([x] + s)[1..] == s;
  }

  lemma {:induction false} ScaleOfSort(xs: seq<real>, k: real)
    requires k > 0.0
    ensures Sort(RealLeq, Scale(xs, k)) == Scale(Sort(RealLeq, xs), k)
  {
    hide Times;
    if xs != [] {
      ScaleOfSort(xs[1..], k);
      ScaleOfInsert(xs[0], Sort(RealLeq, xs[1..]), k);
    }
  }

  lemma MiddleOfScale(v: seq<real>, k: real)
    requires k > 0.0 && v != []
    ensures Middle(Scale(v, k)) == Times(k, Middle(v))
  {
    hide Times;
    var mid := |v| / 2;
    if |v| % 2 == 0 {
      TimesSteps(k, v[mid - 1], v[mid]);
    }
  }

  lemma MedianOfScale(xs: seq<real>, k: real)
    requires k > 0.0 && xs != []
    ensures Median(Scale(xs, k)) == Some(Times(k, Median(xs).value))
  {
    hide Times, Middle;
    ScaleOfSort(xs, k);
    MiddleOfScale(Sort(RealLeq, xs), k);
  }

  lemma {:induction false} DeviationsOfScale(xs: seq<real>, m: real, k: real)
    requires k > 0.0
    ensures Deviations(Scale(xs, k), Times(k, m)) == Scale(Deviations(xs, m), k)
  {
    hide Times, Abs;
    if xs != [] {
      TimesSteps(k, xs[0], m);
      TimesConstants(k, xs[0] - m);
      DeviationsOfScale(xs[1..], m, k);
    }
  }

  lemma MadOfScale(xs: seq<real>, k: real)
    requires k > 0.0 && xs != []
    ensures Mad(Scale(xs, k)) == Some(Times(k, Mad(xs).value))
  {
    var m := Median(xs).value;
    MedianOfScale(xs, k);
    DeviationsOfScale(xs, m, k);
    var d := Deviations(xs, m);
    assert Mad(xs) == Median(d) && Mad(Scale(xs, k)) == Median(Scale(d, k));
    hide Median, Mad, Times, Deviations, Scale;
    MedianOfScale(d, k);
  }

  lemma JudgeOfScale(mb: real, mc: real, db: real, dc: real, k: real)
    requires k > 0.0
    ensures Judge(Times(k, mb), Times(k, mc), Times(k, db), Times(k, dc)) == Judge(mb, mc, db, dc)
  {
    hide Times, Abs, Max;
    TimesSteps(k, mc, mb);
    TimesSteps(k, db, dc);
    TimesConstants(k, Max(db, dc));
    TimesConstants(k, mb);
    TimesConstants(k, Abs(mb));
    TimesConstants(k, mc - mb);
    TimesSteps(k, 3.0 * Max(db, dc), 0.02 * Abs(mb));
    TimesSteps(k, Abs(mc - mb), Max(3.0 * Max(db, dc), 0.02 * Abs(mb)));
    if mb != 0.0 {
      TimesRatio(k, mc - mb, mb);
    }
  }

  /** The verdict, its percentage included, does not depend on the unit. */
  lemma CompareOfScale(a: seq<real>, b: seq<real>, k: real)
    requires k > 0.0
    ensures Compare(Scale(a, k), Scale(b, k)) == Compare(a, b)
  {
    assert Median(a).Some? == Mad(a).Some? == (a != []) && Median(b).Some? == Mad(b).Some? == (b != []);
    assert Median(Scale(a, k)).Some? == (a != []) && Median(Scale(b, k)).Some? == (b != []);
    hide Median, Mad, Judge, Times, Scale;
    if a != [] && b != [] {
      MedianOfScale(a, k);
      MedianOfScale(b, k);
      MadOfScale(a, k);
      MadOfScale(b, k);
      JudgeOfScale(Median(a).value, Median(b).value, Mad(a).value, Mad(b).value, k);
    }
  }
}
