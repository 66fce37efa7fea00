/** The per-file IR-volume ratchet and its record: `ir_volume_ratchet` of
    xtask/src/t1.rs and `write_ir_volume_table` of xtask/src/bench_t1.rs, over
    exact reals. */
module Ratchet {
  import opened Reals
  import opened Wrappers
  import opened Sorting

  datatype Volume = Volume(midend: nat, naive: nat)

  function Ratio(v: Volume): Option<real> {
    if v.naive > 0 then Some(v.midend as real / v.naive as real) else None
  }

  /** What a run says of one measured path. */
  datatype Fate = Unrated | New | Regressed | Improved | Silent

  function FateOf(recorded: map<string, real>, path: string, v: Volume, slack: real): Fate {
    match Ratio(v)
    case None => Unrated
    case Some(ratio) =>
      if path !in recorded then New
      else if ratio > recorded[path] * (1.0 + slack) then Regressed
      else if ratio < recorded[path] * (1.0 - slack) then Improved
      else Silent
  }

  /** The fates by the counts alone: the recorded ratio and its slack, at the measured naive count. */
  lemma FateMeans(recorded: map<string, real>, path: string, v: Volume, slack: real)
    ensures FateOf(recorded, path, v, slack) == Unrated <==> v.naive == 0
    ensures FateOf(recorded, path, v, slack) == New <==> v.naive > 0 && path !in recorded
    ensures FateOf(recorded, path, v, slack) == Regressed <==>
              v.naive > 0 && path in recorded
              && v.midend as real > recorded[path] * (1.0 + slack) * v.naive as real
    ensures FateOf(recorded, path, v, slack) == Improved <==>
              v.naive > 0 && path in recorded
              && v.midend as real <= recorded[path] * (1.0 + slack) * v.naive as real
              && v.midend as real < recorded[path] * (1.0 - slack) * v.naive as real
  {
    if v.naive > 0 && path in recorded {
      var n := v.naive as real;
      var ratio := v.midend as real / n;
      assert ratio * n == v.midend as real;
      TimesOrder(recorded[path] * (1.0 + slack), ratio, n);
      TimesOrder(ratio, recorded[path] * (1.0 - slack), n);
    }
  }

  datatype Change = Change(path: string, recorded: real, measured: real)

  datatype Report = Report(regressed: seq<Change>, novel: seq<(string, Volume)>,
                           unmeasured: seq<string>, improved: seq<Change>)

  predicate IsChange(recorded: map<string, real>, measured: map<string, Volume>, slack: real, fate: Fate, c: Change) {
    && c.path in measured && FateOf(recorded, c.path, measured[c.path], slack) == fate
    && c.path in recorded && c.recorded == recorded[c.path] && Some(c.measured) == Ratio(measured[c.path])
  }

  /** The changes of one fate among the first paths, each once, in path order. */
  ghost predicate Lists(recorded: map<string, real>, measured: map<string, Volume>, slack: real,
                        paths: seq<string>, fate: Fate, changes: seq<Change>)
  {
    && (forall c :: c in changes <==> c.path in paths && IsChange(recorded, measured, slack, fate, c))
    && InPathOrder(changes)
  }

  /** Each path at most once, in order. */
  ghost predicate InPathOrder(changes: seq<Change>) {
    forall i, j :: 0 <= i < j < |changes| ==>
      StrLeq(changes[i].path, changes[j].path) && changes[i].path != changes[j].path
  }

  lemma ListsStep(recorded: map<string, real>, measured: map<string, Volume>, slack: real,
                  paths: seq<string>, path: string, fate: Fate, changes: seq<Change>, c: Change)
    requires Lists(recorded, measured, slack, paths, fate, changes)
    requires StrictlySorted(paths + [path])
    ensures (forall d | IsChange(recorded, measured, slack, fate, d) :: d.path != path) ==>
              Lists(recorded, measured, slack, paths + [path], fate, changes)
    ensures IsChange(recorded, measured, slack, fate, c) && c.path == path ==>
              Lists(recorded, measured, slack, paths + [path], fate, changes + [c])
  {
    hide FateOf, StrLeq, Ratio;
    LastIsGreatest(paths, path);
    hide StrictlySorted;
  }

  lemma ChangeOf(recorded: map<string, real>, measured: map<string, Volume>, slack: real, path: string)
    requires path in measured
    ensures var fate := FateOf(recorded, path, measured[path], slack);
            (fate == Regressed || fate == Improved ==>
               path in recorded && Ratio(measured[path]).Some?
               && IsChange(recorded, measured, slack, fate,
                           Change(path, recorded[path], Ratio(measured[path]).value)))
            && forall d, other | IsChange(recorded, measured, slack, other, d) && d.path == path :: other == fate
  {
    hide Ratio;
  }

  /** The new paths among the first ones, each once, in path order. */
  ghost predicate ListsNew(recorded: map<string, real>, measured: map<string, Volume>, slack: real,
                           paths: seq<string>, novel: seq<(string, Volume)>)
  {
    && (forall p, e :: (p, e) in novel <==>
          p in paths && p in measured && measured[p] == e && FateOf(recorded, p, e, slack) == New)
    && NewInPathOrder(novel)
  }

  ghost predicate NewInPathOrder(novel: seq<(string, Volume)>) {
    forall i, j :: 0 <= i < j < |novel| ==> StrLeq(novel[i].0, novel[j].0) && novel[i].0 != novel[j].0
  }

  lemma ListsNewStep(recorded: map<string, real>, measured: map<string, Volume>, slack: real,
                     paths: seq<string>, path: string, novel: seq<(string, Volume)>)
    requires ListsNew(recorded, measured, slack, paths, novel)
    requires StrictlySorted(paths + [path]) && path in measured
    ensures ListsNew(recorded, measured, slack, paths + [path],
                     if FateOf(recorded, path, measured[path], slack) == New then novel + [(path, measured[path])]
                     else novel)
  {
    hide FateOf, StrLeq;
    LastIsGreatest(paths, path);
    hide StrictlySorted;
    forall i | 0 <= i < |novel| ensures novel[i].0 in paths {
      assert (novel[i].0, novel[i].1) in novel;
    }
  }

  lemma ListsNothing(recorded: map<string, real>, measured: map<string, Volume>, slack: real)
    ensures forall fate :: Lists(recorded, measured, slack, [], fate, [])
    ensures ListsNew(recorded, measured, slack, [], [])
  {
  }

  lemma ListsAll(recorded: map<string, real>, measured: map<string, Volume>, slack: real,
                 paths: seq<string>, fate: Fate, changes: seq<Change>)
    requires Lists(recorded, measured, slack, paths, fate, changes) && forall p :: p in paths <==> p in measured
    ensures forall c :: c in changes <==> IsChange(recorded, measured, slack, fate, c)
    ensures InPathOrder(changes)
  {
    hide FateOf, StrLeq, Ratio, InPathOrder;
  }

  lemma ListsAllNew(recorded: map<string, real>, measured: map<string, Volume>, slack: real,
                    paths: seq<string>, novel: seq<(string, Volume)>)
    requires ListsNew(recorded, measured, slack, paths, novel) && forall p :: p in paths <==> p in measured
    ensures forall p, e :: (p, e) in novel <==>
              p in measured && measured[p] == e && FateOf(recorded, p, e, slack) == New
    ensures NewInPathOrder(novel)
  {
    hide FateOf, StrLeq, NewInPathOrder;
  }

  /** Every path is reported under its fate and under no other, once, in order;
      a recorded path that was not measured is named. */
  method IrVolumeRatchet(recorded: map<string, real>, measured: map<string, Volume>, slack: real)
      returns (v: Report)
    ensures forall c :: c in v.regressed <==> IsChange(recorded, measured, slack, Regressed, c)
    ensures forall c :: c in v.improved <==> IsChange(recorded, measured, slack, Improved, c)
    ensures InPathOrder(v.regressed) && InPathOrder(v.improved)
    ensures forall p, e :: (p, e) in v.novel <==>
              p in measured && measured[p] == e && FateOf(recorded, p, e, slack) == New
    ensures NewInPathOrder(v.novel) && StrictlySorted(v.unmeasured)
    ensures forall p :: p in v.unmeasured <==> p in recorded && p !in measured
  {
    hide Lists, ListsNew, StrLeq, Ratio, NewInPathOrder, InPathOrder, FateOf, IsChange, StrictlySorted;
    var regressed: seq<Change> := [];
    var improved: seq<Change> := [];
    var novel: seq<(string, Volume)> := [];
    var paths := InOrder(measured.Keys);
    ListsNothing(recorded, measured, slack);
    for i := 0 to |paths|
      invariant Lists(recorded, measured, slack, paths[..i], Regressed, regressed)
      invariant Lists(recorded, measured, slack, paths[..i], Improved, improved)
      invariant ListsNew(recorded, measured, slack, paths[..i], novel)
    {
      var path := paths[i];
      ChangeOf(recorded, measured, slack, path);
      StrictPrefix(paths, i + 1);
      assert paths[..i + 1] == paths[..i] + [path];
      ListsNewStep(recorded, measured, slack, paths[..i], path, novel);
      var fate := FateOf(recorded, path, measured[path], slack);
      ghost var none := Change(path, 0.0, 0.0);
      if fate == Regressed || fate == Improved {
        var c := Change(path, recorded[path], Ratio(measured[path]).value);
        ListsStep(recorded, measured, slack, paths[..i], path, Regressed, regressed, c);
        ListsStep(recorded, measured, slack, paths[..i], path, Improved, improved, c);
        if fate == Regressed {
          regressed := regressed + [c];
        } else {
          improved := improved + [c];
        }
      } else {
        ListsStep(recorded, measured, slack, paths[..i], path, Regressed, regressed, none);
        ListsStep(recorded, measured, slack, paths[..i], path, Improved, improved, none);
        if fate == New {
          novel := novel + [(path, measured[path])];
        }
      }
    }
    assert paths[..|paths|] == paths;
    ListsAll(recorded, measured, slack, paths, Regressed, regressed);
    ListsAll(recorded, measured, slack, paths, Improved, improved);
    ListsAllNew(recorded, measured, slack, paths, novel);
    var unmeasured := InOrder(recorded.Keys - measured.Keys);
    v := Report(regressed, novel, unmeasured, improved);
  }

  // ---------------------------------------------------------- the record --

  /** A non-negative ratio in whole thousandths: `f64::round` of it times 1000. */
  function Thousandths(r: real): int { (r * 1000.0 + 0.5).Floor }

  function Round3(r: real): real { Thousandths(r) as real / 1000.0 }

  /** `--record`: every rated path at three decimals, and no other. */
  function Record(measured: map<string, Volume>): map<string, real> {
    map p | p in measured && Ratio(measured[p]).Some? :: Round3(Ratio(measured[p]).value)
  }

  /** A recorded path: its counts, and its ratio at three decimals. */
  datatype Rated = Rated(midend: nat, naive: nat, ratio: real)

  /** The ratchet reads the ratios of the table. */
  function Ratios(files: map<string, Rated>): map<string, real> {
    map p | p in files :: files[p].ratio
  }

  method WriteTable(measured: map<string, Volume>) returns (files: map<string, Rated>, n: nat)
    ensures Ratios(files) == Record(measured) && n == |files|
    ensures forall p | p in files :: p in measured && Volume(files[p].midend, files[p].naive) == measured[p]
  {
    hide Round3, Ratio, Tabled, Ratios, Record, StrictlySorted;
    files := map[];
    var paths := InOrder(measured.Keys);
    TabledEnds(measured, paths[..0], files);
    for i := 0 to |paths|
      invariant Tabled(measured, paths[..i], files)
    {
      TabledStep(measured, paths[..i], paths[i], files);
      assert paths[..i + 1] == paths[..i] + [paths[i]];
      var e := measured[paths[i]];
      match Ratio(e) {
        case Some(r) => files := files[paths[i] := Rated(e.midend, e.naive, Round3(r))];
        case None =>
      }
    }
    assert paths[..|paths|] == paths;
    TabledEnds(measured, paths, files);
    n := |files|;
  }

  /** The table holds exactly the rated ones of the first paths. */
  ghost predicate Tabled(measured: map<string, Volume>, paths: seq<string>, files: map<string, Rated>) {
    && (forall p :: p in files <==> p in paths && p in measured && Ratio(measured[p]).Some?)
    && (forall p | p in files ::
          files[p] == Rated(measured[p].midend, measured[p].naive, Round3(Ratio(measured[p]).value)))
  }

  lemma TabledEnds(measured: map<string, Volume>, paths: seq<string>, files: map<string, Rated>)
    ensures paths == [] && files == map[] ==> Tabled(measured, paths, files)
    ensures Tabled(measured, paths, files) && (forall p :: p in paths <==> p in measured) ==>
              (Ratios(files) == Record(measured)
               && forall p | p in files :: p in measured && Volume(files[p].midend, files[p].naive) == measured[p])
  {
    hide Round3, Ratio;
  }

  lemma TabledStep(measured: map<string, Volume>, paths: seq<string>, path: string, files: map<string, Rated>)
    requires Tabled(measured, paths, files) && path in measured
    ensures Ratio(measured[path]).None? ==> Tabled(measured, paths + [path], files)
    ensures Ratio(measured[path]).Some? ==>
              var e := measured[path];
              Tabled(measured, paths + [path], files[path := Rated(e.midend, e.naive, Round3(Ratio(e).value))])
  {
    hide Round3, Ratio;
    forall p ensures p in paths + [path] <==> p in paths || p == path { }
  }

  /** A rounded ratio's own slack covers its rounding. */
  predicate Covered(r: real, slack: real) {
    Thousandths(r) as real * slack >= 0.5
  }

  lemma CoveredIsSilent(r: real, slack: real)
    requires r >= 0.0 && slack > 0.0 && Covered(r, slack)
    ensures Round3(r) * (1.0 - slack) <= r <= Round3(r) * (1.0 + slack)
  {
    var k := Thousandths(r) as real;
    assert k <= r * 1000.0 + 0.5 < k + 1.0;
    assert k * (1.0 + slack) == k + k * slack && k * (1.0 - slack) == k - k * slack;
    Over1000(k, slack);
  }

  lemma Over1000(k: real, slack: real)
    ensures k / 1000.0 * (1.0 + slack) == k * (1.0 + slack) / 1000.0
    ensures k / 1000.0 * (1.0 - slack) == k * (1.0 - slack) / 1000.0
  {
  }

  /** Recording, then measuring the same again, reports nothing new, nothing
      unmeasured, and neither a regression nor an improvement of a covered ratio. */
  lemma RecordingIsAFixpoint(measured: map<string, Volume>, slack: real, p: string)
    requires slack > 0.0 && p in measured
    ensures FateOf(Record(measured), p, measured[p], slack) != New
    ensures Ratio(measured[p]).Some? && Covered(Ratio(measured[p]).value, slack) ==>
              FateOf(Record(measured), p, measured[p], slack) == Silent
    ensures Record(measured).Keys <= measured.Keys
  {
    if Ratio(measured[p]).Some? {
      var r := Ratio(measured[p]).value;
      assert r >= 0.0;
      if Covered(r, slack) {
        CoveredIsSilent(r, slack);
      }
    }
  }

  /** The bound in the ratio itself: 0.0105 at a slack of 5%. */
  lemma LargeRatioIsCovered(r: real, slack: real)
    requires slack > 0.0 && r >= 0.0005 * (1.0 + slack) / slack
    ensures Covered(r, slack)
  {
    var k := Thousandths(r) as real;
    assert k > r * 1000.0 - 0.5;
    assert r * slack >= 0.0005 * (1.0 + slack) by {
      assert 0.0005 * (1.0 + slack) / slack * slack == 0.0005 * (1.0 + slack);
      TimesSlack(r, 0.0005 * (1.0 + slack) / slack, slack);
    }
    TimesSlack(k, r * 1000.0 - 0.5, slack);
    assert (r * 1000.0 - 0.5) * slack == 1000.0 * (r * slack) - 0.5 * slack;
  }

  lemma TimesSlack(x: real, y: real, slack: real)
    requires slack > 0.0 && x >= y
    ensures x * slack >= y * slack
  {
    assert (x - y) * slack >= 0.0;
  }

  /** The coverage is needed: under every uncovered count of thousandths there
      is a measurement that its own record reports as a regression. */
  lemma UncoveredRegresses(k: nat, slack: real) returns (v: Volume)
    requires slack > 0.0 && k as real * slack < 0.5
    ensures Ratio(v).Some? && Thousandths(Ratio(v).value) == k
    ensures FateOf(Record(map["p" := v]), "p", v, slack) == Regressed
  {
    var p := k as real * slack;
    TimesSlack(k as real, 0.0, slack);
    v := VolumeBetween(k, k as real + p, 0.5 - p);
    RecordedBound(k as real, slack, p);
    assert Ratio(v).value > Round3(Ratio(v).value) * (1.0 + slack);
    assert Record(map["p" := v])["p"] == Round3(Ratio(v).value);
  }

  lemma RecordedBound(k: real, slack: real, p: real)
    requires p == k * slack
    ensures k / 1000.0 * (1.0 + slack) == (k + p) / 1000.0
  {
  }

  lemma TimesLinear(x: real, y: real, n: real)
    ensures Times(x + y, n) == Times(x, n) + Times(y, n) && Times(x, n) == Times(n, x) && Times(0.0, n) == 0.0
    ensures Times(x * 1000.0, n) == 1000.0 * Times(x, n)
  {
  }

  lemma Divided(x: real, y: real)
    requires y > 0.0
    ensures Times(x / y, y) == x
  {
  }

  /** A measurement whose thousandths lie strictly between `low` and `low + gap`. */
  lemma VolumeBetween(k: nat, low: real, gap: real) returns (v: Volume)
    requires gap > 0.0 && k as real <= low && low + gap == k as real + 0.5
    ensures Ratio(v).Some? && Thousandths(Ratio(v).value) == k && low < Ratio(v).value * 1000.0
  {
    hide Times;
    var q := 1000.0 / gap;
    Divided(1000.0, gap);
    TimesOrder(0.0, q, gap);
    TimesLinear(0.0, 0.0, gap);
    var naive := q.Floor + 1;
    var n := naive as real;
    TimesOrder(q, n, gap);
    TimesLinear(n, 0.0, gap);
    TimesOrder(low, 0.0, n);
    TimesLinear(low, gap, n);
    TimesLinear(0.0, 0.0, n);
    var midend := (Times(low, n) / 1000.0).Floor + 1;
    var r := midend as real / n;
    Divided(midend as real, n);
    TimesLinear(r, 0.0, n);
    TimesOrder(low, r * 1000.0, n);
    TimesOrder(r * 1000.0, low + gap, n);
    v := Volume(midend, naive);
  }
}
