/** The M2 gate read back from a report: the floor and verdict part of `run` and
    `gate_eval` of xtask/src/bench_t1.rs, over exact reals. */
module StoredGate {
  import opened Gate
  import opened Reals
  import opened Wrappers

  // ------------------------------------------------- a run's own records --

  /** A report record, as far as the gate reads it: a missing text is empty, a
      missing family "?", and a value that is no number is none. */
  datatype Rec = Rec(bench: string, family: string, lang: string, metric: string, value: Option<real>,
                     verdict: string)

  const FLOOR_LANES: seq<string> := ["wolf", "c_naive"]

  predicate IsFloor(r: Rec) { r.metric == "layout_noise_floor" && r.lang == "suite" }
  predicate IsRow(r: Rec) { r.metric == "speedup_vs_c_naive" && r.value.Some? }

  /** Everything else a report holds: samples, medians, witnesses, other lanes' speedups. */
  predicate Quiet(rs: seq<Rec>) {
    forall r | r in rs :: !IsFloor(r) && !IsRow(r)
  }

  const FOLDED_NS_PER_OP: real := 0.01

  /** What one kernel measured: the layout medians of each floor lane, and the
      two medians compared; and the records it reports besides, where they fall. */
  datatype Kernel = Kernel(name: string, family: string, layouts: map<string, seq<real>>, wolf: Option<real>,
                           naive: Option<real>, samples: seq<Rec>, medians: seq<Rec>, others: seq<Rec>)

  predicate LaneRan(m: Option<real>) { m.Some? && m.value >= FOLDED_NS_PER_OP }

  function LaneFloor(k: Kernel, lane: string): Option<real> {
    NoiseFloor(if lane in k.layouts then k.layouts[lane] else [])
  }

  function LaneFloors(k: Kernel, lanes: seq<string>): seq<real> {
    if lanes == [] then []
    else
      var f := LaneFloor(k, lanes[|lanes| - 1]);
      LaneFloors(k, lanes[..|lanes| - 1]) + if f.Some? then [f.value] else []
  }

  /** The conservative choice: the widest floor a lane showed. */
  function FloorOf(k: Kernel): Option<real> {
    var floors := LaneFloors(k, FLOOR_LANES);
    if floors == [] then None else Some(Greatest(floors))
  }

  /** Each lane's floor is reported under the suite's metric, in the lane's name. */
  function LaneRecs(k: Kernel, lanes: seq<string>): seq<Rec> {
    if lanes == [] then []
    else
      var lane := lanes[|lanes| - 1];
      var f := LaneFloor(k, lane);
      LaneRecs(k, lanes[..|lanes| - 1])
      + if f.Some? then [Rec(k.name, k.family, lane, "layout_noise_floor", Some(f.value), "")] else []
  }

  function ScoredOf(k: Kernel): Option<Scored> {
    if LaneRan(k.wolf) && LaneRan(k.naive) then
      Some(Scored(k.name, k.family, k.naive.value / k.wolf.value, FloorOf(k),
                  Score(k.wolf.value, k.naive.value, FloorOf(k))))
    else None
  }

  function FloorRecs(k: Kernel): seq<Rec> {
    match FloorOf(k)
    case None => []
    case Some(f) => [Rec(k.name, k.family, "suite", "layout_noise_floor", Some(f), "")]
  }

  function RowRecs(k: Kernel): seq<Rec> {
    match ScoredOf(k)
    case None => []
    case Some(s) => [Rec(k.name, k.family, "wolf", "speedup_vs_c_naive", Some(s.speedup), Label(s.verdict))]
  }

  /** The row that the gate reads back of a kernel. */
  function RowsOf(k: Kernel): seq<Row> {
    match ScoredOf(k)
    case None => []
    case Some(s) => [Row(k.name, k.family, s.speedup, Label(s.verdict))]
  }

  function Emitted(k: Kernel): seq<Rec> {
    (k.samples + LaneRecs(k, FLOOR_LANES)) + FloorRecs(k) + k.medians + RowRecs(k) + k.others
  }

  function AllRecs(ks: seq<Kernel>): seq<Rec> {
    if ks == [] then [] else AllRecs(ks[..|ks| - 1]) + Emitted(ks[|ks| - 1])
  }

  function ScoredSeq(k: Kernel): seq<Scored> {
    var s := ScoredOf(k);
    if s.Some? then [s.value] else []
  }

  function AllScored(ks: seq<Kernel>): seq<Scored> {
    if ks == [] then []
    else AllScored(ks[..|ks| - 1]) + ScoredSeq(ks[|ks| - 1])
  }

  /** The floors of one kernel, lane by lane: the records pushed, and the widest. */
  method MeasureFloors(k: Kernel) returns (recs: seq<Rec>, floor: Option<real>)
    ensures recs == LaneRecs(k, FLOOR_LANES) && floor == FloorOf(k)
  {
    hide NoiseFloor;
    var floors: seq<real> := [];
    recs := [];
    for i := 0 to |FLOOR_LANES|
      invariant recs == LaneRecs(k, FLOOR_LANES[..i]) && floors == LaneFloors(k, FLOOR_LANES[..i])
    {
      var lane := FLOOR_LANES[i];
      assert FLOOR_LANES[..i + 1][..i] == FLOOR_LANES[..i];
      var f := LayoutNoiseFloor(if lane in k.layouts then k.layouts[lane] else []);
      if f.Some? {
        floors := floors + [f.value];
        recs := recs + [Rec(k.name, k.family, lane, "layout_noise_floor", Some(f.value), "")];
      }
    }
    assert FLOOR_LANES[..|FLOOR_LANES|] == FLOOR_LANES;
    floor := None;
    for i := 0 to |floors|
      invariant floor == if i == 0 then None else Some(Greatest(floors[..i]))
    {
      WidestStep(floors, i);
      floor := Some(if floor.Some? then Max(floor.value, floors[i]) else floors[i]);
    }
    assert floors[..|floors|] == floors;
  }

  /** A kernel's floor is the wider of its two lanes' floors; none if neither has one. */
  lemma FloorIsWidest(k: Kernel)
    ensures FloorOf(k).None? <==> LaneFloor(k, "wolf").None? && LaneFloor(k, "c_naive").None?
    ensures FloorOf(k).Some? ==> FloorOf(k) == LaneFloor(k, "wolf") || FloorOf(k) == LaneFloor(k, "c_naive")
    ensures LaneFloor(k, "wolf").Some? ==> LaneFloor(k, "wolf").value <= FloorOf(k).value
    ensures LaneFloor(k, "c_naive").Some? ==> LaneFloor(k, "c_naive").value <= FloorOf(k).value
  {
    hide LaneFloor;
    assert FLOOR_LANES[..1] == ["wolf"] && ["wolf"][..0] == [];
    var floors := LaneFloors(k, FLOOR_LANES);
    var wolf, naive := LaneFloor(k, "wolf"), LaneFloor(k, "c_naive");
    assert LaneFloors(k, ["wolf"]) == [] + if wolf.Some? then [wolf.value] else [];
    assert floors == (if wolf.Some? then [wolf.value] else []) + if naive.Some? then [naive.value] else [];
    assert wolf.Some? ==> wolf.value in floors;
    assert naive.Some? ==> naive.value in floors;
  }

  /** A kernel is scored exactly when both its lanes took a hundredth of a
      nanosecond an operation or more, and then by the ratio of its two medians. */
  lemma ScoredMeans(k: Kernel)
    ensures ScoredOf(k).Some? <==> k.wolf.Some? && k.naive.Some? && k.wolf.value >= 0.01 && k.naive.value >= 0.01
    ensures ScoredOf(k).Some? ==>
              var s := ScoredOf(k).value;
              (s.kernel == k.name && s.family == k.family && s.floor == FloorOf(k)
               && s.speedup * k.wolf.value == k.naive.value
               && s.verdict == Score(k.wolf.value, k.naive.value, FloorOf(k)))
  {
    hide FloorOf, Score;
  }

  lemma WidestStep(xs: seq<real>, i: nat)
    requires i < |xs|
    ensures Greatest(xs[..i + 1]) == if i == 0 then xs[0] else Max(Greatest(xs[..i]), xs[i])
  {
    assert xs[..i + 1] == xs[..i] + [xs[i]];
    var m := Greatest(xs[..i + 1]);
    assert m in xs[..i] || m == xs[i];
    assert xs[i] in xs[..i + 1];
    if i > 0 {
      assert Greatest(xs[..i]) in xs[..i + 1];
    }
  }

  /** The live run: records and scores pushed kernel by kernel, the suite's own records last. */
  method Run(ks: seq<Kernel>, suite: seq<Rec>) returns (records: seq<Rec>, scored: seq<Scored>)
    ensures records == AllRecs(ks) + suite && scored == AllScored(ks)
  {
    hide FloorOf, Score;
    records, scored := [], [];
    for i := 0 to |ks|
      invariant records == AllRecs(ks[..i]) && scored == AllScored(ks[..i])
    {
      var k := ks[i];
      assert ks[..i + 1][..i] == ks[..i];
      var lanes, floor := MeasureFloors(k);
      var pushed := k.samples + lanes;
      if floor.Some? {
        pushed := pushed + [Rec(k.name, k.family, "suite", "layout_noise_floor", Some(floor.value), "")];
      } else {
        assert pushed + [] == pushed;
      }
      pushed := pushed + k.medians;
      if LaneRan(k.wolf) && LaneRan(k.naive) {
        var speedup := k.naive.value / k.wolf.value;
        var v := Score(k.wolf.value, k.naive.value, floor);
        pushed := pushed + [Rec(k.name, k.family, "wolf", "speedup_vs_c_naive", Some(speedup), Label(v))];
        scored := scored + [Scored(k.name, k.family, speedup, floor, v)];
      } else {
        assert pushed + [] == pushed && scored + [] == scored;
      }
      records := records + (pushed + k.others);
    }
    assert ks[..|ks|] == ks;
    records := records + suite;
  }

  // ------------------------------------------------------ the stored gate --

  datatype GateError = Malformed | NoRows | Diverged(kernel: string)

  /** A line of the report that is not blank. */
  datatype Line = Garbled | Record(rec: Rec)

  /** A stored verdict to score again. */
  datatype Row = Row(kernel: string, family: string, speedup: real, stored: string)

  function Floors(rs: seq<Rec>): map<string, real> {
    if rs == [] then map[]
    else
      var r := rs[|rs| - 1];
      var rest := Floors(rs[..|rs| - 1]);
      if IsFloor(r) && r.value.Some? then rest[r.bench := r.value.value] else rest
  }

  function RowOf(r: Rec): seq<Row> {
    if IsRow(r) then [Row(r.bench, r.family, r.value.value, r.verdict)] else []
  }

  function Rows(rs: seq<Rec>): seq<Row> {
    if rs == [] then [] else Rows(rs[..|rs| - 1]) + RowOf(rs[|rs| - 1])
  }

  /** One stored row, scored again from its ratio and its floor. */
  function Rescore(r: Row, floors: map<string, real>): Result<Scored, GateError> {
    var floor := if r.kernel in floors then Some(floors[r.kernel]) else None;
    var v := Score(1.0, r.speedup, floor);
    if r.stored != "" && r.stored != Label(v) then Err(Diverged(r.kernel))
    else Ok(Scored(r.kernel, r.family, r.speedup, floor, v))
  }

  /** What is scored already, in front of what the rest gives. */
  function Onto(scored: seq<Scored>, rest: Result<seq<Scored>, GateError>): Result<seq<Scored>, GateError> {
    match rest case Ok(more) => Ok(scored + more) case Err(e) => Err(e)
  }

  function RescoreAll(rows: seq<Row>, floors: map<string, real>): Result<seq<Scored>, GateError> {
    if rows == [] then Ok([])
    else match Rescore(rows[0], floors)
      case Err(e) => Err(e)
      case Ok(s) => Onto([s], RescoreAll(rows[1..], floors))
  }

  function RecsOf(lines: seq<Line>): seq<Rec>
    requires Garbled !in lines
  {
    if lines == [] then []
    else
      assert lines[|lines| - 1] in lines;
      RecsOf(lines[..|lines| - 1]) + [lines[|lines| - 1].rec]
  }

  function Judged(rs: seq<Rec>, exceptions: seq<string>): Result<(seq<Scored>, Outcome), GateError> {
    if Rows(rs) == [] then Err(NoRows)
    else match RescoreAll(Rows(rs), Floors(rs))
      case Err(e) => Err(e)
      case Ok(scored) => Ok((scored, GateOutcome(scored, exceptions)))
  }

  function GateOf(lines: seq<Line>, exceptions: seq<string>): Result<(seq<Scored>, Outcome), GateError> {
    if Garbled in lines then Err(Malformed) else Judged(RecsOf(lines), exceptions)
  }

  /** A report, one line a record. */
  function LinesOf(rs: seq<Rec>): (lines: seq<Line>)
    ensures |lines| == |rs| && Garbled !in lines && forall i :: 0 <= i < |rs| ==> lines[i] == Record(rs[i])
  {
    seq(|rs|, i requires 0 <= i < |rs| => Record(rs[i]))
  }

  lemma {:induction false} ReadBack(rs: seq<Rec>)
    ensures RecsOf(LinesOf(rs)) == rs
  {
    if rs != [] {
      var n := |rs| - 1;
      assert LinesOf(rs)[..n] == LinesOf(rs[..n]);
      ReadBack(rs[..n]);
      assert rs == rs[..n] + [rs[n]];
    }
  }

  lemma OntoNothing(rest: Result<seq<Scored>, GateError>)
    ensures Onto([], rest) == rest
  {
    assert rest.Ok? ==> [] + rest.value == rest.value;
  }

  lemma OntoAgain(s: Scored, some: seq<Scored>, rest: Result<seq<Scored>, GateError>)
    ensures Onto([s], Onto(some, rest)) == Onto([s] + some, rest)
  {
    assert rest.Ok? ==> [s] + (some + rest.value) == [s] + some + rest.value;
  }

  lemma OntoStep(scored: seq<Scored>, s: Scored, rest: Result<seq<Scored>, GateError>)
    ensures Onto(scored, Onto([s], rest)) == Onto(scored + [s], rest)
  {
    assert rest.Ok? ==> scored + ([s] + rest.value) == scored + [s] + rest.value;
  }

  /** The lines' floors and rows, or the error at the first garbled one. */
  method ReadReport(lines: seq<Line>) returns (ok: bool, floors: map<string, real>, rows: seq<Row>)
    ensures ok <==> Garbled !in lines
    ensures ok ==> floors == Floors(RecsOf(lines)) && rows == Rows(RecsOf(lines))
  {
    floors, rows := map[], [];
    for i := 0 to |lines|
      invariant Garbled !in lines[..i]
      invariant floors == Floors(RecsOf(lines[..i])) && rows == Rows(RecsOf(lines[..i]))
    {
      hide Floors, Rows;
      if lines[i].Garbled? {
        return false, floors, rows;
      }
      var r := lines[i].rec;
      ReadStep(lines[..i], r);
      assert lines[..i + 1] == lines[..i] + [Record(r)];
      if r.metric == "layout_noise_floor" && r.lang == "suite" {
        if r.value.Some? {
          floors := floors[r.bench := r.value.value];
        }
        continue;
      }
      if r.metric == "speedup_vs_c_naive" && r.value.Some? {
        rows := rows + [Row(r.bench, r.family, r.value.value, r.verdict)];
      }
    }
    assert lines[..|lines|] == lines;
    ok := true;
  }

  lemma ReadStep(lines: seq<Line>, r: Rec)
    requires Garbled !in lines
    ensures var rs, more := RecsOf(lines), RecsOf(lines + [Record(r)]);
            Rows(more) == (if IsRow(r) then Rows(rs) + [Row(r.bench, r.family, r.value.value, r.verdict)] else Rows(rs))
            && Floors(more) == (if IsFloor(r) && r.value.Some? then Floors(rs)[r.bench := r.value.value]
                                else Floors(rs))
            && !(IsRow(r) && IsFloor(r))
  {
    var rs := RecsOf(lines);
    assert "speedup_vs_c_naive"[0] != "layout_noise_floor"[0];
    assert (lines + [Record(r)])[..|lines|] == lines;
    assert (rs + [r])[..|rs|] == rs && Rows(rs) + [] == Rows(rs);
  }

  // ------------------------------------------- what the gate is told --

  predicate FloorFor(r: Rec, kernel: string) { IsFloor(r) && r.value.Some? && r.bench == kernel }

  /** A kernel's suite floor: the last the report gives it, if any. */
  function LastFloor(rs: seq<Rec>, kernel: string): (floor: Option<real>)
    ensures floor.None? <==> forall i :: 0 <= i < |rs| ==> !FloorFor(rs[i], kernel)
    ensures floor.Some? ==> exists i :: 0 <= i < |rs| && FloorFor(rs[i], kernel) && rs[i].value == floor
                                        && forall j :: i < j < |rs| ==> !FloorFor(rs[j], kernel)
  {
    if rs == [] then None
    else
      var last := rs[|rs| - 1];
      if FloorFor(last, kernel) then last.value else LastFloor(rs[..|rs| - 1], kernel)
  }

  /** A row's ratio, judged under its kernel's floor. */
  function Rejudged(rs: seq<Rec>, row: Rec): Verdict
    requires IsRow(row)
  {
    Score(1.0, row.value.value, LastFloor(rs, row.bench))
  }

  /** A row whose stored label is not the one its ratio and its floor give. */
  predicate Mislabelled(rs: seq<Rec>, row: Rec) {
    IsRow(row) && row.verdict != "" && row.verdict != Label(Rejudged(rs, row))
  }

  predicate FirstMislabelled(rs: seq<Rec>, i: nat) {
    i < |rs| && Mislabelled(rs, rs[i]) && forall j :: 0 <= j < i ==> !Mislabelled(rs, rs[j])
  }

  /** The places of the gated rows, in the report's order. */
  ghost predicate RowPlaces(rs: seq<Rec>, at: seq<nat>) {
    && (forall k, l :: 0 <= k < l < |at| ==> at[k] < at[l])
    && (forall i: nat :: i in at <==> i < |rs| && IsRow(rs[i]))
  }

  /** The scores are the gated rows', one each and in order. */
  ghost predicate RowByRow(rs: seq<Rec>, scored: seq<Scored>, at: seq<nat>) {
    && RowPlaces(rs, at) && |scored| == |at|
    && (forall k :: 0 <= k < |at| ==> at[k] < |rs| && IsRow(rs[at[k]]) && scored[k] == ScoredRow(rs, rs[at[k]]))
  }

  function ScoredRow(rs: seq<Rec>, row: Rec): Scored
    requires IsRow(row)
  {
    Scored(row.bench, row.family, row.value.value, LastFloor(rs, row.bench), Rejudged(rs, row))
  }

  /** What the gate answers to a report of these records. */
  ghost predicate Decided(rs: seq<Rec>, exceptions: seq<string>, r: Result<(seq<Scored>, Outcome), GateError>) {
    && (r == Err(NoRows) <==> forall i :: 0 <= i < |rs| ==> !IsRow(rs[i]))
    && (forall kernel :: r == Err(Diverged(kernel)) <==>
          exists i: nat :: FirstMislabelled(rs, i) && rs[i].bench == kernel)
    && r != Err(Malformed)
    && (r.Ok? ==> (exists at :: RowByRow(rs, r.value.0, at)) && r.value.1 == GateOutcome(r.value.0, exceptions))
  }

  lemma {:induction false} FloorsAreLast(rs: seq<Rec>, kernel: string)
    ensures LastFloor(rs, kernel) == if kernel in Floors(rs) then Some(Floors(rs)[kernel]) else None
  {
    hide IsFloor;
    if rs != [] {
      FloorsAreLast(rs[..|rs| - 1], kernel);
    }
  }

  predicate FromRec(row: Row, r: Rec) {
    IsRow(r) && row == Row(r.bench, r.family, r.value.value, r.verdict)
  }

  lemma {:induction false} RowsInPlace(rs: seq<Rec>) returns (at: seq<nat>)
    ensures RowPlaces(rs, at) && |at| == |Rows(rs)|
    ensures forall k :: 0 <= k < |at| ==> at[k] < |rs| && FromRec(Rows(rs)[k], rs[at[k]])
  {
    hide IsRow;
    if rs == [] {
      at := [];
    } else {
      var n := |rs| - 1;
      var before := RowsInPlace(rs[..n]);
      at := before + if IsRow(rs[n]) then [n] else [];
      assert rs == rs[..n] + [rs[n]];
      OnePlaceMore(rs[..n], rs[n], before);
      hide RowPlaces, Rows;
      assert Rows(rs) == Rows(rs[..n]) + RowOf(rs[n]);
    }
  }

  lemma OnePlaceMore(rs: seq<Rec>, last: Rec, at: seq<nat>)
    requires RowPlaces(rs, at)
    ensures RowPlaces(rs + [last], at + if IsRow(last) then [|rs|] else [])
  {
    hide IsRow;
    assert forall k :: 0 <= k < |at| ==> at[k] in at;
    var next := at + if IsRow(last) then [|rs|] else [];
    forall i: nat ensures i in next <==> i < |rs| + 1 && IsRow((rs + [last])[i]) {
      assert i in next <==> i in at || (IsRow(last) && i == |rs|);
    }
  }

  lemma {:induction false} RescoreInOrder(rows: seq<Row>, floors: map<string, real>)
    ensures match RescoreAll(rows, floors)
            case Ok(scored) =>
              |scored| == |rows| && forall k :: 0 <= k < |rows| ==> Rescore(rows[k], floors) == Ok(scored[k])
            case Err(e) =>
              exists k :: 0 <= k < |rows| && Rescore(rows[k], floors) == Err(e)
                          && forall j :: 0 <= j < k ==> Rescore(rows[j], floors).Ok?
  {
    hide Rescore;
    if rows != [] && Rescore(rows[0], floors).Ok? {
      RescoreInOrder(rows[1..], floors);
      var rest := RescoreAll(rows[1..], floors);
      assert forall j :: 0 <= j < |rows| - 1 ==> rows[j + 1] == rows[1..][j];
      if rest.Err? {
        var k :| 0 <= k < |rows[1..]| && Rescore(rows[1..][k], floors) == Err(rest.error)
                 && forall j :: 0 <= j < k ==> Rescore(rows[1..][j], floors).Ok?;
        assert Rescore(rows[k + 1], floors) == Err(rest.error);
      }
    }
  }

  /** A stored row scores as its record does, or is the mislabelled one. */
  lemma RescoreOfRec(rs: seq<Rec>, row: Row, r: Rec)
    requires FromRec(row, r)
    ensures Rescore(row, Floors(rs)) == if Mislabelled(rs, r) then Err(Diverged(r.bench)) else Ok(ScoredRow(rs, r))
  {
    FloorsAreLast(rs, r.bench);
    hide Floors, LastFloor, Score;
  }

  lemma OnlyRowsMislead(rs: seq<Rec>, at: seq<nat>, j: nat) returns (l: nat)
    requires RowPlaces(rs, at) && j < |rs| && Mislabelled(rs, rs[j])
    ensures l < |at| && at[l] == j
  {
    assert j in at;
    l :| l < |at| && at[l] == j;
  }

  lemma FirstIsFirst(rs: seq<Rec>, at: seq<nat>, k: nat)
    requires RowPlaces(rs, at) && k < |at| && at[k] < |rs| && Mislabelled(rs, rs[at[k]])
    requires forall l :: 0 <= l < k ==> at[l] < |rs| && !Mislabelled(rs, rs[at[l]])
    ensures forall i: nat :: FirstMislabelled(rs, i) <==> i == at[k]
  {
    forall j | 0 <= j < |rs| && Mislabelled(rs, rs[j]) ensures at[k] <= j {
      var l := OnlyRowsMislead(rs, at, j);
      assert l >= k;
    }
    hide RowPlaces, Mislabelled;
    assert FirstMislabelled(rs, at[k]);
  }

  lemma JudgedIsDecided(rs: seq<Rec>, exceptions: seq<string>)
    ensures Decided(rs, exceptions, Judged(rs, exceptions))
  {
    var rows, floors := Rows(rs), Floors(rs);
    var at := RowsInPlace(rs);
    hide IsRow, Rows, Floors, LastFloor, Rescore, RescoreAll, Mislabelled, GateOutcome, ScoredRow, Decided;
    RescoreInOrder(rows, floors);
    forall k | 0 <= k < |at|
      ensures at[k] < |rs| && IsRow(rs[at[k]])
      ensures Rescore(rows[k], floors)
           == if Mislabelled(rs, rs[at[k]]) then Err(Diverged(rs[at[k]].bench)) else Ok(ScoredRow(rs, rs[at[k]]))
    {
      RescoreOfRec(rs, rows[k], rs[at[k]]);
    }
    var scored := RescoreAll(rows, floors);
    if rows == [] {
      NoRowsDecided(rs, exceptions, at);
    } else if scored.Err? {
      var k :| 0 <= k < |rows| && Rescore(rows[k], floors) == Err(scored.error)
               && forall j :: 0 <= j < k ==> Rescore(rows[j], floors).Ok?;
      DivergedDecided(rs, exceptions, at, k);
    } else {
      ScoredDecided(rs, exceptions, at, scored.value);
    }
  }

  lemma NoRowsDecided(rs: seq<Rec>, exceptions: seq<string>, at: seq<nat>)
    requires RowPlaces(rs, at) && at == []
    ensures Decided(rs, exceptions, Err(NoRows))
  {
    hide IsRow, LastFloor, Rejudged, GateOutcome, RowByRow;
  }

  lemma DivergedDecided(rs: seq<Rec>, exceptions: seq<string>, at: seq<nat>, k: nat)
    requires RowPlaces(rs, at) && k < |at| && at[k] < |rs| && IsRow(rs[at[k]]) && Mislabelled(rs, rs[at[k]])
    requires forall l :: 0 <= l < k ==> at[l] < |rs| && !Mislabelled(rs, rs[at[l]])
    ensures Decided(rs, exceptions, Err(Diverged(rs[at[k]].bench)))
  {
    FirstIsFirst(rs, at, k);
    hide IsRow, Mislabelled, GateOutcome, RowByRow, FirstMislabelled, RowPlaces;
    assert IsRow(rs[at[k]]) && FirstMislabelled(rs, at[k]);
  }

  lemma NoneIsFirst(rs: seq<Rec>, at: seq<nat>)
    requires RowPlaces(rs, at)
    requires forall k :: 0 <= k < |at| ==> at[k] < |rs| && !Mislabelled(rs, rs[at[k]])
    ensures forall i: nat :: !FirstMislabelled(rs, i)
  {
    forall i: nat ensures !FirstMislabelled(rs, i) {
      if i < |rs| && Mislabelled(rs, rs[i]) {
        var l := OnlyRowsMislead(rs, at, i);
      }
    }
  }

  lemma ScoredDecided(rs: seq<Rec>, exceptions: seq<string>, at: seq<nat>, scored: seq<Scored>)
    requires RowPlaces(rs, at) && at != [] && |scored| == |at|
    requires forall k :: 0 <= k < |at| ==>
               at[k] < |rs| && IsRow(rs[at[k]]) && !Mislabelled(rs, rs[at[k]]) && scored[k] == ScoredRow(rs, rs[at[k]])
    ensures Decided(rs, exceptions, Ok((scored, GateOutcome(scored, exceptions))))
  {
    hide IsRow, Mislabelled, GateOutcome, ScoredRow, FirstMislabelled, RowPlaces;
    NoneIsFirst(rs, at);
    assert IsRow(rs[at[0]]);
    assert RowByRow(rs, scored, at);
    hide RowByRow;
  }

  /** The gate's answer to a report of these records. */
  lemma GateDecides(rs: seq<Rec>, exceptions: seq<string>)
    ensures Decided(rs, exceptions, GateOf(LinesOf(rs), exceptions))
  {
    hide Decided, Judged;
    ReadBack(rs);
    JudgedIsDecided(rs, exceptions);
  }

  method GateEval(lines: seq<Line>, exceptions: seq<string>)
      returns (r: Result<(seq<Scored>, Outcome), GateError>)
    ensures r == GateOf(lines, exceptions)
    ensures r == Err(Malformed) <==> Garbled in lines
    ensures forall rs :: lines == LinesOf(rs) ==> Decided(rs, exceptions, r)
  {
    forall rs | lines == LinesOf(rs) ensures Decided(rs, exceptions, GateOf(lines, exceptions)) {
      GateDecides(rs, exceptions);
    }
    hide Decided;
    var ok, floors, rows := ReadReport(lines);
    if !ok {
      return Err(Malformed);
    }
    if rows == [] {
      return Err(NoRows);
    }
    var scored: seq<Scored> := [];
    assert rows[0..] == rows;
    OntoNothing(RescoreAll(rows, floors));
    for i := 0 to |rows|
      invariant RescoreAll(rows, floors) == Onto(scored, RescoreAll(rows[i..], floors))
    {
      hide Rescore;
      assert rows[i..][1..] == rows[i + 1..];
      match Rescore(rows[i], floors) {
        case Err(e) => return Err(e);
        case Ok(s) =>
          OntoStep(scored, s, RescoreAll(rows[i + 1..], floors));
          scored := scored + [s];
      }
    }
    assert scored + [] == scored;
    var outcome := EvaluateGate(scored, exceptions);
    r := Ok((scored, outcome));
  }

  // ------------------------------------------------------- main results --

  predicate DistinctNames(ks: seq<Kernel>) {
    Distinct(KernelNames(ks))
  }

  function KernelNames(ks: seq<Kernel>): (names: seq<string>)
    ensures |names| == |ks| && forall i :: 0 <= i < |ks| ==> names[i] == ks[i].name
  {
    seq(|ks|, i requires 0 <= i < |ks| => ks[i].name)
  }

  lemma DistinctNamesInit(ks: seq<Kernel>)
    requires ks != [] && DistinctNames(ks)
    ensures var n := |ks| - 1;
            DistinctNames(ks[..n]) && forall k | k in ks[..n] :: k.name != ks[n].name
  {
    var n := |ks| - 1;
    var names := KernelNames(ks);
    assert KernelNames(ks[..n]) == names[..n];
    forall k | k in ks[..n] ensures k.name != ks[n].name {
      var i :| 0 <= i < n && ks[i] == k;
      assert names[i] != names[n];
    }
  }

  predicate QuietBesides(k: Kernel) { Quiet(k.samples) && Quiet(k.medians) && Quiet(k.others) }

  predicate QuietKernels(ks: seq<Kernel>) {
    forall k | k in ks :: QuietBesides(k)
  }

  lemma {:induction false} RowsConcat(a: seq<Rec>, b: seq<Rec>)
    ensures Rows(a + b) == Rows(a) + Rows(b) && Floors(a + b) == Floors(a) + Floors(b)
  {
    hide RowOf, IsFloor;
    if b == [] {
      assert a + b == a;
    } else {
      assert (a + b)[..|a + b| - 1] == a + b[..|b| - 1];
      RowsConcat(a, b[..|b| - 1]);
    }
  }

  lemma {:induction false} QuietSaysNothing(rs: seq<Rec>)
    requires Quiet(rs)
    ensures Rows(rs) == [] && Floors(rs) == map[]
  {
    if rs != [] {
      assert rs[|rs| - 1] in rs;
      QuietSaysNothing(rs[..|rs| - 1]);
    }
  }

  lemma {:induction false} LanesAreQuiet(k: Kernel, lanes: seq<string>)
    requires "suite" !in lanes
    ensures Quiet(LaneRecs(k, lanes))
  {
    hide NoiseFloor;
    assert "speedup_vs_c_naive"[0] != "layout_noise_floor"[0];
    if lanes != [] {
      assert lanes[|lanes| - 1] in lanes;
      LanesAreQuiet(k, lanes[..|lanes| - 1]);
    }
  }

  /** What the gate reads of one kernel's records: its row and its floor. */
  lemma EmittedSays(k: Kernel)
    requires QuietBesides(k)
    ensures Rows(Emitted(k)) == RowsOf(k)
    ensures Floors(Emitted(k)) == if FloorOf(k).Some? then map[k.name := FloorOf(k).value] else map[]
  {
    FloorRecSays(k);
    RowRecSays(k);
    assert "suite" !in FLOOR_LANES by { assert |"suite"| == 5 && |"wolf"| == 4 && |"c_naive"| == 7; }
    LanesAreQuiet(k, FLOOR_LANES);
    hide FloorOf, ScoredOf, FloorRecs, RowRecs, RowsOf, LaneRecs;
    QuietSaysNothing(k.samples + LaneRecs(k, FLOOR_LANES));
    QuietSaysNothing(k.medians);
    QuietSaysNothing(k.others);
    Five(k.samples + LaneRecs(k, FLOOR_LANES), FloorRecs(k), k.medians, RowRecs(k), k.others);
  }

  lemma Five(a: seq<Rec>, b: seq<Rec>, c: seq<Rec>, d: seq<Rec>, e: seq<Rec>)
    requires Rows(a) == [] && Rows(b) == [] && Rows(c) == [] && Rows(e) == []
    requires Floors(a) == map[] && Floors(c) == map[] && Floors(d) == map[] && Floors(e) == map[]
    ensures Rows(a + b + c + d + e) == Rows(d) && Floors(a + b + c + d + e) == Floors(b)
  {
    hide Rows, Floors;
    RowsConcat(a, b);
    RowsConcat(a + b, c);
    RowsConcat(a + b + c, d);
    RowsConcat(a + b + c + d, e);
    assert [] + Rows(d) + [] == Rows(d);
    assert map[] + Floors(b) + map[] == Floors(b);
  }

  lemma FloorRecSays(k: Kernel)
    ensures Rows(FloorRecs(k)) == []
    ensures Floors(FloorRecs(k)) == if FloorOf(k).Some? then map[k.name := FloorOf(k).value] else map[]
  {
    hide FloorOf;
    assert "speedup_vs_c_naive"[0] != "layout_noise_floor"[0];
    if FloorOf(k).Some? {
      OneRec(FloorRecs(k)[0]);
    }
  }

  lemma RowRecSays(k: Kernel)
    ensures Rows(RowRecs(k)) == RowsOf(k) && Floors(RowRecs(k)) == map[]
  {
    hide ScoredOf;
    assert "speedup_vs_c_naive"[0] != "layout_noise_floor"[0];
    if ScoredOf(k).Some? {
      OneRec(RowRecs(k)[0]);
    }
  }

  lemma OneRec(r: Rec)
    ensures Rows([r]) == RowOf(r)
    ensures Floors([r]) == if IsFloor(r) && r.value.Some? then map[r.bench := r.value.value] else map[]
  {
    hide IsRow, IsFloor, RowOf;
    assert [r][..0] == [] && Rows([]) == [] && Floors([]) == map[];
    assert [] + RowOf(r) == RowOf(r);
  }

  /** What a report's floors say of its kernels. */
  predicate FloorsAre(floors: map<string, real>, ks: seq<Kernel>) {
    && (forall k | k in ks :: FloorOf(k) == if k.name in floors then Some(floors[k.name]) else None)
    && (forall name | name in floors :: exists k | k in ks :: k.name == name)
  }

  lemma FloorsGrow(floors: map<string, real>, ks: seq<Kernel>, last: Kernel)
    requires FloorsAre(floors, ks)
    requires forall k | k in ks :: k.name != last.name
    ensures FloorsAre(floors + (if FloorOf(last).Some? then map[last.name := FloorOf(last).value] else map[]),
                      ks + [last])
  {
    hide FloorOf;
    var all := ks + [last];
    assert last in all && forall k :: k in all <==> k in ks || k == last;
    assert last.name !in floors;
  }

  /** The floors a report stores: each kernel's own, under its name. */
  lemma {:induction false} FloorsOfRun(ks: seq<Kernel>)
    requires DistinctNames(ks) && QuietKernels(ks)
    ensures FloorsAre(Floors(AllRecs(ks)), ks)
  {
    hide FloorOf, Emitted;
    if ks != [] {
      hide FloorsAre;
      var n := |ks| - 1;
      var init, last := ks[..n], ks[n];
      assert ks == init + [last];
      DistinctNamesInit(ks);
      FloorsOfRun(init);
      EmittedSays(last);
      RowsConcat(AllRecs(init), Emitted(last));
      FloorsGrow(Floors(AllRecs(init)), init, last);
    }
  }

  /** A kernel's row, with its floor, scores as it did live. */
  lemma RescoreIsLive(k: Kernel, floors: map<string, real>)
    requires ScoredOf(k).Some?
    requires FloorOf(k) == if k.name in floors then Some(floors[k.name]) else None
    ensures Rescore(RowsOf(k)[0], floors) == Ok(ScoredOf(k).value)
  {
    hide FloorOf, Score;
    ScoreOfRatio(k.wolf.value, k.naive.value, FloorOf(k));
  }

  lemma {:induction false} RescoreConcat(a: seq<Row>, b: seq<Row>, floors: map<string, real>, scored: seq<Scored>)
    requires RescoreAll(a, floors) == Ok(scored)
    ensures RescoreAll(a + b, floors) == Onto(scored, RescoreAll(b, floors))
  {
    hide Rescore;
    if a == [] {
      assert a + b == b;
      var rest := RescoreAll(b, floors);
      assert rest.Ok? ==> [] + rest.value == rest.value;
    } else {
      assert (a + b)[1..] == a[1..] + b;
      var rest := RescoreAll(a[1..], floors).value;
      RescoreConcat(a[1..], b, floors, rest);
      var s := Rescore(a[0], floors).value;
      OntoAgain(s, rest, RescoreAll(b, floors));
    }
  }

  lemma RescoreOfKernel(k: Kernel, floors: map<string, real>)
    requires FloorOf(k) == if k.name in floors then Some(floors[k.name]) else None
    ensures RescoreAll(RowsOf(k), floors) == Ok(ScoredSeq(k)) && |RowsOf(k)| == |ScoredSeq(k)|
  {
    hide Rescore, ScoredOf, FloorOf;
    if ScoredOf(k).Some? {
      RescoreIsLive(k, floors);
      var row := RowsOf(k);
      assert row[1..] == [] && RescoreAll([], floors) == Ok([]);
      assert [ScoredOf(k).value] + [] == [ScoredOf(k).value];
    }
  }

  lemma {:induction false} RescoreOfRun(ks: seq<Kernel>, floors: map<string, real>)
    requires QuietKernels(ks)
    requires forall k | k in ks :: FloorOf(k) == if k.name in floors then Some(floors[k.name]) else None
    ensures RescoreAll(Rows(AllRecs(ks)), floors) == Ok(AllScored(ks))
    ensures |Rows(AllRecs(ks))| == |AllScored(ks)|
  {
    if ks != [] {
      hide FloorOf, Emitted, ScoredOf, Rescore, ScoredSeq, RowsOf;
      var n := |ks| - 1;
      var init, last := ks[..n], ks[n];
      assert last in ks && forall k | k in init :: k in ks;
      RescoreOfRun(init, floors);
      EmittedSays(last);
      RowsConcat(AllRecs(init), Emitted(last));
      RescoreConcat(Rows(AllRecs(init)), RowsOf(last), floors, AllScored(init));
      RescoreOfKernel(last, floors);
    }
  }

  /** The gate read back from a run's own records is the live gate: the same
      scores, the same outcome, and never the "diverged" error. */
  lemma StoredGateIsLive(ks: seq<Kernel>, suite: seq<Rec>, exceptions: seq<string>)
    requires DistinctNames(ks) && QuietKernels(ks) && Quiet(suite)
    ensures GateOf(LinesOf(AllRecs(ks) + suite), exceptions)
         == if AllScored(ks) == [] then Err(NoRows)
            else Ok((AllScored(ks), GateOutcome(AllScored(ks), exceptions)))
  {
    hide FloorOf, GateOutcome, AllRecs, AllScored, Rows, Floors, RescoreAll, RecsOf, LinesOf, QuietKernels,
      DistinctNames;
    ReadBack(AllRecs(ks) + suite);
    RowsConcat(AllRecs(ks), suite);
    QuietSaysNothing(suite);
    FloorsOfRun(ks);
    var floors := Floors(AllRecs(ks));
    assert floors + map[] == floors;
    assert Rows(AllRecs(ks)) + [] == Rows(AllRecs(ks));
    RescoreOfRun(ks, floors);
    assert |Rows(AllRecs(ks))| == 0 <==> |AllScored(ks)| == 0;
  }

  /** What a run scores is what its ratios say. */
  lemma {:induction false} ScoresAreTheirRatios(ks: seq<Kernel>)
    ensures forall s | s in AllScored(ks) :: s.speedup > 0.0 && s.verdict == Score(1.0, s.speedup, s.floor)
  {
    if ks != [] {
      var last := ks[|ks| - 1];
      ScoresAreTheirRatios(ks[..|ks| - 1]);
      hide FloorOf, Score;
      if ScoredOf(last).Some? {
        ScoreOfRatio(last.wolf.value, last.naive.value, FloorOf(last));
      }
    }
  }

  /** The gate over a run's own report holds exactly when the run's raw ratios meet the contract. */
  lemma StoredGateHolds(ks: seq<Kernel>, suite: seq<Rec>, exceptions: seq<string>)
    requires DistinctNames(ks) && QuietKernels(ks) && Quiet(suite)
    ensures var r := GateOf(LinesOf(AllRecs(ks) + suite), exceptions);
            (r.Ok? && r.value.1.holds) <==> MeetsContract(AllScored(ks), exceptions)
  {
    hide GateOf, GateOutcome, AllScored, AllRecs, LinesOf, Score, FarBehind, Product;
    StoredGateIsLive(ks, suite, exceptions);
    ScoresAreTheirRatios(ks);
    GateHolds(AllScored(ks), exceptions);
  }
}
