/** One pass of the differential over the corpus, and the control diff of two
    passes: `differ_pass` and `control_diff` of xtask/src/main.rs. Running an
    implementation on a file is an input. */
module Differ {
  import opened Wrappers
  import opened Text
  import opened Sorting
  import opened RunCheck
  import opened Protocol

  /** A corpus file: its path, what its header says, and the two records, unless
      a run failed. */
  datatype Run = Run(key: string, member: bool, forward: bool, records: Option<(Json, Json)>)

  datatype Label =
    InvalidA | InvalidB | Declined | Agreement | Completeness | Unsound | Divergent(cls: Class)

  /** The class names the ledger and the report print. */
  function Name(l: Label): string {
    match l
    case InvalidA => "invalid-A"
    case InvalidB => "invalid-B"
    case Declined => "unsupported"
    case Agreement => "agreement"
    case Completeness => "Completeness"
    case Unsound => "SOUNDNESS"
    case Divergent(Soundness) => "Soundness"
    case Divergent(VerdictClass) => "Verdict"
    case Divergent(Diag) => "Diag"
    case Divergent(SpanWidth) => "SpanWidth"
    case Divergent(Stdout) => "Stdout"
  }

  /** The trap a statically refused program would have raised, if it has one. */
  function StaticTrap(code: string): Option<string> {
    if code == "E1001" then Some("use-after-move")
    else if code in ["E1002", "E1013", "E1014"] then Some("exclusivity")
    else if code in ["E1004", "E1005", "E1010", "E1011", "E1012"] then Some("region-fault")
    else if code == "E1101" then Some("race")
    else if code == "E1103" then Some("deadlock")
    else None
  }

  predicate Ran(verdict: string) {
    "exit(" <= verdict || "trap(" <= verdict || "ub(" <= verdict
  }

  /** What the record says under the key; nothing where it says no text. */
  predicate Says(r: Json, key: string, text: string) {
    GetStr(r, key) == Some(text) || (GetStr(r, key).None? && text == "")
  }

  function VerdictText(r: Json): (text: string)
    ensures Says(r, "verdict", text)
  {
    Or(GetStr(r, "verdict"), "")
  }

  predicate Seeded(r: Json) { Get(r, "seeded") == Some(Bool(true)) }

  /** What the triage, or the plain comparison, files the pair under last. */
  function Outcome(a: Json, b: Json, triage: bool): Option<Label> {
    var va, vb := VerdictText(a), VerdictText(b);
    var code := Between(va, "fail(", ")");
    if triage && code.Some? then
      if StaticTrap(code.value).Some? && vb == "trap(" + StaticTrap(code.value).value + ")"
      then Some(Agreement) else Some(Completeness)
    else if triage && ("exit(" <= va || va == "pass") && ("trap(" <= vb || "ub(" <= vb) then Some(Unsound)
    else match Compare(a, b, !Seeded(a) || !Seeded(b))
      case Some(cls) => Some(Divergent(cls))
      case None => if va == vb && Ran(va) then Some(Agreement) else None
  }

  /** At least one side declined the file. */
  predicate Declines(a: Json, b: Json) {
    VerdictText(a) == "unsupported" || VerdictText(b) == "unsupported"
  }

  /** A file's ledger row. */
  function RowOf(a: Json, b: Json, triage: bool): seq<Label> {
    Row(ValidateRecord(a).None?, ValidateRecord(b).None?, Declines(a, b), Outcome(a, b, triage))
  }

  function Row(invalidA: bool, invalidB: bool, declined: bool, out: Option<Label>): seq<Label> {
    (if invalidA then [InvalidA] else []) + (if invalidB then [InvalidB] else [])
    + (if declined then [Declined] else []) + (match out case Some(l) => [l] case None => [])
  }

  // ----------------------------------------- classes by the two verdicts --

  /** The rejections that foresee a trap, and the trap each foresees. */
  const FORESEEN: seq<(string, string)> :=
    [("E1001", "use-after-move"), ("E1002", "exclusivity"), ("E1013", "exclusivity"), ("E1014", "exclusivity"),
     ("E1004", "region-fault"), ("E1005", "region-fault"), ("E1010", "region-fault"), ("E1011", "region-fault"),
     ("E1012", "region-fault"), ("E1101", "race"), ("E1103", "deadlock")]

  predicate Rejected(verdict: string) {
    "fail(" <= verdict && |verdict| > 5 && verdict[|verdict| - 1] == ')'
  }

  predicate Accepted(verdict: string) { "exit(" <= verdict || verdict == "pass" }

  predicate Faulted(verdict: string) { "trap(" <= verdict || "ub(" <= verdict }

  /** A rejected statically exactly what B then ran into. */
  predicate Foreseen(va: string, vb: string) {
    exists p | p in FORESEEN :: va == "fail(" + p.0 + ")" && vb == "trap(" + p.1 + ")"
  }

  /** Under triage, two verdicts that are not put to the plain comparison. */
  predicate Triaged(va: string, vb: string) {
    Rejected(va) || (Accepted(va) && Faulted(vb))
  }

  /** What the plain comparison says of two records. */
  function Compared(a: Json, b: Json): Option<Class> {
    Compare(a, b, !(Get(a, "seeded") == Some(Bool(true)) && Get(b, "seeded") == Some(Bool(true))))
  }

  /** What it takes for a pair of records to be filed under a class. */
  predicate Earns(a: Json, b: Json, triage: bool, l: Label) {
    var va, vb := VerdictText(a), VerdictText(b);
    match l
    case InvalidA => ValidateRecord(a).None?
    case InvalidB => ValidateRecord(b).None?
    case Declined => va == "unsupported" || vb == "unsupported"
    case Unsound => triage && Accepted(va) && Faulted(vb)
    case Completeness => triage && Rejected(va) && !Foreseen(va, vb)
    case Divergent(cls) => !(triage && Triaged(va, vb)) && Compared(a, b) == Some(cls)
    case Agreement =>
      (triage && Foreseen(va, vb)) ||
      (!(triage && Triaged(va, vb)) && Compared(a, b) == None && va == vb && (Faulted(va) || "exit(" <= va))
  }

  /** The order in which a row lists its classes; the last four exclude one another. */
  function Rank(l: Label): nat {
    match l case InvalidA => 0 case InvalidB => 1 case Declined => 2 case _ => 3
  }

  lemma StaticTrapIsTabled(code: string, kind: string)
    ensures StaticTrap(code) == Some(kind) <==> (code, kind) in FORESEEN
    ensures StaticTrap(code) == Some(kind) ==> kind in TRAP_KINDS
  {
  }

  lemma RejectedMeans(va: string, vb: string)
    ensures var code := Between(va, "fail(", ")");
            (code.Some? <==> Rejected(va))
            && (code.Some? ==> va == "fail(" + code.value + ")")
            && (Foreseen(va, vb) <==> code.Some? && StaticTrap(code.value).Some?
                                      && vb == "trap(" + StaticTrap(code.value).value + ")")
  {
    hide StaticTrap, FORESEEN;
    var code := Between(va, "fail(", ")");
    if Foreseen(va, vb) {
      var p :| p in FORESEEN && va == "fail(" + p.0 + ")" && vb == "trap(" + p.1 + ")";
      BetweenOf("fail(", p.0, ")");
      StaticTrapIsTabled(p.0, p.1);
    }
    if code.Some? && StaticTrap(code.value).Some? {
      StaticTrapIsTabled(code.value, StaticTrap(code.value).value);
    }
  }

  lemma OutcomeMeans(a: Json, b: Json, triage: bool, l: Label)
    requires Rank(l) == 3
    ensures Outcome(a, b, triage) == Some(l) <==> Earns(a, b, triage, l)
  {
    var va, vb := VerdictText(a), VerdictText(b);
    RejectedMeans(va, vb);
    RejectedNotAccepted(va);
    hide Compare, Between, StaticTrap, Foreseen, VerdictText, Get, Rejected;
  }

  lemma RejectedNotAccepted(verdict: string)
    ensures Rejected(verdict) ==> !Accepted(verdict)
  {
    assert "pass"[0] == 'p' && "exit("[0] == 'e';
    assert "fail(" <= verdict ==> verdict[0] == "fail("[0] == 'f';
  }

  /** A row lists, each once and in this order, exactly the classes its two records earn. */
  lemma RowMeans(a: Json, b: Json, triage: bool)
    ensures forall l :: l in RowOf(a, b, triage) <==> Earns(a, b, triage, l)
    ensures var row := RowOf(a, b, triage); forall i, j :: 0 <= i < j < |row| ==> Rank(row[i]) < Rank(row[j])
  {
    OutcomeIsAClass(a, b, triage);
    hide Outcome, Earns, ValidateRecord, Declines, Row;
    EarnsBefore(a, b, triage);
    ListsFour(ValidateRecord(a).None?, ValidateRecord(b).None?, Declines(a, b), Outcome(a, b, triage));
    forall l ensures l in RowOf(a, b, triage) <==> Earns(a, b, triage, l) {
      if Rank(l) == 3 {
        OutcomeMeans(a, b, triage, l);
      }
    }
  }

  lemma EarnsBefore(a: Json, b: Json, triage: bool)
    ensures Earns(a, b, triage, InvalidA) <==> ValidateRecord(a).None?
    ensures Earns(a, b, triage, InvalidB) <==> ValidateRecord(b).None?
    ensures Earns(a, b, triage, Declined) <==> Declines(a, b)
  {
    hide ValidateRecord, VerdictText;
  }

  lemma ListsFour(invalidA: bool, invalidB: bool, declined: bool, out: Option<Label>)
    requires out.Some? ==> Rank(out.value) == 3
    ensures var row := Row(invalidA, invalidB, declined, out);
            (forall l :: l in row <==> (l == InvalidA && invalidA) || (l == InvalidB && invalidB)
                                       || (l == Declined && declined) || out == Some(l))
            && forall i, j :: 0 <= i < j < |row| ==> Rank(row[i]) < Rank(row[j])
  {
    var a := if invalidA then [InvalidA] else [];
    var b := if invalidB then [InvalidB] else [];
    var c := if declined then [Declined] else [];
    var d := match out case Some(l) => [l] case None => [];
    var row := a + b + c + d;
    forall l ensures l in row <==> l in a || l in b || l in c || l in d { }
  }

  datatype Pass = Pass(
    agreements: nat, completeness: nat, soundness: nat, unsupported: nat, forwardPins: nat,
    divergences: nat, entries: nat, aRun: nat, bRun: nat, bothRun: nat,
    ledger: map<string, seq<Label>>, bSide: map<string, (string, string)>)

  // ------------------------------------------------------ what is counted --

  /** The files whose ledger row carries a class. */
  function Carrying(ledger: map<string, seq<Label>>, l: Label): set<string> {
    set f | f in ledger && l in ledger[f]
  }

  /** Every counter is the number of rows of its class, and every row has B's side. */
  ghost predicate Balanced(p: Pass) {
    && p.entries == |p.ledger|
    && p.agreements == |Carrying(p.ledger, Agreement)|
    && p.completeness == |Carrying(p.ledger, Completeness)|
    && p.soundness == |Carrying(p.ledger, Unsound)|
    && p.unsupported == |Carrying(p.ledger, Declined)|
    && p.bSide.Keys == p.ledger.Keys
  }

  /** B's answer to a file: its verdict and the digest of what it printed. */
  function SideOf(b: Json): (string, string) {
    (VerdictText(b), Or(GetStr(b, "stdout_sha256"), ""))
  }

  predicate IsFault(l: Label) { l.InvalidA? || l.InvalidB? || l.Unsound? || l.Divergent? }

  /** What the counters count: a class, a divergence of any class, a forward
      pin, the lanes that ran, and a run that failed. */
  datatype Mark = Filed(under: Label) | Diverged | Pinned | RanOnA | RanOnB | RanOnBoth | Crashed

  ghost predicate Marked(run: Run, triage: bool, m: Mark) {
    !run.member
    && match run.records
       case None => m.Crashed?
       case Some((a, b)) =>
         match m
         case Crashed => false
         case Filed(l) => Earns(a, b, triage, l)
         case Diverged => exists cls :: Earns(a, b, triage, Divergent(cls))
         case Pinned => run.forward && Earns(a, b, triage, Declined)
         case RanOnA => CoveredAtRun(a)
         case RanOnB => CoveredAtRun(b)
         case RanOnBoth => CoveredAtRun(a) && CoveredAtRun(b)
  }

  /** The files with a mark, by their place in the corpus. */
  ghost function Places(runs: seq<Run>, triage: bool, m: Mark): set<int> {
    set i | 0 <= i < |runs| && Marked(runs[i], triage, m)
  }

  ghost function Count(runs: seq<Run>, triage: bool, m: Mark): nat {
    |Places(runs, triage, m)|
  }

  /** Every counter is the number of the files with its mark. */
  ghost predicate Tallied(p: Pass, runs: seq<Run>, triage: bool) {
    && p.agreements == Count(runs, triage, Filed(Agreement))
    && p.completeness == Count(runs, triage, Filed(Completeness))
    && p.soundness == Count(runs, triage, Filed(Unsound))
    && p.unsupported == Count(runs, triage, Filed(Declined))
    && p.forwardPins == Count(runs, triage, Pinned)
    && p.aRun == Count(runs, triage, RanOnA)
    && p.bRun == Count(runs, triage, RanOnB)
    && p.bothRun == Count(runs, triage, RanOnBoth)
    && p.divergences == Count(runs, triage, Crashed) + Count(runs, triage, Diverged)
                        + Count(runs, triage, Filed(Unsound))
                        + Count(runs, triage, Filed(InvalidA)) + Count(runs, triage, Filed(InvalidB))
  }

  /** One file's marks, counted. */
  ghost predicate Counts(before: Pass, p: Pass, run: Run, triage: bool) {
    && p.agreements == before.agreements + One(Marked(run, triage, Filed(Agreement)))
    && p.completeness == before.completeness + One(Marked(run, triage, Filed(Completeness)))
    && p.soundness == before.soundness + One(Marked(run, triage, Filed(Unsound)))
    && p.unsupported == before.unsupported + One(Marked(run, triage, Filed(Declined)))
    && p.forwardPins == before.forwardPins + One(Marked(run, triage, Pinned))
    && p.aRun == before.aRun + One(Marked(run, triage, RanOnA))
    && p.bRun == before.bRun + One(Marked(run, triage, RanOnB))
    && p.bothRun == before.bothRun + One(Marked(run, triage, RanOnBoth))
    && p.divergences == before.divergences + One(Marked(run, triage, Crashed)) + One(Marked(run, triage, Diverged))
                        + One(Marked(run, triage, Filed(Unsound)))
                        + One(Marked(run, triage, Filed(InvalidA))) + One(Marked(run, triage, Filed(InvalidB)))
  }

  lemma CountStart(triage: bool, m: Mark)
    ensures Count([], triage, m) == 0
  {
    assert Places([], triage, m) == {};
  }

  lemma CountOneMore(runs: seq<Run>, run: Run, triage: bool, m: Mark)
    ensures Count(runs + [run], triage, m) == Count(runs, triage, m) + One(Marked(run, triage, m))
  {
    hide Marked;
    assert Places(runs + [run], triage, m) == Places(runs, triage, m) + if Marked(run, triage, m) then {|runs|} else {};
  }

  lemma TalliedStart(triage: bool)
    ensures Tallied(NO_PASS, [], triage)
  {
    hide Count, Marked;
    forall m ensures Count([], triage, m) == 0 {
      CountStart(triage, m);
    }
  }

  lemma TalliedOneMore(before: Pass, p: Pass, runs: seq<Run>, run: Run, triage: bool)
    requires Tallied(before, runs, triage) && Counts(before, p, run, triage)
    ensures Tallied(p, runs + [run], triage)
  {
    hide Count, Marked;
    forall m ensures Count(runs + [run], triage, m) == Count(runs, triage, m) + One(Marked(run, triage, m)) {
      CountOneMore(runs, run, triage, m);
    }
  }

  lemma UncountedSkip(before: Pass, p: Pass, run: Run, triage: bool)
    requires !IsEntry(run)
    requires p == if run.member then before else before.(divergences := before.divergences + 1)
    ensures Counts(before, p, run, triage)
  {
  }

  lemma EntryMarks(run: Run, a: Json, b: Json, triage: bool)
    requires !run.member && run.records == Some((a, b))
    ensures var out := Outcome(a, b, triage);
            (Marked(run, triage, Filed(Agreement)) <==> out == Some(Agreement))
            && (Marked(run, triage, Filed(Completeness)) <==> out == Some(Completeness))
            && (Marked(run, triage, Filed(Unsound)) <==> out == Some(Unsound))
            && (Marked(run, triage, Diverged) <==> out.Some? && out.value.Divergent?)
    ensures !Marked(run, triage, Crashed)
    ensures Marked(run, triage, Filed(InvalidA)) <==> ValidateRecord(a).None?
    ensures Marked(run, triage, Filed(InvalidB)) <==> ValidateRecord(b).None?
    ensures Marked(run, triage, Filed(Declined)) <==> Declines(a, b)
    ensures Marked(run, triage, Pinned) <==> run.forward && Declines(a, b)
    ensures Marked(run, triage, RanOnA) <==> CoveredAtRun(a)
    ensures Marked(run, triage, RanOnB) <==> CoveredAtRun(b)
    ensures Marked(run, triage, RanOnBoth) <==> CoveredAtRun(a) && CoveredAtRun(b)
  {
    hide Outcome, Earns, ValidateRecord, Declines, CoveredAtRun;
    EarnsBefore(a, b, triage);
    forall l | Rank(l) == 3 ensures Outcome(a, b, triage) == Some(l) <==> Earns(a, b, triage, l) {
      OutcomeMeans(a, b, triage, l);
    }
    if Outcome(a, b, triage).Some? && Outcome(a, b, triage).value.Divergent? {
      assert Earns(a, b, triage, Divergent(Outcome(a, b, triage).value.cls));
    }
  }

  lemma EntryCounts(before: Pass, p: Pass, run: Run, a: Json, b: Json, triage: bool)
    requires !run.member && run.records == Some((a, b))
    requires p.agreements == before.agreements + One(Outcome(a, b, triage) == Some(Agreement))
    requires p.completeness == before.completeness + One(Outcome(a, b, triage) == Some(Completeness))
    requires p.soundness == before.soundness + One(Outcome(a, b, triage) == Some(Unsound))
    requires p.unsupported == before.unsupported + One(Declines(a, b))
    requires p.forwardPins == before.forwardPins + One(run.forward && Declines(a, b))
    requires p.aRun == before.aRun + One(CoveredAtRun(a)) && p.bRun == before.bRun + One(CoveredAtRun(b))
    requires p.bothRun == before.bothRun + One(CoveredAtRun(a) && CoveredAtRun(b))
    requires p.divergences == before.divergences + One(ValidateRecord(a).None?) + One(ValidateRecord(b).None?)
                              + One(Faulty(Outcome(a, b, triage)))
    ensures Counts(before, p, run, triage)
  {
    EntryMarks(run, a, b, triage);
    hide Outcome, ValidateRecord, CoveredAtRun, Declines, Marked;
  }

  predicate IsEntry(r: Run) { !r.member && r.records.Some? }

  /** The paths of the files that become entries, in order. */
  function EntryKeys(runs: seq<Run>): seq<string> {
    if runs == [] then []
    else
      var last := runs[|runs| - 1];
      EntryKeys(runs[..|runs| - 1]) + if IsEntry(last) then [last.key] else []
  }

  function Elements(keys: seq<string>): set<string> {
    set k | k in keys
  }

  lemma {:induction false} DistinctIsCounted(keys: seq<string>)
    ensures |Elements(keys)| <= |keys| && (|Elements(keys)| == |keys| <==> Distinct(keys))
  {
    if keys != [] {
      var n := |keys| - 1;
      DistinctIsCounted(keys[..n]);
      assert keys == keys[..n] + [keys[n]];
      assert Elements(keys) == Elements(keys[..n]) + {keys[n]};
      if keys[n] in keys[..n] {
        assert Elements(keys) == Elements(keys[..n]);
      } else {
        assert Distinct(keys) == Distinct(keys[..n]);
      }
    }
  }

  lemma CarryingOneMore(ledger: map<string, seq<Label>>, f: string, row: seq<Label>, l: Label)
    requires f !in ledger
    ensures |Carrying(ledger[f := row], l)| == |Carrying(ledger, l)| + if l in row then 1 else 0
    ensures |ledger[f := row]| == |ledger| + 1
  {
    assert Carrying(ledger[f := row], l) == Carrying(ledger, l) + if l in row then {f} else {};
  }

  function One(b: bool): nat { if b then 1 else 0 }

  lemma BalancedOneMore(p: Pass, q: Pass, f: string, row: seq<Label>)
    requires Balanced(p) && f !in p.ledger
    requires q.ledger == p.ledger[f := row] && q.bSide.Keys == p.bSide.Keys + {f}
    requires q.entries == p.entries + 1
    requires q.agreements == p.agreements + One(Agreement in row)
    requires q.completeness == p.completeness + One(Completeness in row)
    requires q.soundness == p.soundness + One(Unsound in row)
    requires q.unsupported == p.unsupported + One(Declined in row)
    ensures Balanced(q)
  {
    hide Carrying;
    CarryingOneMore(p.ledger, f, row, Agreement);
    CarryingOneMore(p.ledger, f, row, Completeness);
    CarryingOneMore(p.ledger, f, row, Unsound);
    CarryingOneMore(p.ledger, f, row, Declined);
  }

  lemma RowCarries(a: Json, b: Json, triage: bool)
    ensures var row, out := RowOf(a, b, triage), Outcome(a, b, triage);
            (Agreement in row <==> out == Some(Agreement))
            && (Completeness in row <==> out == Some(Completeness))
            && (Unsound in row <==> out == Some(Unsound))
            && (Declined in row <==> Declines(a, b))
  {
    OutcomeIsAClass(a, b, triage);
    hide Outcome, ValidateRecord, Declines;
  }

  lemma OutcomeIsAClass(a: Json, b: Json, triage: bool)
    ensures Outcome(a, b, triage) !in [Some(Declined), Some(InvalidA), Some(InvalidB)]
  {
    hide Compare, Between, StaticTrap, Ran;
  }

  /** Does the comparison, or the triage, find fault with the pair? */
  predicate Faulty(out: Option<Label>) {
    out == Some(Unsound) || (out.Some? && out.value.Divergent?)
  }

  /** No divergence is counted exactly when every file that is not a member ran
      on both sides and no class of its row is a fault; and no more files ran on
      both sides than on either. */
  lemma NoDivergence(p: Pass, runs: seq<Run>, triage: bool)
    requires Tallied(p, runs, triage)
    ensures p.divergences == 0 <==>
            forall r | r in runs && !r.member ::
              r.records.Some? && forall l | l in RowOf(r.records.value.0, r.records.value.1, triage) :: !IsFault(l)
    ensures p.bothRun <= p.aRun && p.bothRun <= p.bRun && p.forwardPins <= p.unsupported
  {
    hide Count, Marked, RowOf;
    NoneMarked(runs, triage, Crashed);
    NoneMarked(runs, triage, Diverged);
    NoneMarked(runs, triage, Filed(Unsound));
    NoneMarked(runs, triage, Filed(InvalidA));
    NoneMarked(runs, triage, Filed(InvalidB));
    forall r: Run { RowFaults(r, triage); }
    FewerMarked(runs, triage, RanOnBoth, RanOnA);
    FewerMarked(runs, triage, RanOnBoth, RanOnB);
    FewerMarked(runs, triage, Pinned, Filed(Declined));
  }

  lemma RowFaults(r: Run, triage: bool)
    ensures r.member ||
            (r.records.Some? && forall l | l in RowOf(r.records.value.0, r.records.value.1, triage) :: !IsFault(l))
            <==> !Marked(r, triage, Crashed) && !Marked(r, triage, Diverged) && !Marked(r, triage, Filed(Unsound))
                 && !Marked(r, triage, Filed(InvalidA)) && !Marked(r, triage, Filed(InvalidB))
  {
    hide Earns, RowOf, CoveredAtRun;
    if IsEntry(r) {
      RowMeans(r.records.value.0, r.records.value.1, triage);
    }
  }

  lemma NoneMarked(runs: seq<Run>, triage: bool, m: Mark)
    ensures Count(runs, triage, m) == 0 <==> forall r | r in runs :: !Marked(r, triage, m)
  {
    hide Marked;
    if r :| r in runs && Marked(r, triage, m) {
      var i :| 0 <= i < |runs| && runs[i] == r;
      assert i in Places(runs, triage, m);
    } else {
      assert Places(runs, triage, m) == {};
    }
  }

  lemma FewerMarked(runs: seq<Run>, triage: bool, m: Mark, n: Mark)
    requires (m == RanOnBoth && (n == RanOnA || n == RanOnB)) || (m == Pinned && n == Filed(Declined))
    ensures Count(runs, triage, m) <= Count(runs, triage, n)
  {
    hide Earns, CoveredAtRun;
    var fewer, more := Places(runs, triage, m), Places(runs, triage, n);
    assert fewer <= more;
    assert more == fewer + (more - fewer);
  }

  /** A pass. Whatever the runs answer, the ledger holds a row for every entry
      and no other file, and the published counts are the counts of its rows
      exactly when no two entries share a path. */
  method DifferPass(runs: seq<Run>, triage: bool) returns (p: Pass)
    ensures Tallied(p, runs, triage)
    ensures p.ledger.Keys == Elements(EntryKeys(runs)) && p.entries == |EntryKeys(runs)|
    ensures Balanced(p) <==> Distinct(EntryKeys(runs))
    ensures Distinct(EntryKeys(runs)) ==> forall r | r in runs && IsEntry(r) ::
              r.key in p.ledger && p.ledger[r.key] == RowOf(r.records.value.0, r.records.value.1, triage)
              && r.key in p.bSide && Says(r.records.value.1, "verdict", p.bSide[r.key].0)
              && Says(r.records.value.1, "stdout_sha256", p.bSide[r.key].1)
  {
    hide Accounts, Tallied, Counts, Balanced, Says, RowOf;
    p := NO_PASS;
    PassStarts(triage);
    for i := 0 to |runs|
      invariant Accounts(p, runs[..i], triage) && Tallied(p, runs[..i], triage)
    {
      var run := runs[i];
      assert runs[..i + 1] == runs[..i] + [run];
      ghost var before := p;
      if run.member {
        AccountsSkip(p, runs[..i], run, triage, p.divergences);
        UncountedSkip(before, p, run, triage);
        TalliedOneMore(before, p, runs[..i], run, triage);
        continue;
      }
      if run.records.None? {
        AccountsSkip(p, runs[..i], run, triage, p.divergences + 1);
        p := p.(divergences := p.divergences + 1);
        UncountedSkip(before, p, run, triage);
        TalliedOneMore(before, p, runs[..i], run, triage);
        continue;
      }
      var (a, b) := run.records.value;
      p := Entry(p, run, a, b, triage);
      AccountsEntry(before, p, runs[..i], run, triage);
      TalliedOneMore(before, p, runs[..i], run, triage);
    }
    assert runs[..|runs|] == runs;
    PassEnds(p, runs, triage);
  }

  const NO_PASS: Pass := Pass.Pass(0, 0, 0, 0, 0, 0, 0, 0, 0, 0, map[], map[])

  lemma PassStarts(triage: bool)
    ensures Accounts(NO_PASS, [], triage) && Tallied(NO_PASS, [], triage)
  {
    hide Marked;
    assert forall l :: Carrying(map[], l) == {};
    TalliedStart(triage);
    hide Tallied;
  }

  lemma PassEnds(p: Pass, runs: seq<Run>, triage: bool)
    requires Accounts(p, runs, triage)
    ensures p.ledger.Keys == Elements(EntryKeys(runs)) && p.entries == |EntryKeys(runs)|
    ensures Balanced(p) <==> Distinct(EntryKeys(runs))
    ensures Distinct(EntryKeys(runs)) ==> forall r | r in runs && IsEntry(r) ::
              r.key in p.ledger && p.ledger[r.key] == RowOf(r.records.value.0, r.records.value.1, triage)
              && r.key in p.bSide && Says(r.records.value.1, "verdict", p.bSide[r.key].0)
              && Says(r.records.value.1, "stdout_sha256", p.bSide[r.key].1)
  {
    hide RowOf, Elements, EntryKeys;
    DistinctIsCounted(EntryKeys(runs));
    forall b ensures Says(b, "verdict", SideOf(b).0) && Says(b, "stdout_sha256", SideOf(b).1) { }
    hide SideOf, Says;
  }

  /** What a pass keeps, run by run. */
  ghost predicate Accounts(p: Pass, runs: seq<Run>, triage: bool) {
    && p.ledger.Keys == Elements(EntryKeys(runs)) && p.entries == |EntryKeys(runs)|
    && (Distinct(EntryKeys(runs)) ==> Balanced(p) && Rowed(p, runs, triage))
  }

  lemma AccountsSkip(p: Pass, runs: seq<Run>, run: Run, triage: bool, n: nat)
    requires Accounts(p, runs, triage) && !IsEntry(run)
    ensures Accounts(p, runs + [run], triage) && Accounts(p.(divergences := n), runs + [run], triage)
  {
    hide Balanced, Rowed, Distinct, EntryKeys, Elements;
    EntryKeysStep(runs, run);
    RowedSkips(p, runs, run, triage);
    OnlyDivergences(p, runs + [run], triage, n);
  }

  lemma AccountsEntry(p: Pass, q: Pass, runs: seq<Run>, run: Run, triage: bool)
    requires Accounts(p, runs, triage) && IsEntry(run)
    requires q.ledger == p.ledger[run.key := RowOf(run.records.value.0, run.records.value.1, triage)]
    requires q.bSide == p.bSide[run.key := SideOf(run.records.value.1)]
    requires q.entries == p.entries + 1
    requires Balanced(p) && run.key !in p.ledger ==> Balanced(q)
    ensures Accounts(q, runs + [run], triage)
  {
    hide Balanced, Rowed, Distinct, EntryKeys, Elements, RowOf;
    EntryKeysStep(runs, run);
    DistinctOneMore(EntryKeys(runs), run.key);
    RowedOneMore(p, q, runs, run, triage);
  }

  lemma EntryKeysStep(runs: seq<Run>, run: Run)
    ensures EntryKeys(runs + [run]) == if IsEntry(run) then EntryKeys(runs) + [run.key] else EntryKeys(runs)
  {
    assert (runs + [run])[..|runs|] == runs;
  }

  ghost predicate Rowed(p: Pass, runs: seq<Run>, triage: bool) {
    forall r | r in runs && IsEntry(r) ::
      r.key in p.ledger && p.ledger[r.key] == RowOf(r.records.value.0, r.records.value.1, triage)
      && r.key in p.bSide && p.bSide[r.key] == SideOf(r.records.value.1)
  }

  lemma DistinctOneMore(keys: seq<string>, key: string)
    ensures Distinct(keys + [key]) <==> Distinct(keys) && key !in Elements(keys)
    ensures Elements(keys + [key]) == Elements(keys) + {key}
  {
    var all := keys + [key];
    if Distinct(all) {
      forall i | 0 <= i < |keys| ensures keys[i] != key {
        assert all[i] != all[|keys|];
      }
      forall i, j | 0 <= i < j < |keys| ensures keys[i] != keys[j] {
        assert all[i] != all[j];
      }
    }
  }

  lemma RowedSkips(p: Pass, runs: seq<Run>, run: Run, triage: bool)
    requires !IsEntry(run)
    ensures Rowed(p, runs, triage) ==> Rowed(p, runs + [run], triage)
  {
  }

  lemma RowedOneMore(p: Pass, q: Pass, runs: seq<Run>, run: Run, triage: bool)
    requires IsEntry(run)
    requires q.ledger == p.ledger[run.key := RowOf(run.records.value.0, run.records.value.1, triage)]
    requires q.bSide == p.bSide[run.key := SideOf(run.records.value.1)]
    ensures Rowed(p, runs, triage) && run.key !in p.ledger ==> Rowed(q, runs + [run], triage)
  {
    hide RowOf, SideOf;
  }

  lemma OnlyDivergences(p: Pass, runs: seq<Run>, triage: bool, n: nat)
    ensures Balanced(p) == Balanced(p.(divergences := n))
    ensures Rowed(p, runs, triage) == Rowed(p.(divergences := n), runs, triage)
  {
    hide RowOf;
  }

  /** What two records show before they are compared. */
  method Observe(before: Pass, run: Run, a: Json, b: Json) returns (p: Pass)
    ensures p == before.(
                   divergences := before.divergences + One(ValidateRecord(a).None?) + One(ValidateRecord(b).None?),
                   entries := before.entries + 1, bSide := before.bSide[run.key := SideOf(b)],
                   aRun := before.aRun + One(CoveredAtRun(a)), bRun := before.bRun + One(CoveredAtRun(b)),
                   bothRun := before.bothRun + One(CoveredAtRun(a) && CoveredAtRun(b)),
                   unsupported := before.unsupported + One(Declines(a, b)),
                   forwardPins := before.forwardPins + One(run.forward && Declines(a, b)))
  {
    hide ValidateRecord, CoveredAtRun, Declines, SideOf;
    p := before;
    if ValidateRecord(a).None? {
      p := p.(divergences := p.divergences + 1);
    }
    if ValidateRecord(b).None? {
      p := p.(divergences := p.divergences + 1);
    }
    p := p.(entries := p.entries + 1, bSide := p.bSide[run.key := SideOf(b)],
            aRun := p.aRun + One(CoveredAtRun(a)), bRun := p.bRun + One(CoveredAtRun(b)),
            bothRun := p.bothRun + One(CoveredAtRun(a) && CoveredAtRun(b)));
    if Declines(a, b) {
      p := p.(unsupported := p.unsupported + 1, forwardPins := p.forwardPins + One(run.forward));
    }
  }

  /** The counters of the last class a file is filed under. */
  method CountOutcome(before: Pass, out: Option<Label>) returns (p: Pass)
    ensures p == before.(agreements := before.agreements + One(out == Some(Agreement)),
                         completeness := before.completeness + One(out == Some(Completeness)),
                         soundness := before.soundness + One(out == Some(Unsound)),
                         divergences := before.divergences + One(Faulty(out)))
  {
    p := before;
    match out {
      case Some(Agreement) => p := p.(agreements := p.agreements + 1);
      case Some(Completeness) => p := p.(completeness := p.completeness + 1);
      case Some(Unsound) => p := p.(soundness := p.soundness + 1, divergences := p.divergences + 1);
      case Some(Divergent(_)) => p := p.(divergences := p.divergences + 1);
      case _ =>
    }
  }

  /** The body of the loop, for a file with two records. */
  method Entry(before: Pass, run: Run, a: Json, b: Json, triage: bool) returns (p: Pass)
    requires !run.member && run.records == Some((a, b))
    ensures p.ledger == before.ledger[run.key := RowOf(a, b, triage)] && p.entries == before.entries + 1
    ensures Balanced(before) && run.key !in before.ledger ==> Balanced(p)
    ensures p.bSide == before.bSide[run.key := SideOf(b)]
    ensures Counts(before, p, run, triage)
  {
    hide SideOf, Outcome, RowOf, ValidateRecord, CoveredAtRun, Declines, Balanced, Faulty, Counts;
    p := Observe(before, run, a, b);
    p := CountOutcome(p, Outcome(a, b, triage));
    p := p.(ledger := p.ledger[run.key := RowOf(a, b, triage)]);
    hide SideOf, Outcome, RowOf, ValidateRecord, CoveredAtRun, Declines, Balanced, Faulty, Counts;
    EntryBalances(before, p, run, a, b, triage);
    EntryCounts(before, p, run, a, b, triage);
  }

  lemma EntryBalances(p: Pass, q: Pass, run: Run, a: Json, b: Json, triage: bool)
    requires q.ledger == p.ledger[run.key := RowOf(a, b, triage)] && q.bSide == p.bSide[run.key := SideOf(b)]
    requires q.entries == p.entries + 1 && q.unsupported == p.unsupported + One(Declines(a, b))
    requires q.agreements == p.agreements + One(Outcome(a, b, triage) == Some(Agreement))
    requires q.completeness == p.completeness + One(Outcome(a, b, triage) == Some(Completeness))
    requires q.soundness == p.soundness + One(Outcome(a, b, triage) == Some(Unsound))
    ensures Balanced(p) && run.key !in p.ledger ==> Balanced(q)
  {
    RowCarries(a, b, triage);
    hide Outcome, RowOf, SideOf, Declines;
    if Balanced(p) && run.key !in p.ledger {
      hide Balanced;
      BalancedOneMore(p, q, run.key, RowOf(a, b, triage));
    }
  }

  // ------------------------------------------------------- control diff --

  datatype Move = Move(file: string, was: string, now: string)

  function Names(row: seq<Label>): seq<string> {
    if row == [] then [] else [Name(row[0])] + Names(row[1..])
  }

  function RowText(row: Option<seq<Label>>): string {
    match row
    case None => "(not an entry)"
    case Some(labels) => if labels == [] then "agreement" else Join(Names(labels), "+")
  }

  function Lookup<T>(m: map<string, T>, f: string): Option<T> {
    if f in m then Some(m[f]) else None
  }

  predicate ClassMoved(c: Pass, m: Pass, f: string) {
    Lookup(c.ledger, f) != Lookup(m.ledger, f)
  }

  predicate SideMoved(c: Pass, m: Pass, f: string) {
    f in c.bSide && f in m.bSide && c.bSide[f] != m.bSide[f]
  }

  function ShortSha(sha: string): string {
    "stdout sha " + sha[..if |sha| < 8 then |sha| else 8] + ".."
  }

  function ClassMove(c: Pass, m: Pass, f: string): Move {
    Move(f, RowText(Lookup(c.ledger, f)), RowText(Lookup(m.ledger, f)))
  }

  /** B's two verdicts, or the two digests it printed under one verdict. */
  function SideMove(c: Pass, m: Pass, f: string): Move
    requires SideMoved(c, m, f)
  {
    if c.bSide[f].0 != m.bSide[f].0 then Move(f, c.bSide[f].0, m.bSide[f].0)
    else Move(f, ShortSha(c.bSide[f].1), ShortSha(m.bSide[f].1))
  }

  ghost predicate FilesInOrder(moves: seq<Move>) {
    forall i, j :: 0 <= i < j < |moves| ==>
      StrLeq(moves[i].file, moves[j].file) && moves[i].file != moves[j].file
  }

  /** The moves between two passes, in file order: the class moves, and the
      moves of B's answer that no class shows. */
  method ControlDiff(c: Pass, m: Pass) returns (moved: seq<Move>, below: seq<Move>)
    ensures FilesInOrder(moved) && FilesInOrder(below)
    ensures forall mv :: mv in moved <==> ClassMoved(c, m, mv.file) && mv == ClassMove(c, m, mv.file)
    ensures forall mv :: mv in below <==> !ClassMoved(c, m, mv.file) && SideMoved(c, m, mv.file)
                                          && mv == SideMove(c, m, mv.file)
  {
    hide ClassMove, SideMove, StrLeq, ClassMoved, SideMoved, FilesInOrder;
    moved := ClassMoves(c, m);
    below := SideMoves(c, m);
  }

  /** The loop over both ledgers' files. */
  method ClassMoves(c: Pass, m: Pass) returns (moved: seq<Move>)
    ensures FilesInOrder(moved)
    ensures forall mv :: mv in moved <==> ClassMoved(c, m, mv.file) && mv == ClassMove(c, m, mv.file)
  {
    hide ClassMove, StrLeq, ClassMoved, ListsClassMoves, FilesInOrder, StrictlySorted;
    moved := [];
    MovesStart(c, m);
    var files := InOrder(c.ledger.Keys + m.ledger.Keys);
    for i := 0 to |files|
      invariant ListsClassMoves(c, m, files[..i], moved)
    {
      assert files[..i + 1] == files[..i] + [files[i]];
      StrictPrefix(files, i + 1);
      ClassMovesStep(c, m, files[..i], files[i], moved);
      if ClassMoved(c, m, files[i]) {
        moved := moved + [ClassMove(c, m, files[i])];
      }
    }
    assert files[..|files|] == files;
    ClassMovesEnd(c, m, files, moved);
  }

  /** The loop over the files that B answered in the control. */
  method SideMoves(c: Pass, m: Pass) returns (below: seq<Move>)
    ensures FilesInOrder(below)
    ensures forall mv :: mv in below <==> !ClassMoved(c, m, mv.file) && SideMoved(c, m, mv.file)
                                          && mv == SideMove(c, m, mv.file)
  {
    hide SideMove, StrLeq, ClassMoved, SideMoved, ListsSideMoves, FilesInOrder, StrictlySorted;
    below := [];
    MovesStart(c, m);
    var sides := InOrder(c.bSide.Keys);
    for i := 0 to |sides|
      invariant ListsSideMoves(c, m, sides[..i], below)
    {
      assert sides[..i + 1] == sides[..i] + [sides[i]];
      StrictPrefix(sides, i + 1);
      SideMovesStep(c, m, sides[..i], sides[i], below);
      if !ClassMoved(c, m, sides[i]) && SideMoved(c, m, sides[i]) {
        below := below + [SideMove(c, m, sides[i])];
      }
    }
    assert sides[..|sides|] == sides;
    SideMovesEnd(c, m, sides, below);
  }

  lemma MovesStart(c: Pass, m: Pass)
    ensures ListsClassMoves(c, m, [], []) && ListsSideMoves(c, m, [], [])
  {
  }

  lemma ClassMovesEnd(c: Pass, m: Pass, files: seq<string>, moved: seq<Move>)
    requires ListsClassMoves(c, m, files, moved) && forall f :: f in files <==> f in c.ledger.Keys + m.ledger.Keys
    ensures FilesInOrder(moved)
    ensures forall mv :: mv in moved <==> ClassMoved(c, m, mv.file) && mv == ClassMove(c, m, mv.file)
  {
    MovedIsListed(c, m);
    hide ClassMove, ClassMoved, StrLeq;
  }

  lemma SideMovesEnd(c: Pass, m: Pass, sides: seq<string>, below: seq<Move>)
    requires ListsSideMoves(c, m, sides, below) && forall f :: f in sides <==> f in c.bSide.Keys
    ensures FilesInOrder(below)
    ensures forall mv :: mv in below <==> !ClassMoved(c, m, mv.file) && SideMoved(c, m, mv.file)
                                          && mv == SideMove(c, m, mv.file)
  {
    MovedIsListed(c, m);
    hide SideMove, ClassMoved, SideMoved, StrLeq;
  }

  /** The class moves among the first files, in order. */
  ghost predicate ListsClassMoves(c: Pass, m: Pass, files: seq<string>, moved: seq<Move>) {
    && FilesInOrder(moved)
    && (forall mv :: mv in moved <==>
          mv.file in files && ClassMoved(c, m, mv.file) && mv == ClassMove(c, m, mv.file))
  }

  /** The moves below every class among the first files, in order. */
  ghost predicate ListsSideMoves(c: Pass, m: Pass, files: seq<string>, below: seq<Move>) {
    && FilesInOrder(below)
    && (forall mv :: mv in below <==>
          mv.file in files && !ClassMoved(c, m, mv.file) && SideMoved(c, m, mv.file) && mv == SideMove(c, m, mv.file))
  }

  lemma ClassMovesStep(c: Pass, m: Pass, files: seq<string>, f: string, moved: seq<Move>)
    requires ListsClassMoves(c, m, files, moved) && StrictlySorted(files + [f])
    ensures ListsClassMoves(c, m, files + [f],
                            if ClassMoved(c, m, f) then moved + [ClassMove(c, m, f)] else moved)
  {
    MoveFile(c, m, f);
    hide ClassMove, ClassMoved, StrLeq;
    LastIsGreatest(files, f);
    hide StrictlySorted;
    assert forall i :: 0 <= i < |moved| ==> moved[i] in moved;
  }

  lemma SideMovesStep(c: Pass, m: Pass, files: seq<string>, f: string, below: seq<Move>)
    requires ListsSideMoves(c, m, files, below) && StrictlySorted(files + [f])
    ensures ListsSideMoves(c, m, files + [f],
                           if !ClassMoved(c, m, f) && SideMoved(c, m, f) then below + [SideMove(c, m, f)] else below)
  {
    MoveFile(c, m, f);
    hide SideMove, ClassMoved, SideMoved, StrLeq;
    LastIsGreatest(files, f);
    hide StrictlySorted;
    assert forall i :: 0 <= i < |below| ==> below[i] in below;
  }

  lemma MovedIsListed(c: Pass, m: Pass)
    ensures forall f :: ClassMoved(c, m, f) ==> f in c.ledger.Keys + m.ledger.Keys
    ensures forall f :: SideMoved(c, m, f) ==> f in c.bSide.Keys
  {
  }

  lemma MoveFile(c: Pass, m: Pass, f: string)
    ensures ClassMove(c, m, f).file == f && (SideMoved(c, m, f) ==> SideMove(c, m, f).file == f)
  {
  }

  // ------------------------------------------------------- main results --

  /** No class move, no change in any published count. */
  lemma NoMoveNoChange(c: Pass, m: Pass)
    requires Balanced(c) && Balanced(m) && forall f :: !ClassMoved(c, m, f)
    ensures c.ledger == m.ledger
    ensures c.entries == m.entries && c.agreements == m.agreements && c.completeness == m.completeness
    ensures c.soundness == m.soundness && c.unsupported == m.unsupported
  {
    forall f ensures f in c.ledger <==> f in m.ledger {
      assert !ClassMoved(c, m, f);
    }
    forall f | f in c.ledger ensures c.ledger[f] == m.ledger[f] {
      assert !ClassMoved(c, m, f);
    }
  }

  /** The two lists name each file at most once between them, and together
      exactly the files of which anything moved. */
  lemma ListsPartitionMoves(c: Pass, m: Pass, moved: seq<Move>, below: seq<Move>, f: string)
    requires Balanced(c) && Balanced(m)
    requires forall mv :: mv in moved <==> ClassMoved(c, m, mv.file) && mv == ClassMove(c, m, mv.file)
    requires forall mv :: mv in below <==> !ClassMoved(c, m, mv.file) && SideMoved(c, m, mv.file)
                                           && mv == SideMove(c, m, mv.file)
    ensures (exists mv :: mv in moved && mv.file == f) <==> Lookup(c.ledger, f) != Lookup(m.ledger, f)
    ensures (exists mv :: mv in below && mv.file == f) <==>
            Lookup(c.ledger, f) == Lookup(m.ledger, f) && Lookup(c.bSide, f) != Lookup(m.bSide, f)
  {
    assert f in c.bSide <==> f in c.ledger;
    assert f in m.bSide <==> f in m.ledger;
    MoveFile(c, m, f);
    if ClassMoved(c, m, f) {
      assert ClassMove(c, m, f) in moved;
    } else if SideMoved(c, m, f) {
      assert SideMove(c, m, f) in below;
    }
  }

  /** What the report says of a file's row: that the file is no entry, or the
      row's classes in order, an empty row reading "agreement". */
  ghost predicate Tells(text: string, row: Option<seq<Label>>) {
    match row
    case None => text == "(not an entry)"
    case Some(labels) => if labels == [] then text == "agreement" else Split(text, '+') == Names(labels)
  }

  ghost predicate Abbreviates(text: string, digest: string) {
    exists d: string :: d <= digest && |d| <= 8 && (|d| < 8 ==> d == digest) && text == "stdout sha " + d + ".."
  }

  /** A move shows the control first: both rows, or B's two verdicts, or where
      those are one the two digests. */
  lemma MovesTell(c: Pass, m: Pass, f: string)
    ensures Tells(ClassMove(c, m, f).was, Lookup(c.ledger, f)) && Tells(ClassMove(c, m, f).now, Lookup(m.ledger, f))
    ensures SideMoved(c, m, f) ==>
              (if c.bSide[f].0 != m.bSide[f].0
               then SideMove(c, m, f).was == c.bSide[f].0 && SideMove(c, m, f).now == m.bSide[f].0
               else Abbreviates(SideMove(c, m, f).was, c.bSide[f].1)
                    && Abbreviates(SideMove(c, m, f).now, m.bSide[f].1))
  {
    RowTells(Lookup(c.ledger, f));
    RowTells(Lookup(m.ledger, f));
    hide RowText, Tells;
    if SideMoved(c, m, f) {
      ShaAbbreviates(c.bSide[f].1);
      ShaAbbreviates(m.bSide[f].1);
      hide ShortSha, Abbreviates;
    }
  }

  lemma ShaAbbreviates(sha: string)
    ensures Abbreviates(ShortSha(sha), sha)
  {
    var d := sha[..if |sha| < 8 then |sha| else 8];
    assert d <= sha;
  }

  lemma RowTells(row: Option<seq<Label>>)
    ensures Tells(RowText(row), row)
  {
    if row.Some? && row.value != [] {
      NamesAreWhole(row.value);
      hide Names;
      SplitOfJoin(Names(row.value), '+');
    }
  }

  lemma {:induction false} NamesAreWhole(row: seq<Label>)
    ensures |Names(row)| == |row| && forall n | n in Names(row) :: '+' !in n
  {
    if row != [] {
      NamesAreWhole(row[1..]);
      assert '+' !in Name(row[0]);
    }
  }

  /** A file's row as the source keeps it: the class names. */
  function TextRow(ledger: map<string, seq<Label>>, f: string): Option<seq<string>> {
    if f in ledger then Some(Names(ledger[f])) else None
  }

  lemma {:induction false} NamesOfRows(r: seq<Label>, s: seq<Label>)
    ensures Names(r) == Names(s) ==> r == s
  {
    if r != [] && s != [] && Names(r) == Names(s) {
      assert Names(r)[0] == Names(s)[0] && Names(r)[1..] == Names(s)[1..];
      NamesAreDistinct(r[0], s[0]);
      NamesOfRows(r[1..], s[1..]);
      assert r == [r[0]] + r[1..] && s == [s[0]] + s[1..];
    }
  }

  /** Comparing rows of classes is comparing the rows of text that the source keeps. */
  lemma ClassMovedIsTextual(c: Pass, m: Pass, f: string)
    ensures ClassMoved(c, m, f) <==> TextRow(c.ledger, f) != TextRow(m.ledger, f)
  {
    hide Names;
    if f in c.ledger && f in m.ledger {
      NamesOfRows(c.ledger[f], m.ledger[f]);
    }
  }

  /** Every class of the ledger has a name of its own. */
  lemma NamesAreDistinct(k: Label, l: Label)
    ensures Name(k) == Name(l) ==> k == l
  {
    var names := ["invalid-A", "invalid-B", "unsupported", "agreement", "Completeness", "SOUNDNESS",
                  "Soundness", "Verdict", "Diag", "SpanWidth", "Stdout"];
    assert names[0][8] != names[1][8] && names[5][1] != names[6][1];
  }
}
