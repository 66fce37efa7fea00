/** Observation records of the differential protocol: xtask/src/protocol.rs. */
module Protocol {
  import opened Wrappers
  import opened Text
  import opened Sorting
  import opened RunCheck

  // ----------------------------------------------------------- verdicts --

  datatype Verdict =
    Passed | Failed(code: string) | Exited(status: int) | Trapped(kind: string)
    | Undefined(anchor: string) | Unsupported

  const I64_MIN: int := -0x8000_0000_0000_0000
  const I64_MAX: int := 0x7FFF_FFFF_FFFF_FFFF

  function ParseVerdict(s: string): Option<Verdict> {
    if s == "pass" then Some(Passed)
    else if s == "unsupported" then Some(Unsupported)
    else match Between(s, "fail(", ")")
      case Some(code) => Some(Failed(code))
      case None =>
        match Between(s, "exit(", ")")
        case Some(n) =>
          (match ParseInt(n, I64_MIN, I64_MAX) case Some(v) => Some(Exited(v)) case None => None)
        case None =>
          match Between(s, "trap(", ")")
          case Some(kind) => if kind in TRAP_KINDS then Some(Trapped(kind)) else None
          case None =>
            match Between(s, "ub(", ")")
            case Some(anchor) => Some(Undefined(anchor))
            case None => None
  }

  function PrintVerdict(v: Verdict): string {
    match v
    case Passed => "pass"
    case Unsupported => "unsupported"
    case Failed(code) => "fail(" + code + ")"
    case Exited(n) => "exit(" + Padded(n, 0) + ")"
    case Trapped(kind) => "trap(" + kind + ")"
    case Undefined(anchor) => "ub(" + anchor + ")"
  }

  predicate Spellable(v: Verdict) {
    (v.Exited? ==> I64_MIN <= v.status <= I64_MAX) && (v.Trapped? ==> v.kind in TRAP_KINDS)
  }

  lemma OnlyItsOwnOpening(open: string, inner: string, other: string)
    requires open != "" && other != "" && open[0] != other[0]
    ensures Between(open + inner + ")", other, ")") == None
    ensures open[0] != 'p' ==> open + inner + ")" != "pass"
    ensures open[0] != 'u' ==> open + inner + ")" != "unsupported"
  {
    var s := open + inner + ")";
    assert s[0] == open[0] && "pass"[0] == 'p' && "unsupported"[0] == 'u';
  }

  /** Printing then parsing gives back exactly the verdicts the protocol has. */
  lemma VerdictRoundTrip(v: Verdict)
    ensures ParseVerdict(PrintVerdict(v)) == Some(v) <==> Spellable(v)
  {
    hide Between, ParseInt, Padded;
    match v {
      case Passed => assert "pass" != "unsupported" by { assert |"pass"| != |"unsupported"|; }
      case Unsupported => assert "pass" != "unsupported" by { assert |"pass"| != |"unsupported"|; }
      case Failed(code) =>
        BetweenOf("fail(", code, ")");
        OnlyItsOwnOpening("fail(", code, "exit(");
      case Exited(n) =>
        OnlyItsOwnOpening("exit(", Padded(n, 0), "fail(");
        BetweenOf("exit(", Padded(n, 0), ")");
        if Spellable(v) {
          ParsePadded(n, 0, I64_MIN, I64_MAX);
        } else {
          ParsedInRange(Padded(n, 0), I64_MIN, I64_MAX);
        }
      case Trapped(kind) =>
        OnlyItsOwnOpening("trap(", kind, "fail(");
        OnlyItsOwnOpening("trap(", kind, "exit(");
        BetweenOf("trap(", kind, ")");
      case Undefined(anchor) =>
        OnlyItsOwnOpening("ub(", anchor, "fail(");
        OnlyItsOwnOpening("ub(", anchor, "exit(");
        OnlyItsOwnOpening("ub(", anchor, "trap(");
        BetweenOf("ub(", anchor, ")");
        var s := "ub(" + anchor + ")";
        assert s[1] == 'b' && "unsupported"[1] == 'n';
        assert s[0] == 'u' && "pass"[0] == 'p';
    }
  }

  lemma ParsedInRange(s: string, lo: int, hi: int)
    ensures ParseInt(s, lo, hi).Some? ==> lo <= ParseInt(s, lo, hi).value <= hi
  {
    hide DigitsValue;
  }

  /** Does a record's verdict satisfy a corpus file's expectation? (xtask/src/corpus.rs) */
  predicate Matches(e: ExitExpect, verdict: string) {
    match e
    case Code(n) => verdict == "exit(" + Padded(n, 0) + ")"
    case Nonzero =>
      (match Between(verdict, "exit(", ")")
       case None => false
       case Some(v) => ParseInt(v, I64_MIN, I64_MAX).Some? && ParseInt(v, I64_MIN, I64_MAX).value != 0)
    case Trap(None) => "trap(" <= verdict
    case Trap(Some(kind)) => verdict == "trap(" + kind + ")"
  }

  /** An expectation accepts exactly the verdicts it names, among those a run can have. */
  lemma MatchesMeans(e: ExitExpect, v: Verdict)
    requires Spellable(v)
    ensures Matches(e, PrintVerdict(v)) <==>
            match e
            case Code(n) => v == Exited(n)
            case Nonzero => v.Exited? && v.status != 0
            case Trap(None) => v.Trapped?
            case Trap(Some(kind)) => v == Trapped(kind)
  {
    hide Between, ParseInt, Padded, ParseVerdict;
    VerdictRoundTrip(v);
    match e {
      case Code(n) => VerdictRoundTrip(Exited(n));
      case Nonzero => NonzeroMeans(v);
      case Trap(None) => TrapMeans(v);
      case Trap(Some(kind)) =>
        if kind in TRAP_KINDS {
          VerdictRoundTrip(Trapped(kind));
        } else {
          TrapMeans(v);
          if v.Trapped? {
            BetweenOf("trap(", kind, ")");
            BetweenOf("trap(", v.kind, ")");
          } else {
            assert "trap(" <= "trap(" + kind + ")";
          }
        }
    }
  }

  lemma NonzeroMeans(v: Verdict)
    requires Spellable(v)
    ensures Matches(Nonzero, PrintVerdict(v)) <==> v.Exited? && v.status != 0
  {
    hide Between, ParseInt, Padded;
    match v {
      case Exited(n) =>
        BetweenOf("exit(", Padded(n, 0), ")");
        ParsePadded(n, 0, I64_MIN, I64_MAX);
      case Passed => NotOpened("pass", "exit(");
      case Unsupported => NotOpened("unsupported", "exit(");
      case Failed(code) => OnlyItsOwnOpening("fail(", code, "exit(");
      case Trapped(kind) => OnlyItsOwnOpening("trap(", kind, "exit(");
      case Undefined(anchor) => OnlyItsOwnOpening("ub(", anchor, "exit(");
    }
  }

  lemma NotOpened(s: string, open: string)
    requires s != "" && open != "" && s[0] != open[0]
    ensures Between(s, open, ")") == None && !(open <= s)
  {
  }

  lemma TrapMeans(v: Verdict)
    ensures "trap(" <= PrintVerdict(v) <==> v.Trapped?
  {
    hide Padded;
    var s := PrintVerdict(v);
    assert s[0] == match v case Passed => 'p' case Unsupported => 'u' case Failed(_) => 'f'
                           case Exited(_) => 'e' case Trapped(_) => 't' case Undefined(_) => 'u';
  }

  // ------------------------------------------------------------ records --

  /** JSON, as a record carries it. A number that is no integer is `Float`. */
  datatype Json =
    Null | Bool(b: bool) | Int(n: int) | Float(text: string) | Str(s: string)
    | Arr(items: seq<Json>) | Obj(fields: seq<Member>)

  datatype Member = Member(key: string, value: Json)

  function Field(fields: seq<Member>, key: string): Option<Json> {
    if fields == [] then None
    else if fields[0].key == key then Some(fields[0].value)
    else Field(fields[1..], key)
  }

  function Get(v: Json, key: string): Option<Json> {
    if v.Obj? then Field(v.fields, key) else None
  }

  function GetStr(v: Json, key: string): Option<string> {
    match Get(v, key) case Some(Str(s)) => Some(s) case _ => None
  }

  function GetItems(v: Json, key: string): Option<seq<Json>> {
    match Get(v, key) case Some(Arr(xs)) => Some(xs) case _ => None
  }

  function AsU64(v: Option<Json>): Option<nat> {
    match v case Some(Int(n)) => (if 0 <= n < 0x1_0000_0000_0000_0000 then Some(n) else None) case _ => None
  }

  predicate Paired(v: Json) {
    var span := GetItems(v, "span");
    span.Some? && |span.value| == 2
  }

  predicate DiagnosticShaped(d: Json) {
    GetStr(d, "code").Some? && Paired(d) && GetStr(d, "severity").Some?
  }

  predicate WarningShaped(w: Json) {
    GetStr(w, "code").Some? && Paired(w)
  }

  /** The file index is all or nothing: with `files` every diagnostic names one
      of them, without it none names any. */
  predicate FilesAgree(files: Option<Json>, diags: seq<Json>) {
    match files
    case None => forall d | d in diags :: Get(d, "file").None?
    case Some(Arr(fs)) =>
      fs != [] && (forall f | f in fs :: f.Str?) &&
      forall d | d in diags :: AsU64(Get(d, "file")).Some? && AsU64(Get(d, "file")).value < |fs|
    case Some(_) => false
  }

  predicate HeaderShaped(v: Json) {
    Get(v, "protocol") == Some(Int(1))
    && GetStr(v, "impl").Some? && GetStr(v, "impl_version").Some? && GetStr(v, "commit").Some?
    && GetStr(v, "file").Some? && GetStr(v, "phase_reached").Some?
    && Get(v, "seeded").Some? && Get(v, "seeded").value.Bool?
  }

  predicate DiagnosticsShaped(v: Json) {
    var diags := GetItems(v, "diagnostics");
    diags.Some? && (forall d | d in diags.value :: DiagnosticShaped(d)) && FilesAgree(Get(v, "files"), diags.value)
  }

  predicate WarningsShaped(v: Json) {
    Get(v, "warnings").Some? ==>
      (GetItems(v, "warnings").Some? && forall w | w in GetItems(v, "warnings").value :: WarningShaped(w))
  }

  /** The verdict, if it parses and the trap message is a trap's. */
  function VerdictOf(v: Json): Option<Verdict> {
    match GetStr(v, "verdict")
    case None => None
    case Some(text) =>
      match ParseVerdict(text)
      case None => None
      case Some(verdict) =>
        if Get(v, "trap_message").Some? && (GetStr(v, "trap_message").None? || !verdict.Trapped?) then None
        else Some(verdict)
  }

  /** The verdict of a well-formed record; None where the source reports an error. */
  function ValidateRecord(v: Json): Option<Verdict> {
    if HeaderShaped(v) && DiagnosticsShaped(v) && WarningsShaped(v) then VerdictOf(v) else None
  }

  /** The digest of what the program printed. */
  function Digest(r: Json): Option<string> { GetStr(r, "stdout_sha256") }

  function UbRow(r: Json): Option<string> { GetStr(r, "x-ub-row") }

  predicate Warns(r: Json) { Get(r, "warnings").Some? }

  function Commas(parts: seq<string>): string {
    Join(parts, ",")
  }

  /** `Value::to_string`, which both span texts and warning keys go through. */
  function Render(v: Json): string {
    match v
    case Null => "null"
    case Bool(b) => if b then "true" else "false"
    case Int(n) => Padded(n, 0)
    case Float(text) => text
    case Str(s) => Quote(s)
    case Arr(items) => "[" + Commas(RenderItems(items)) + "]"
    case Obj(fields) => "{" + Commas(RenderFields(fields)) + "}"
  }

  function RenderItems(items: seq<Json>): seq<string> {
    if items == [] then [] else [Render(items[0])] + RenderItems(items[1..])
  }

  function RenderFields(fields: seq<Member>): seq<string> {
    if fields == [] then []
    else [Quote(fields[0].key) + ":" + Render(fields[0].value)] + RenderFields(fields[1..])
  }

  /** JSON's quoting of the characters a path or a code can hold. */
  function Quote(s: string): string {
    "\"" + Escape(s) + "\""
  }

  // --------------------------------------------------------- comparison --

  datatype Class = Soundness | VerdictClass | Diag | SpanWidth | Stdout

  /** The first diagnostic: its code, its span as text, the file it names. */
  datatype Locus = Locus(code: string, span: string, file: string)

  function Or(s: Option<string>, otherwise: string): string {
    if s.Some? then s.value else otherwise
  }

  function First(r: Json): Option<Locus> {
    match GetItems(r, "diagnostics")
    case None => None
    case Some(diags) =>
      if diags == [] then None
      else
        var d := diags[0];
        Some(Locus(Or(GetStr(d, "code"), ""), SpanText(d), FileOf(r, d)))
  }

  /** The path of the file a diagnostic names. */
  function FileOf(r: Json, d: Json): string {
    match AsU64(Get(d, "file"))
    case None => "<entry>"
    case Some(i) =>
      if i == 0 then "<entry>"
      else match GetItems(r, "files")
        case None => ""
        case Some(fs) => if i < |fs| && fs[i].Str? then fs[i].s else ""
  }

  function SpanText(d: Json): string {
    match Get(d, "span") case Some(span) => Render(span) case None => "null"
  }

  /** The byte the first diagnostic starts at. */
  function FirstStart(r: Json): Option<nat> {
    match GetItems(r, "diagnostics")
    case None => None
    case Some(diags) =>
      if diags == [] then None else SpanStart(diags[0])
  }

  function WarningKey(w: Json): string {
    Or(GetStr(w, "code"), "") + "@" + SpanText(w)
  }

  function Keys(ws: seq<Json>): seq<string> {
    if ws == [] then [] else [WarningKey(ws[0])] + Keys(ws[1..])
  }

  function SortedWarnings(r: Json): seq<string> {
    match GetItems(r, "warnings") case Some(ws) => Sort(StrLeq, Keys(ws)) case None => []
  }

  predicate Dynamic(v: Verdict) { v.Exited? || v.Trapped? || v.Undefined? }

  /** The verdicts' own disagreement; `SameVerdict` when there is none. */
  datatype Step = Excused | Differ(cls: Class) | SameVerdict

  function CompareVerdicts(a: Json, b: Json, va: Verdict, vb: Verdict): Step {
    if va.Unsupported? || vb.Unsupported? then Excused
    else if (va.Passed? && Dynamic(vb)) || (vb.Passed? && Dynamic(va)) then Excused
    else if va.Undefined? && vb.Undefined? then
      if va != vb then Differ(Soundness)
      else
        var ra, rb := UbRow(a), UbRow(b);
        if ra.Some? && rb.Some? && ra != rb then Differ(Soundness) else SameVerdict
    else if va.Undefined? || vb.Undefined? then Differ(Soundness)
    else if va != vb then Differ(VerdictClass)
    else SameVerdict
  }

  function CompareFirst(a: Json, b: Json): (r: Option<Class>)
    ensures r.Some? ==> r.value.SpanWidth? || r.value.Diag?
  {
    var fa, fb := First(a), First(b);
    if fa == fb then None
    else if fa.Some? && fb.Some? && fa.value.code == fb.value.code && fa.value.file == fb.value.file
            && FirstStart(a).Some? && FirstStart(a) == FirstStart(b)
    then Some(SpanWidth)
    else Some(Diag)
  }

  function CompareOutput(a: Json, b: Json, v: Verdict, structuralOnly: bool): Option<Class> {
    var sa, sb := Digest(a), Digest(b);
    if structuralOnly then None
    else if v.Exited? && sa != sb then Some(Stdout)
    else if v.Trapped? && sa.Some? && sb.Some? && sa != sb then Some(Stdout)
    else None
  }

  /** None: the records agree, or at least one of them answers no common question. */
  function Compare(a: Json, b: Json, structuralOnly: bool): Option<Class> {
    match (ValidateRecord(a), ValidateRecord(b))
    case (Some(va), Some(vb)) =>
      (match CompareVerdicts(a, b, va, vb)
       case Excused => None
       case Differ(cls) => Some(cls)
       case SameVerdict =>
         var first := if va.Failed? then CompareFirst(a, b) else None;
         var output := CompareOutput(a, b, va, structuralOnly);
         if first.Some? then first
         else if output.Some? then output
         else if Warns(a) && Warns(b)
                 && SortedWarnings(a) != SortedWarnings(b)
         then Some(Diag)
         else None)
    case _ => None
  }

  /** Does the record show its lane executing the program? */
  predicate CoveredAtRun(r: Json) {
    GetStr(r, "phase_reached") == Some("run") && GetStr(r, "verdict").Some?
    && var v := ParseVerdict(GetStr(r, "verdict").value); v.Some? && Dynamic(v.value)
  }

  // ------------------------------------------------------- main results --

  lemma CompareIsReflexive(a: Json, structuralOnly: bool)
    ensures Compare(a, a, structuralOnly) == None
  {
    hide ValidateRecord, First, SortedWarnings, FirstStart, UbRow, Digest, Warns;
  }

  lemma StepIsSymmetric(a: Json, b: Json, va: Verdict, vb: Verdict)
    ensures CompareVerdicts(a, b, va, vb) == CompareVerdicts(b, a, vb, va)
    ensures CompareVerdicts(a, b, va, vb) == SameVerdict ==> va == vb
  {
    hide UbRow;
  }

  lemma FirstIsSymmetric(a: Json, b: Json)
    ensures CompareFirst(a, b) == CompareFirst(b, a)
  {
    hide First, FirstStart;
  }

  lemma OutputIsSymmetric(a: Json, b: Json, v: Verdict, structuralOnly: bool)
    ensures CompareOutput(a, b, v, structuralOnly) == CompareOutput(b, a, v, structuralOnly)
  {
    hide Digest;
  }

  lemma CompareIsSymmetric(a: Json, b: Json, structuralOnly: bool)
    ensures Compare(a, b, structuralOnly) == Compare(b, a, structuralOnly)
  {
    match (ValidateRecord(a), ValidateRecord(b)) {
      case (Some(va), Some(vb)) =>
        StepIsSymmetric(a, b, va, vb);
        FirstIsSymmetric(a, b);
        OutputIsSymmetric(a, b, va, structuralOnly);
      case _ =>
    }
    hide ValidateRecord, CompareVerdicts, CompareFirst, CompareOutput, SortedWarnings, Warns;
  }

  /** Verdicts that answer no common question: one is a refusal, or one stopped before running what the other ran. */
  predicate Incomparable(v: Verdict, w: Verdict) {
    v.Unsupported? || w.Unsupported? || (v.Passed? && Dynamic(w)) || (w.Passed? && Dynamic(v))
  }

  predicate BothAndDiffer(x: Option<string>, y: Option<string>) {
    x.Some? && y.Some? && x != y
  }

  /** What each divergence class says of two valid records. */
  lemma ClassMeans(a: Json, b: Json, structuralOnly: bool, va: Verdict, vb: Verdict)
    requires ValidateRecord(a) == Some(va) && ValidateRecord(b) == Some(vb)
    ensures Compare(a, b, structuralOnly) == Some(Soundness) <==>
              !Incomparable(va, vb) && (va.Undefined? || vb.Undefined?)
              && (va == vb ==> BothAndDiffer(UbRow(a), UbRow(b)))
    ensures Compare(a, b, structuralOnly) == Some(VerdictClass) <==>
              !Incomparable(va, vb) && !va.Undefined? && !vb.Undefined? && va != vb
    ensures Compare(a, b, structuralOnly) == Some(Stdout) <==>
              va == vb && !structuralOnly
              && ((va.Exited? && Digest(a) != Digest(b)) ||
                  (va.Trapped? && BothAndDiffer(Digest(a), Digest(b))))
    ensures Compare(a, b, structuralOnly) == Some(SpanWidth) <==> va == vb && va.Failed? && DriftInWidth(a, b)
  {
    DriftIsWidth(a, b);
    hide ValidateRecord, CompareFirst, DriftInWidth, SortedWarnings, UbRow, Digest, Warns;
  }

  /** Both records have a first diagnostic, of one code in one file and from one
      byte on, and the two spans differ. */
  predicate DriftInWidth(a: Json, b: Json) {
    var ds, es := GetItems(a, "diagnostics"), GetItems(b, "diagnostics");
    ds.Some? && es.Some? && ds.value != [] && es.value != []
    && var d, e := ds.value[0], es.value[0];
       Or(GetStr(d, "code"), "") == Or(GetStr(e, "code"), "") && FileOf(a, d) == FileOf(b, e)
       && SpanText(d) != SpanText(e) && SpanStart(d).Some? && SpanStart(d) == SpanStart(e)
  }

  function SpanStart(d: Json): Option<nat> {
    match GetItems(d, "span")
    case None => None
    case Some(span) => if span == [] then None else AsU64(Some(span[0]))
  }

  lemma DriftIsWidth(a: Json, b: Json)
    ensures CompareFirst(a, b) == Some(SpanWidth) <==> DriftInWidth(a, b)
  {
    hide Get, FileOf, SpanText, SpanStart, Or;
  }

  /** A valid record that answers: neither a clean stop nor a refusal. */
  predicate Answers(r: Json) {
    var v := ValidateRecord(r);
    v.Some? && !v.value.Passed? && !v.value.Unsupported?
  }

  /** Nothing that both records carry, and their verdict is compared on, tells them apart. */
  predicate ShareAnswer(a: Json, b: Json, structuralOnly: bool)
    requires Answers(a) && Answers(b)
  {
    var v := ValidateRecord(a).value;
    ValidateRecord(a) == ValidateRecord(b)
    && (v.Undefined? ==> !BothAndDiffer(UbRow(a), UbRow(b)))
    && (v.Failed? ==> First(a) == First(b))
    && (v.Exited? && !structuralOnly ==> Digest(a) == Digest(b))
    && (v.Trapped? && !structuralOnly ==> !BothAndDiffer(Digest(a), Digest(b)))
    && (Warns(a) && Warns(b) ==> SortedWarnings(a) == SortedWarnings(b))
  }

  /** What agreement of records that answer comes to. */
  lemma AgreeMeans(a: Json, b: Json, structuralOnly: bool)
    requires Answers(a) && Answers(b)
    ensures Compare(a, b, structuralOnly) == None <==> ShareAnswer(a, b, structuralOnly)
  {
    hide ValidateRecord, First, SortedWarnings, FirstStart, UbRow, Digest, Warns;
  }

  /** A record that carries every field its verdict is compared on. */
  predicate Complete(r: Json, structuralOnly: bool)
    requires Answers(r)
  {
    var v := ValidateRecord(r).value;
    Warns(r)
    && (v.Trapped? && !structuralOnly ==> Digest(r).Some?)
    && (v.Undefined? ==> UbRow(r).Some?)
  }

  /** What a complete record answers. */
  datatype Answer = Answer(verdict: Verdict, row: Option<string>, first: Option<Locus>,
                           stdout: Option<string>, warnings: seq<string>)

  function AnswerOf(r: Json, structuralOnly: bool): Answer
    requires Answers(r)
  {
    var v := ValidateRecord(r).value;
    Answer(v, if v.Undefined? then UbRow(r) else None,
           if v.Failed? then First(r) else None,
           if !structuralOnly && (v.Exited? || v.Trapped?) then Digest(r) else None,
           SortedWarnings(r))
  }

  /** Complete records agree exactly when they give the same answer: among them agreement is an equivalence. */
  lemma AgreeIffSameAnswer(a: Json, b: Json, structuralOnly: bool)
    requires Answers(a) && Answers(b) && Complete(a, structuralOnly) && Complete(b, structuralOnly)
    ensures Compare(a, b, structuralOnly) == None <==>
            AnswerOf(a, structuralOnly) == AnswerOf(b, structuralOnly)
  {
    hide Compare, ValidateRecord, First, SortedWarnings, UbRow, Digest, Warns;
    AgreeMeans(a, b, structuralOnly);
  }

  /** Agreement passes through a complete record, whatever its neighbours leave out. */
  lemma AgreeIsTransitive(a: Json, b: Json, c: Json, structuralOnly: bool)
    requires Answers(a) && Answers(b) && Answers(c) && Complete(b, structuralOnly)
    requires Compare(a, b, structuralOnly) == None && Compare(b, c, structuralOnly) == None
    ensures Compare(a, c, structuralOnly) == None
  {
    hide Compare, ValidateRecord, First, SortedWarnings, UbRow, Digest, Warns;
    AgreeMeans(a, b, structuralOnly);
    AgreeMeans(b, c, structuralOnly);
    AgreeMeans(a, c, structuralOnly);
  }

  /** Two valid records, each in agreement with `b`, and not with each other. */
  ghost predicate Breaks(b: Json, structuralOnly: bool, a: Json, c: Json) {
    ValidateRecord(a).Some? && ValidateRecord(c).Some?
    && Compare(a, b, structuralOnly) == None && Compare(b, c, structuralOnly) == None
    && Compare(a, c, structuralOnly) != None
  }

  /** Exactly the complete records pass agreement on. */
  lemma TransitiveIffComplete(b: Json, structuralOnly: bool)
    requires Answers(b)
    ensures Complete(b, structuralOnly) <==>
            forall a, c | Answers(a) && Answers(c) :: !Breaks(b, structuralOnly, a, c)
  {
    if Complete(b, structuralOnly) {
      hide Answers, Complete, Compare;
      forall a, c | Answers(a) && Answers(c) ensures !Breaks(b, structuralOnly, a, c) {
        if Compare(a, b, structuralOnly) == None && Compare(b, c, structuralOnly) == None {
          AgreeIsTransitive(a, b, c, structuralOnly);
        }
      }
    } else if !Warns(b) {
      NoWarningsBreak(b, structuralOnly);
    } else {
      NoTextBreaks(b, structuralOnly);
    }
  }

  // --------------------------------------------------- records rewritten --

  function Without(fields: seq<Member>, key: string): seq<Member> {
    if fields == [] then []
    else (if fields[0].key == key then [] else [fields[0]]) + Without(fields[1..], key)
  }

  /** The record with one member set. */
  function Put(r: Json, key: string, value: Json): Json
    requires r.Obj?
  {
    Obj([Member(key, value)] + Without(r.fields, key))
  }

  lemma {:induction false} FieldWithout(fields: seq<Member>, key: string, other: string)
    requires other != key
    ensures Field(Without(fields, key), other) == Field(fields, other)
  {
    if fields != [] {
      FieldWithout(fields[1..], key, other);
      if fields[0].key != key {
        assert ([fields[0]] + Without(fields[1..], key))[1..] == Without(fields[1..], key);
      } else {
        assert [] + Without(fields[1..], key) == Without(fields[1..], key);
      }
    }
  }

  lemma PutSets(r: Json, key: string, value: Json)
    requires r.Obj?
    ensures Get(Put(r, key, value), key) == Some(value)
    ensures forall other :: other != key ==> Get(Put(r, key, value), other) == Get(r, other)
  {
    var fields := Put(r, key, value).fields;
    assert fields[1..] == Without(r.fields, key);
    forall other | other != key ensures Get(Put(r, key, value), other) == Get(r, other) {
      FieldWithout(r.fields, key, other);
    }
  }

  /** Two records that differ in one member at most. */
  ghost predicate SameBut(r: Json, q: Json, key: string) {
    forall other :: other != key ==> Get(q, other) == Get(r, other)
  }

  /** The members that a verdict's own comparison reads, and validity does not. */
  predicate IsExtra(key: string) {
    key == "stdout_sha256" || key == "x-ub-row"
  }

  predicate IsRewritten(key: string) { IsExtra(key) || key == "warnings" }

  lemma SameMember(r: Json, q: Json, key: string, other: string)
    requires SameBut(r, q, key) && IsRewritten(key)
    requires (other != "" && other[0] !in ['s', 'x', 'w']) || other == "seeded"
    ensures Get(q, other) == Get(r, other)
  {
    hide Get;
    assert key[0] in ['s', 'x', 'w'] && |"seeded"| == 6 && |"stdout_sha256"| == 13;
  }

  lemma SameFirst(r: Json, q: Json, key: string)
    requires SameBut(r, q, key) && IsRewritten(key)
    ensures First(q) == First(r)
  {
    SameMember(r, q, key, "diagnostics");
    SameMember(r, q, key, "files");
    hide SpanText, Or, Get, SameBut, IsRewritten;
  }

  lemma SameHeader(r: Json, q: Json, key: string)
    requires SameBut(r, q, key) && IsRewritten(key)
    ensures HeaderShaped(q) == HeaderShaped(r)
  {
    SameMember(r, q, key, "protocol");
    SameMember(r, q, key, "impl");
    SameMember(r, q, key, "impl_version");
    SameMember(r, q, key, "commit");
    SameMember(r, q, key, "file");
    SameMember(r, q, key, "phase_reached");
    SameMember(r, q, key, "seeded");
    hide Get, SameBut, IsRewritten;
  }

  lemma SameDiagnostics(r: Json, q: Json, key: string)
    requires SameBut(r, q, key) && IsRewritten(key)
    ensures DiagnosticsShaped(q) == DiagnosticsShaped(r) && VerdictOf(q) == VerdictOf(r)
  {
    SameMember(r, q, key, "diagnostics");
    SameMember(r, q, key, "files");
    SameMember(r, q, key, "verdict");
    SameMember(r, q, key, "trap_message");
    hide Get, SameBut, IsRewritten, DiagnosticShaped, FilesAgree, ParseVerdict;
  }

  lemma SameWarnings(r: Json, q: Json, key: string)
    requires SameBut(r, q, key) && IsExtra(key)
    ensures WarningsShaped(q) == WarningsShaped(r) && SortedWarnings(q) == SortedWarnings(r) && Warns(q) == Warns(r)
  {
    assert Get(q, "warnings") == Get(r, "warnings") by { assert key[0] in ['s', 'x']; }
    hide Get, SameBut, IsExtra, WarningShaped, Keys, Sort;
  }

  lemma ValidIsObject(b: Json)
    requires ValidateRecord(b).Some?
    ensures b.Obj?
  {
    hide DiagnosticsShaped, WarningsShaped, VerdictOf;
  }

  lemma SameExtras(r: Json, q: Json)
    requires SameBut(r, q, "warnings")
    ensures Digest(q) == Digest(r) && UbRow(q) == UbRow(r)
  {
    hide Get;
    assert |"warnings"| != |"stdout_sha256"| && "warnings"[0] != "x-ub-row"[0];
  }

  lemma WarnedIsShaped(q: Json, ws: seq<Json>)
    requires Get(q, "warnings") == Some(Arr(ws)) && forall w | w in ws :: WarningShaped(w)
    ensures WarningsShaped(q)
  {
    hide Get, WarningShaped;
  }

  /** `b` with warnings it did not carry. */
  lemma Warned(b: Json, ws: seq<Json>) returns (q: Json)
    requires ValidateRecord(b).Some? && !Warns(b) && forall w | w in ws :: WarningShaped(w)
    ensures ValidateRecord(q) == ValidateRecord(b) && First(q) == First(b)
    ensures Digest(q) == Digest(b) && UbRow(q) == UbRow(b) && Get(q, "warnings") == Some(Arr(ws))
  {
    ValidIsObject(b);
    q := Put(b, "warnings", Arr(ws));
    PutSets(b, "warnings", Arr(ws));
    SameExtras(b, q);
    assert WarningsShaped(b);
    hide HeaderShaped, DiagnosticsShaped, WarningsShaped, VerdictOf, First, Digest, UbRow, Warns, Put, Get;
    WarnedIsShaped(q, ws);
    SameHeader(b, q, "warnings");
    SameDiagnostics(b, q, "warnings");
    SameFirst(b, q, "warnings");
  }

  lemma WarningsTell(a: Json, c: Json, structuralOnly: bool)
    requires ValidateRecord(a).Some? && !ValidateRecord(a).value.Unsupported? && ValidateRecord(a) == ValidateRecord(c)
    requires Warns(a) && Warns(c) && SortedWarnings(a) != SortedWarnings(c)
    ensures Compare(a, c, structuralOnly) != None
  {
    hide ValidateRecord, First, SortedWarnings, FirstStart, UbRow, Digest, Warns;
  }

  lemma NoWarningsBreak(b: Json, structuralOnly: bool)
    requires Answers(b) && !Warns(b)
    ensures exists a, c :: Answers(a) && Answers(c) && Breaks(b, structuralOnly, a, c)
  {
    var w := SomeWarning();
    var a := Warned(b, []);
    var c := Warned(b, [w]);
    OneWarning(a, c, w);
    hide Compare, ValidateRecord, First, SortedWarnings, UbRow, Digest, Warns;
    AgreeMeans(a, b, structuralOnly);
    AgreeMeans(b, c, structuralOnly);
    WarningsTell(a, c, structuralOnly);
    assert Answers(a) && Answers(c) && Breaks(b, structuralOnly, a, c);
  }

  lemma SomeWarning() returns (w: Json)
    ensures WarningShaped(w)
  {
    w := Obj([Member("code", Str("")), Member("span", Arr([Null, Null]))]);
    assert Field([Member("span", Arr([Null, Null]))], "span").Some?;
  }

  lemma OneWarning(a: Json, c: Json, w: Json)
    requires Get(a, "warnings") == Some(Arr([])) && Get(c, "warnings") == Some(Arr([w]))
    ensures Warns(a) && Warns(c) && SortedWarnings(a) != SortedWarnings(c)
  {
    hide Get, WarningKey, Sort;
    assert |Keys([])| == 0 && |Keys([w])| == 1;
    assert |SortedWarnings(a)| == 0 && |SortedWarnings(c)| == 1;
  }

  /** `b` with another text under a member its verdict is compared on. */
  lemma Told(b: Json, key: string, text: string) returns (q: Json)
    requires Answers(b) && IsExtra(key)
    ensures ValidateRecord(q) == ValidateRecord(b) && First(q) == First(b) && GetStr(q, key) == Some(text)
    ensures Warns(q) == Warns(b) && SortedWarnings(q) == SortedWarnings(b)
  {
    ValidIsObject(b);
    q := Put(b, key, Str(text));
    PutSets(b, key, Str(text));
    hide HeaderShaped, DiagnosticsShaped, WarningsShaped, VerdictOf, First, SortedWarnings, Warns, Put, Get;
    SameHeader(b, q, key);
    SameDiagnostics(b, q, key);
    SameFirst(b, q, key);
    SameWarnings(b, q, key);
  }

  lemma NoTextBreaks(b: Json, structuralOnly: bool)
    requires Answers(b)
    requires if ValidateRecord(b).value.Undefined? then UbRow(b).None?
             else ValidateRecord(b).value.Trapped? && !structuralOnly && Digest(b).None?
    ensures exists a, c :: Answers(a) && Answers(c) && Breaks(b, structuralOnly, a, c)
  {
    hide Compare, ValidateRecord, First, SortedWarnings, Warns;
    var key := if ValidateRecord(b).value.Undefined? then "x-ub-row" else "stdout_sha256";
    var a := Told(b, key, "1");
    var c := Told(b, key, "2");
    AgreeMeans(a, b, structuralOnly);
    AgreeMeans(b, c, structuralOnly);
    ClassMeans(a, c, structuralOnly, ValidateRecord(b).value, ValidateRecord(b).value);
    assert Answers(a) && Answers(c) && Breaks(b, structuralOnly, a, c);
  }

  /** Two lanes that both ran the program are never excused from answering alike. */
  lemma CoveredAgreeOnVerdict(a: Json, b: Json, structuralOnly: bool)
    requires CoveredAtRun(a) && CoveredAtRun(b)
    requires ValidateRecord(a).Some? && ValidateRecord(b).Some?
    requires Compare(a, b, structuralOnly) == None
    ensures ValidateRecord(a) == ValidateRecord(b) && Dynamic(ValidateRecord(a).value)
  {
    hide ParseVerdict, First, SortedWarnings, FilesAgree, Field;
  }

  /** A trap that kept no digest agrees with two traps that printed different things. */
  lemma MissingDigestBreaksTransitivity(a: Json, b: Json, c: Json)
    requires ValidateRecord(a).Some? && ValidateRecord(a).value.Trapped?
    requires ValidateRecord(a) == ValidateRecord(b) == ValidateRecord(c)
    requires Get(a, "warnings") == Get(b, "warnings") == Get(c, "warnings") == None
    requires Digest(b).None?
    requires Digest(a).Some? && Digest(c).Some?
    requires Digest(a) != Digest(c)
    ensures Compare(a, b, false) == None && Compare(b, c, false) == None
    ensures Compare(a, c, false) == Some(Stdout)
  {
    hide ValidateRecord, First, SortedWarnings;
  }

  /** A small record with a verdict, and with a digest or none. */
  function Sample(verdict: string, digest: Option<string>): Json {
    Obj([Member("protocol", Int(1)), Member("impl", Str("")), Member("impl_version", Str("")),
         Member("commit", Str("")), Member("file", Str("")), Member("phase_reached", Str("run")),
         Member("seeded", Bool(true)), Member("diagnostics", Arr([])),
         Member("verdict", Str(verdict)),
         Member("stdout_sha256", if digest.Some? then Str(digest.value) else Null)])
  }

  lemma {:induction false} FieldAt(fields: seq<Member>, k: nat)
    requires k < |fields| && forall j :: 0 <= j < k ==> fields[j].key != fields[k].key
    ensures Field(fields, fields[k].key) == Some(fields[k].value)
  {
    if k > 0 {
      FieldAt(fields[1..], k - 1);
    }
  }

  lemma {:induction false} NoField(fields: seq<Member>, key: string)
    requires forall j :: 0 <= j < |fields| ==> fields[j].key != key
    ensures Field(fields, key) == None
  {
    if fields != [] {
      NoField(fields[1..], key);
    }
  }

  /** The sample's keys, each once. */
  lemma SampleKeys(verdict: string, digest: Option<string>)
    ensures var fields := Sample(verdict, digest).fields;
            |fields| == 10 && (forall j, k :: 0 <= j < k < 10 ==> fields[j].key != fields[k].key)
            && forall k :: 0 <= k < 10 ==> fields[k].key !in ["files", "warnings", "trap_message"]
  {
    var fields := Sample(verdict, digest).fields;
    var keys := ["protocol", "impl", "impl_version", "commit", "file", "phase_reached", "seeded",
                 "diagnostics", "verdict", "stdout_sha256"];
    assert forall k :: 0 <= k < 10 ==> fields[k].key == keys[k];
  }

  lemma SampleFields(verdict: string, digest: Option<string>)
    ensures var r := Sample(verdict, digest);
            Get(r, "protocol") == Some(Int(1)) && Get(r, "seeded") == Some(Bool(true))
            && Get(r, "diagnostics") == Some(Arr([])) && Get(r, "verdict") == Some(Str(verdict))
            && Digest(r) == digest
  {
    var fields := Sample(verdict, digest).fields;
    SampleKeys(verdict, digest);
    hide Field;
    FieldAt(fields, 0);
    FieldAt(fields, 6);
    FieldAt(fields, 7);
    FieldAt(fields, 8);
    FieldAt(fields, 9);
  }

  lemma SampleTexts(verdict: string, digest: Option<string>)
    ensures var r := Sample(verdict, digest);
            GetStr(r, "impl").Some? && GetStr(r, "impl_version").Some? && GetStr(r, "commit").Some?
            && GetStr(r, "file").Some? && GetStr(r, "phase_reached").Some?
  {
    var fields := Sample(verdict, digest).fields;
    SampleKeys(verdict, digest);
    hide Field;
    FieldAt(fields, 1);
    FieldAt(fields, 2);
    FieldAt(fields, 3);
    FieldAt(fields, 4);
    FieldAt(fields, 5);
  }

  lemma SampleLacks(verdict: string, digest: Option<string>)
    ensures var r := Sample(verdict, digest);
            Get(r, "files") == Get(r, "warnings") == Get(r, "trap_message") == None
  {
    var fields := Sample(verdict, digest).fields;
    SampleKeys(verdict, digest);
    hide Field;
    NoField(fields, "files");
    NoField(fields, "warnings");
    NoField(fields, "trap_message");
  }

  lemma BoundsIsSpelled()
    ensures ParseVerdict("trap(bounds)") == Some(Trapped("bounds"))
  {
    VerdictRoundTrip(Trapped("bounds"));
    assert TRAP_KINDS[2] == "bounds";
    hide TRAP_KINDS, ParseVerdict;
    assert "trap(" + "bounds" + ")" == "trap(bounds)";
  }

  lemma SampleIsValid(verdict: string, digest: Option<string>)
    requires ParseVerdict(verdict).Some?
    ensures ValidateRecord(Sample(verdict, digest)) == ParseVerdict(verdict) && !Warns(Sample(verdict, digest))
  {
    hide ParseVerdict;
    SampleFields(verdict, digest);
    SampleTexts(verdict, digest);
    SampleLacks(verdict, digest);
    var r := Sample(verdict, digest);
    hide Sample, Get;
    assert HeaderShaped(r) by { hide DiagnosticsShaped, WarningsShaped, VerdictOf; }
    hide HeaderShaped;
    assert DiagnosticsShaped(r) && WarningsShaped(r) by { hide VerdictOf; }
    hide DiagnosticsShaped, WarningsShaped;
  }

  lemma NoDigestIsNotTransitive()
    ensures var a, b := Sample("trap(bounds)", Some("1")), Sample("trap(bounds)", None);
            var c := Sample("trap(bounds)", Some("2"));
            ValidateRecord(a).Some? && Compare(a, b, false) == None && Compare(b, c, false) == None
            && Compare(a, c, false) == Some(Stdout)
  {
    BoundsIsSpelled();
    hide ParseVerdict, Sample, ValidateRecord, Compare, Get;
    SampleIsValid("trap(bounds)", Some("1"));
    SampleIsValid("trap(bounds)", None);
    SampleIsValid("trap(bounds)", Some("2"));
    SampleFields("trap(bounds)", Some("1"));
    SampleFields("trap(bounds)", None);
    SampleFields("trap(bounds)", Some("2"));
    SampleLacks("trap(bounds)", Some("1"));
    SampleLacks("trap(bounds)", None);
    SampleLacks("trap(bounds)", Some("2"));
    MissingDigestBreaksTransitivity(Sample("trap(bounds)", Some("1")), Sample("trap(bounds)", None),
                                    Sample("trap(bounds)", Some("2")));
  }

  /** A record that agrees with a rejection is refused, or is the same rejection. */
  lemma RejectionHears(a: Json, b: Json, c: Json, structuralOnly: bool)
    requires Breaks(b, structuralOnly, a, c) && ValidateRecord(b).Some? && ValidateRecord(b).value.Failed?
    ensures Answers(a) && Answers(c)
  {
    hide ValidateRecord, First, SortedWarnings, FirstStart, UbRow, Digest, Warns;
  }

  lemma Spelled()
    ensures ParseVerdict("pass") == Some(Passed)
    ensures ParseVerdict("exit(0)") == Some(Exited(0)) && ParseVerdict("exit(1)") == Some(Exited(1))
  {
    VerdictRoundTrip(Passed);
    VerdictRoundTrip(Exited(0));
    VerdictRoundTrip(Exited(1));
    hide ParseVerdict;
    assert Padded(0, 0) == "0" && Padded(1, 0) == "1";
    assert "exit(" + "0" + ")" == "exit(0)" && "exit(" + "1" + ")" == "exit(1)";
  }

  /** A clean stop and a refusal agree with any two outcomes. */
  lemma ExitsBreak(b: Json, structuralOnly: bool)
    requires ValidateRecord(b) == Some(Passed) || ValidateRecord(b) == Some(Unsupported)
    ensures exists a, c :: Breaks(b, structuralOnly, a, c)
  {
    Spelled();
    hide ParseVerdict, Sample;
    var a, c := Sample("exit(0)", None), Sample("exit(1)", None);
    SampleIsValid("exit(0)", None);
    SampleIsValid("exit(1)", None);
    hide ValidateRecord, First, SortedWarnings, FirstStart, UbRow, Digest, Warns;
    assert Breaks(b, structuralOnly, a, c);
  }

  /** An outcome agrees with any two clean stops, whatever they warn of. */
  lemma StopsBreak(b: Json, structuralOnly: bool)
    requires ValidateRecord(b).Some? && Dynamic(ValidateRecord(b).value)
    ensures exists a, c :: Breaks(b, structuralOnly, a, c)
  {
    Spelled();
    hide ParseVerdict, Sample;
    SampleIsValid("pass", None);
    hide ValidateRecord, First, SortedWarnings, FirstStart, UbRow, Digest;
    var w := SomeWarning();
    var a := Warned(Sample("pass", None), []);
    var c := Warned(Sample("pass", None), [w]);
    OneWarning(a, c, w);
    hide Warns;
    WarningsTell(a, c, structuralOnly);
    assert Breaks(b, structuralOnly, a, c);
  }

  /** Among all valid records, refusals and clean stops included, only a
      rejection that carries warnings passes agreement on. */
  lemma TransitiveAmongAll(b: Json, structuralOnly: bool)
    requires ValidateRecord(b).Some?
    ensures ValidateRecord(b).value.Failed? && Warns(b) <==> forall a, c :: !Breaks(b, structuralOnly, a, c)
  {
    var v := ValidateRecord(b).value;
    if v.Failed? {
      TransitiveIffComplete(b, structuralOnly);
      hide ValidateRecord, Compare, Warns;
      forall a, c | Breaks(b, structuralOnly, a, c) ensures Answers(a) && Answers(c) {
        RejectionHears(a, b, c, structuralOnly);
      }
    } else if v.Passed? || v.Unsupported? {
      ExitsBreak(b, structuralOnly);
    } else {
      StopsBreak(b, structuralOnly);
    }
  }

  // ----------------------------------------------------------- warnings --

  /** A warning as [proto.record.warn] has it: a code and two byte offsets. */
  datatype Warning = Warning(code: string, lo: nat, hi: nat)

  function ToJson(w: Warning): Json {
    Obj([Member("code", Str(w.code)), Member("span", Arr([Int(w.lo), Int(w.hi)]))])
  }

  function ToJsons(ws: seq<Warning>): seq<Json> {
    if ws == [] then [] else [ToJson(ws[0])] + ToJsons(ws[1..])
  }

  /** A span of two byte offsets, as JSON prints it. */
  function Offsets(lo: nat, hi: nat): string {
    "[" + (Padded(lo, 0) + "," + (Padded(hi, 0) + "]"))
  }

  function KeyText(w: Warning): string {
    w.code + "@" + Offsets(w.lo, w.hi)
  }

  lemma JoinTwo(a: string, b: string, sep: string)
    ensures Join([a, b], sep) == a + sep + b
  {
    assert [a, b][1..] == [b];
    assert Join([b], sep) == b;
  }

  lemma KeyIsText(w: Warning)
    ensures WarningKey(ToJson(w)) == KeyText(w)
  {
    hide Padded;
    var fields := ToJson(w).fields;
    assert fields[1..][0].key == "span" && "code" != "span";
    assert Field(fields, "span") == Some(Arr([Int(w.lo), Int(w.hi)]));
    SpanIsOffsets(ToJson(w), w.lo, w.hi);
  }

  lemma SpanIsOffsets(d: Json, lo: nat, hi: nat)
    requires Get(d, "span") == Some(Arr([Int(lo), Int(hi)]))
    ensures SpanText(d) == Offsets(lo, hi)
  {
    hide Padded, Get;
    var items := [Int(lo), Int(hi)];
    assert items[1..] == [Int(hi)] && [Int(hi)][1..] == [];
    assert RenderItems([Int(hi)]) == [Padded(hi, 0)] + [];
    assert RenderItems(items) == [Padded(lo, 0), Padded(hi, 0)];
    JoinTwo(Padded(lo, 0), Padded(hi, 0), ",");
    var inner := Padded(lo, 0) + "," + Padded(hi, 0);
    assert "[" + inner + "]" == "[" + (Padded(lo, 0) + "," + (Padded(hi, 0) + "]"));
  }

  /** Two strings joined by a separator that neither left part holds, or neither right part. */
  lemma FirstSeparator(a: string, b: string, a': string, b': string, sep: char)
    requires sep !in a && sep !in a' && a + [sep] + b == a' + [sep] + b'
    ensures a == a' && b == b'
  {
    var s := a + [sep] + b;
    assert s == a' + [sep] + b';
    assert forall i :: 0 <= i < |a| ==> s[i] == a[i] && a[i] in a;
    assert forall i :: 0 <= i < |a'| ==> s[i] == a'[i] && a'[i] in a';
    assert s[|a|] == sep && s[|a'|] == sep;
    FindIs(s, sep, |a|);
    FindIs(s, sep, |a'|);
    assert a == s[..|a|] && a' == s[..|a'|];
    assert b == s[|a| + 1..] && b' == s[|a'| + 1..];
  }

  lemma NoneAfterLast(a: string, b: string, sep: char, i: nat)
    requires sep !in b
    ensures |a| < i <= |a| + |b| ==> (a + [sep] + b)[i] != sep
  {
    assert |a| < i <= |a| + |b| ==> (a + [sep] + b)[i] == b[i - |a| - 1] && b[i - |a| - 1] in b;
  }

  lemma LastSeparator(a: string, b: string, a': string, b': string, sep: char)
    requires sep !in b && sep !in b' && a + [sep] + b == a' + [sep] + b'
    ensures a == a' && b == b'
  {
    var s := a + [sep] + b;
    assert s == a' + [sep] + b' && s[|a|] == sep && s[|a'|] == sep;
    assert |s| == |a| + 1 + |b| == |a'| + 1 + |b'|;
    NoneAfterLast(a, b, sep, |a'|);
    NoneAfterLast(a', b', sep, |a|);
    assert a == s[..|a|] && a' == s[..|a'|];
    assert b == s[|a| + 1..] && b' == s[|a'| + 1..];
  }

  lemma PaddedIsInjective(m: nat, n: nat)
    requires Padded(m, 0) == Padded(n, 0)
    ensures m == n
  {
    hide Padded, ParseInt;
    ParsePadded(m, 0, 0, m + n);
    ParsePadded(n, 0, 0, m + n);
  }

  lemma SpanTail(w: Warning)
    ensures '@' !in Offsets(w.lo, w.hi)
    ensures ',' !in Padded(w.lo, 0)
  {
    hide Padded;
    NumeralChars(w.lo);
    NumeralChars(w.hi);
  }

  /** The text of a warning names it: no two warnings share one. */
  lemma KeyTextIsInjective(v: Warning, w: Warning)
    requires KeyText(v) == KeyText(w)
    ensures v == w
  {
    hide Padded;
    SpanTail(v);
    SpanTail(w);
    var l, h, l', h' := Padded(v.lo, 0), Padded(v.hi, 0) + "]", Padded(w.lo, 0), Padded(w.hi, 0) + "]";
    LastSeparator(v.code, "[" + (l + "," + h), w.code, "[" + (l' + "," + h'), '@');
    assert ("[" + (l + "," + h))[1..] == l + [','] + h;
    assert ("[" + (l' + "," + h'))[1..] == l' + [','] + h';
    FirstSeparator(l, h, l', h', ',');
    PaddedIsInjective(v.lo, w.lo);
    assert h[..|h| - 1] == Padded(v.hi, 0) && h'[..|h'| - 1] == Padded(w.hi, 0);
    PaddedIsInjective(v.hi, w.hi);
  }

  lemma {:induction false} KeysCount(ws: seq<Warning>, w: Warning)
    ensures multiset(Keys(ToJsons(ws)))[KeyText(w)] == multiset(ws)[w]
  {
    hide KeyText, WarningKey, ToJson;
    if ws != [] {
      KeysCount(ws[1..], w);
      KeyIsText(ws[0]);
      assert ws == [ws[0]] + ws[1..] && multiset(ws) == multiset{ws[0]} + multiset(ws[1..]);
      var tail := Keys(ToJsons(ws[1..]));
      assert ToJsons(ws)[1..] == ToJsons(ws[1..]);
      assert Keys(ToJsons(ws)) == [KeyText(ws[0])] + tail;
      if KeyText(ws[0]) == KeyText(w) {
        KeyTextIsInjective(ws[0], w);
      }
    }
  }

  lemma {:induction false} KeysOfEqualBags(ws: seq<Warning>, vs: seq<Warning>, key: string)
    requires multiset(ws) == multiset(vs)
    ensures multiset(Keys(ToJsons(ws)))[key] == multiset(Keys(ToJsons(vs)))[key]
  {
    hide KeyText;
    if w: Warning :| KeyText(w) == key {
      KeysCount(ws, w);
      KeysCount(vs, w);
    } else {
      KeysAreTexts(ws, key);
      KeysAreTexts(vs, key);
    }
  }

  lemma {:induction false} KeysAreTexts(ws: seq<Warning>, key: string)
    requires forall w: Warning :: KeyText(w) != key
    ensures key !in Keys(ToJsons(ws))
  {
    hide KeyText, WarningKey, ToJson;
    if ws != [] {
      KeysAreTexts(ws[1..], key);
      KeyIsText(ws[0]);
      assert ToJsons(ws)[1..] == ToJsons(ws[1..]);
    }
  }

  /** The sorted warning texts agree iff the records carry the same warnings as often. */
  lemma WarningsAgreeIffSameBag(ws: seq<Warning>, vs: seq<Warning>)
    ensures Sort(StrLeq, Keys(ToJsons(ws))) == Sort(StrLeq, Keys(ToJsons(vs))) <==>
            multiset(ws) == multiset(vs)
  {
    hide KeyText;
    var kw, kv := Keys(ToJsons(ws)), Keys(ToJsons(vs));
    StrLeqIsTotal();
    SortOfPermutation(StrLeq, kw, kv);
    if multiset(kw) == multiset(kv) {
      forall w ensures multiset(ws)[w] == multiset(vs)[w] {
        KeysCount(ws, w);
        KeysCount(vs, w);
      }
    }
    if multiset(ws) == multiset(vs) {
      forall key ensures multiset(kw)[key] == multiset(kv)[key] {
        KeysOfEqualBags(ws, vs, key);
      }
    }
  }

  // -------------------------------------------------------- closed form --

  /** A diagnostic as [proto.record.diag] has it: its code, two byte offsets,
      and the path of the file it names. */
  datatype Diagnostic = Diagnostic(code: string, lo: nat, hi: nat, path: string)

  /** No `file`, or file 0, is the entry; any other is a path of the record's own list. */
  predicate Resolves(r: Json, d: Json, path: string) {
    if Get(d, "file") == None || Get(d, "file") == Some(Int(0)) then path == "<entry>"
    else
      Get(d, "file").value.Int? && GetItems(r, "files").Some?
      && 0 < Get(d, "file").value.n < |GetItems(r, "files").value| && Get(d, "file").value.n < 0x1_0000_0000_0000_0000
      && GetItems(r, "files").value[Get(d, "file").value.n] == Str(path)
  }

  /** The record's first diagnostic; none if it has none. */
  predicate Opens(r: Json, first: Option<Diagnostic>) {
    var diags := GetItems(r, "diagnostics");
    diags.Some?
    && match first
       case None => diags.value == []
       case Some(d) =>
         diags.value != [] && GetStr(diags.value[0], "code") == Some(d.code)
         && Get(diags.value[0], "span") == Some(Arr([Int(d.lo), Int(d.hi)])) && Resolves(r, diags.value[0], d.path)
  }

  /** The record's warnings; none if it leaves the array out. */
  predicate Lists(r: Json, warnings: Option<seq<Warning>>) {
    match warnings
    case None => Get(r, "warnings") == None
    case Some(ws) => Get(r, "warnings") == Some(Arr(ToJsons(ws)))
  }

  /** The offsets a record can hold. */
  predicate Offset(first: Option<Diagnostic>) {
    first.Some? ==> first.value.lo < 0x1_0000_0000_0000_0000
  }

  predicate SameStart(d: Option<Diagnostic>, e: Option<Diagnostic>) {
    d.Some? && e.Some? && d.value.code == e.value.code && d.value.path == e.value.path && d.value.lo == e.value.lo
  }

  /** What two records of one verdict diverge by, in plain values: a width drift
      is the one difference of the first diagnostics that is not `Diag`, and
      warnings count as often as they are given, in any order. */
  lemma SameVerdictCompared(a: Json, b: Json, structuralOnly: bool, v: Verdict,
                            d: Option<Diagnostic>, e: Option<Diagnostic>,
                            ws: Option<seq<Warning>>, vs: Option<seq<Warning>>)
    requires ValidateRecord(a) == ValidateRecord(b) == Some(v) && !v.Unsupported?
    requires v.Failed? ==> Opens(a, d) && Opens(b, e) && Offset(d) && Offset(e)
    requires Lists(a, ws) && Lists(b, vs)
    ensures Compare(a, b, structuralOnly)
         == if v.Undefined? && BothAndDiffer(GetStr(a, "x-ub-row"), GetStr(b, "x-ub-row")) then Some(Soundness)
            else if v.Failed? && d != e then Some(if SameStart(d, e) then SpanWidth else Diag)
            else if !structuralOnly && v.Exited? && GetStr(a, "stdout_sha256") != GetStr(b, "stdout_sha256")
            then Some(Stdout)
            else if !structuralOnly && v.Trapped?
                    && BothAndDiffer(GetStr(a, "stdout_sha256"), GetStr(b, "stdout_sha256"))
            then Some(Stdout)
            else if ws.Some? && vs.Some? && multiset(ws.value) != multiset(vs.value) then Some(Diag)
            else None
  {
    hide ValidateRecord, SortedWarnings, CompareFirst, GetStr, Opens, Lists, Warns, SameStart;
    if v.Failed? {
      FirstsCompared(a, b, d, e);
    }
    WarningsCompared(a, b, ws, vs);
  }

  lemma WarningsCompared(a: Json, b: Json, ws: Option<seq<Warning>>, vs: Option<seq<Warning>>)
    requires Lists(a, ws) && Lists(b, vs)
    ensures Warns(a) && Warns(b) && SortedWarnings(a) != SortedWarnings(b)
            <==> ws.Some? && vs.Some? && multiset(ws.value) != multiset(vs.value)
  {
    WarnsAs(a, ws);
    WarnsAs(b, vs);
    hide Lists, Warns, SortedWarnings, Keys, ToJsons, Sort;
    if ws.Some? && vs.Some? {
      WarningsAgreeIffSameBag(ws.value, vs.value);
    }
  }

  lemma WarnsAs(r: Json, ws: Option<seq<Warning>>)
    requires Lists(r, ws)
    ensures Warns(r) == ws.Some?
    ensures ws.Some? ==> SortedWarnings(r) == Sort(StrLeq, Keys(ToJsons(ws.value)))
  {
    hide Get, Keys, ToJsons, Sort;
  }

  lemma FirstIs(r: Json, d: Diagnostic)
    requires Opens(r, Some(d)) && Offset(Some(d))
    ensures First(r) == Some(Locus(d.code, Offsets(d.lo, d.hi), d.path)) && FirstStart(r) == Some(d.lo)
  {
    var j := GetItems(r, "diagnostics").value[0];
    SpanIsOffsets(j, d.lo, d.hi);
    hide Get, SpanText, Offsets;
    assert FileOf(r, j) == d.path;
    hide FileOf, Resolves;
    assert [Int(d.lo), Int(d.hi)][0] == Int(d.lo);
  }

  lemma OffsetsAreInjective(d: Diagnostic, e: Diagnostic)
    ensures Offsets(d.lo, d.hi) == Offsets(e.lo, e.hi) <==> d.lo == e.lo && d.hi == e.hi
  {
    hide Offsets;
    if Offsets(d.lo, d.hi) == Offsets(e.lo, e.hi) {
      KeyTextIsInjective(Warning("", d.lo, d.hi), Warning("", e.lo, e.hi));
    }
  }

  lemma FirstsCompared(a: Json, b: Json, d: Option<Diagnostic>, e: Option<Diagnostic>)
    requires Opens(a, d) && Opens(b, e) && Offset(d) && Offset(e)
    ensures CompareFirst(a, b) == if d == e then None else Some(if SameStart(d, e) then SpanWidth else Diag)
  {
    if d.Some? {
      FirstIs(a, d.value);
    }
    if e.Some? {
      FirstIs(b, e.value);
    }
    if d.Some? && e.Some? {
      OffsetsAreInjective(d.value, e.value);
      hide Opens, First, FirstStart, Offsets;
    }
  }

  lemma ParsedIsSpelled(s: string)
    ensures ParseVerdict(s).Some? ==> Spells(s, ParseVerdict(s).value)
  {
    BetweenIs(s, "fail(", ")");
    BetweenIs(s, "exit(", ")");
    BetweenIs(s, "trap(", ")");
    BetweenIs(s, "ub(", ")");
    hide Between, ParseInt, TRAP_KINDS;
  }

  ghost predicate Spells(s: string, v: Verdict) {
    match v
    case Passed => s == "pass"
    case Unsupported => s == "unsupported"
    case Failed(code) => s == "fail(" + code + ")"
    case Exited(n) => exists t: string :: s == "exit(" + t + ")" && ParseInt(t, I64_MIN, I64_MAX) == Some(n)
    case Trapped(kind) => kind in TRAP_KINDS && s == "trap(" + kind + ")"
    case Undefined(anchor) => s == "ub(" + anchor + ")"
  }

  lemma ExitIsParsed(t: string, n: int)
    requires ParseInt(t, I64_MIN, I64_MAX) == Some(n)
    ensures ParseVerdict("exit(" + t + ")") == Some(Exited(n))
  {
    hide Between, ParseInt;
    OnlyItsOwnOpening("exit(", t, "fail(");
    BetweenOf("exit(", t, ")");
  }

  /** A text is read as a verdict exactly when it spells it; an exit status in any spelling an i64 has. */
  lemma ParseVerdictMeans(s: string, v: Verdict)
    ensures ParseVerdict(s) == Some(v) <==> Spells(s, v)
  {
    hide ParseInt, ParseVerdict, Spells;
    ParsedIsSpelled(s);
    if Spells(s, v) {
      SpelledIsParsed(s, v);
    }
  }

  lemma SpelledIsParsed(s: string, v: Verdict)
    requires Spells(s, v)
    ensures ParseVerdict(s) == Some(v)
  {
    hide ParseInt, ParseVerdict, Padded, TRAP_KINDS;
    if v.Exited? {
      var t: string :| s == "exit(" + t + ")" && ParseInt(t, I64_MIN, I64_MAX) == Some(v.status);
      ExitIsParsed(t, v.status);
    } else {
      VerdictRoundTrip(v);
    }
  }

  const TEXTS: seq<string> := ["impl", "impl_version", "commit", "file", "phase_reached"]

  /** A code and a span of two, whatever the two are. */
  ghost predicate CodeAndSpan(d: Json) {
    (exists code :: Get(d, "code") == Some(Str(code))) && exists lo, hi :: Get(d, "span") == Some(Arr([lo, hi]))
  }

  /** The diagnostics name files of the list, all of them, or there is no list and none does. */
  ghost predicate NamesFiles(r: Json, diags: seq<Json>) {
    || (Get(r, "files") == None && forall d | d in diags :: Get(d, "file") == None)
    || exists fs :: Get(r, "files") == Some(Arr(fs)) && fs != [] && (forall f | f in fs :: f.Str?)
                    && forall d | d in diags :: Indexes(Get(d, "file"), |fs|)
  }

  ghost predicate Indexes(file: Option<Json>, n: nat) {
    exists i :: file == Some(Int(i)) && 0 <= i < n && i < 0x1_0000_0000_0000_0000
  }

  /** A record as the protocol has it. */
  ghost predicate WellFormed(r: Json, v: Verdict) {
    && Get(r, "protocol") == Some(Int(1))
    && (forall key | key in TEXTS :: GetStr(r, key).Some?)
    && (exists seeded :: Get(r, "seeded") == Some(Bool(seeded)))
    && (exists diags :: Get(r, "diagnostics") == Some(Arr(diags)) && NamesFiles(r, diags)
                        && forall d | d in diags :: CodeAndSpan(d) && GetStr(d, "severity").Some?)
    && (Get(r, "warnings") == None ||
        exists ws :: Get(r, "warnings") == Some(Arr(ws)) && forall w | w in ws :: CodeAndSpan(w))
    && (exists text :: Get(r, "verdict") == Some(Str(text)) && Spells(text, v))
    && (Get(r, "trap_message") == None || (v.Trapped? && exists text :: Get(r, "trap_message") == Some(Str(text))))
  }

  lemma CodeAndSpanMeans(d: Json)
    ensures CodeAndSpan(d) <==> WarningShaped(d)
    ensures DiagnosticShaped(d) <==> CodeAndSpan(d) && GetStr(d, "severity").Some?
  {
    hide Get;
    if WarningShaped(d) {
      var span := GetItems(d, "span").value;
      assert span == [span[0], span[1]];
      assert Get(d, "code") == Some(Str(GetStr(d, "code").value));
    }
  }

  lemma HeaderMeans(r: Json)
    ensures HeaderShaped(r) <==>
            Get(r, "protocol") == Some(Int(1)) && (forall key | key in TEXTS :: GetStr(r, key).Some?)
            && (exists seeded :: Get(r, "seeded") == Some(Bool(seeded)))
  {
    hide Get, GetStr;
    assert TEXTS[0] in TEXTS && TEXTS[1] in TEXTS && TEXTS[2] in TEXTS && TEXTS[3] in TEXTS && TEXTS[4] in TEXTS;
    if HeaderShaped(r) {
      assert Get(r, "seeded") == Some(Bool(Get(r, "seeded").value.b));
    }
  }

  lemma FilesMean(r: Json, diags: seq<Json>)
    ensures FilesAgree(Get(r, "files"), diags) <==> NamesFiles(r, diags)
  {
    hide Get, AsU64, Indexes;
    var fs := GetItems(r, "files");
    if fs.Some? {
      forall d | d in diags
        ensures Indexes(Get(d, "file"), |fs.value|) <==>
                AsU64(Get(d, "file")).Some? && AsU64(Get(d, "file")).value < |fs.value| {
        IndexMeans(Get(d, "file"), |fs.value|);
      }
      assert Get(r, "files") == Some(Arr(fs.value));
    }
  }

  lemma IndexMeans(file: Option<Json>, n: nat)
    ensures AsU64(file).Some? && AsU64(file).value < n <==> Indexes(file, n)
  {
  }

  lemma DiagnosticsMean(r: Json)
    ensures DiagnosticsShaped(r) <==>
            exists diags :: Get(r, "diagnostics") == Some(Arr(diags)) && NamesFiles(r, diags)
                            && forall d | d in diags :: CodeAndSpan(d) && GetStr(d, "severity").Some?
  {
    forall d ensures DiagnosticShaped(d) <==> CodeAndSpan(d) && GetStr(d, "severity").Some? {
      CodeAndSpanMeans(d);
    }
    var diags := GetItems(r, "diagnostics");
    if diags.Some? {
      FilesMean(r, diags.value);
      assert Get(r, "diagnostics") == Some(Arr(diags.value));
    }
    hide Get, DiagnosticShaped, CodeAndSpan, FilesAgree, NamesFiles, GetStr;
  }

  lemma WarningsMean(r: Json)
    ensures WarningsShaped(r) <==>
            Get(r, "warnings") == None ||
            exists ws :: Get(r, "warnings") == Some(Arr(ws)) && forall w | w in ws :: CodeAndSpan(w)
  {
    forall w ensures WarningShaped(w) <==> CodeAndSpan(w) {
      CodeAndSpanMeans(w);
    }
    hide Get, WarningShaped, CodeAndSpan;
    if GetItems(r, "warnings").Some? {
      assert Get(r, "warnings") == Some(Arr(GetItems(r, "warnings").value));
    }
  }

  lemma VerdictOfMeans(r: Json, v: Verdict)
    ensures VerdictOf(r) == Some(v) <==>
            (exists text :: Get(r, "verdict") == Some(Str(text)) && Spells(text, v))
            && (Get(r, "trap_message") == None ||
                (v.Trapped? && exists text :: Get(r, "trap_message") == Some(Str(text))))
  {
    hide Get, ParseVerdict, Spells;
    if GetStr(r, "verdict").Some? {
      ParseVerdictMeans(GetStr(r, "verdict").value, v);
      assert Get(r, "verdict") == Some(Str(GetStr(r, "verdict").value));
    }
    if GetStr(r, "trap_message").Some? {
      assert Get(r, "trap_message") == Some(Str(GetStr(r, "trap_message").value));
    }
  }

  /** Validation accepts exactly the well-formed records, with the verdict they spell. */
  lemma ValidMeans(r: Json, v: Verdict)
    ensures ValidateRecord(r) == Some(v) <==> WellFormed(r, v)
  {
    HeaderMeans(r);
    DiagnosticsMean(r);
    WarningsMean(r);
    VerdictOfMeans(r, v);
    hide HeaderShaped, DiagnosticsShaped, WarningsShaped, VerdictOf, Get, GetStr, NamesFiles, CodeAndSpan, Spells;
  }

  /** A lane ran the program exactly when it reached `run` and its verdict is an outcome. */
  lemma CoveredMeans(r: Json)
    ensures CoveredAtRun(r) <==>
            Get(r, "phase_reached") == Some(Str("run"))
            && exists text, v :: Get(r, "verdict") == Some(Str(text)) && Spells(text, v)
                                 && (v.Exited? || v.Trapped? || v.Undefined?)
  {
    hide Get, ParseVerdict, Spells;
    forall text, v: Verdict ensures ParseVerdict(text) == Some(v) <==> Spells(text, v) {
      ParseVerdictMeans(text, v);
    }
  }
}
