/** The `check:` value of a corpus header, parsed and printed: xtask/src/corpus.rs. */
module RunCheck {
  import opened Wrappers
  import opened Text

  type i32 = x: int | -0x8000_0000 <= x < 0x8000_0000

  const TRAP_KINDS: seq<string> := [
    "overflow", "div-zero", "bounds", "use-after-move", "exclusivity", "region-fault",
    "stale-handle", "alloc-contract", "assert", "race", "ub", "deadlock", "stack-overflow",
    "argument-utf8"
  ]

  datatype ExitExpect = Code(n: i32) | Nonzero | Trap(kind: Option<string>)

  datatype RunExpect = RunExpect(exit: ExitExpect, stdout: Option<string>)

  datatype Check = Pass | Fail(code: string) | Run(outcome: RunExpect)

  datatype CheckError =
    UnknownTrap(kind: string) | BadExit(value: string) | Unquoted(value: string)
    | UnknownArgument(part: string) | MissingExit | EmptyCode | BadValue(value: string)

  // ------------------------------------------------------- escaped text --

  /** What a backslash and `c` stand for: an unknown escape stands for itself. */
  function Escaped(c: char): string {
    match c
    case 'n' => "\n"
    case 'r' => "\r"
    case 't' => "\t"
    case '\\' => "\\"
    case '"' => "\""
    case other => ['\\', other]
  }

  /** What `unescape_stdout` makes of the rest of a value. */
  function Unescaped(v: string): string {
    if v == "" then ""
    else if v[0] != '\\' then [v[0]] + Unescaped(v[1..])
    else if |v| == 1 then "\\"
    else Escaped(v[1]) + Unescaped(v[2..])
  }

  lemma UnescapedStep(v: string, i: nat)
    requires i < |v|
    ensures Unescaped(v[i..]) == if v[i] != '\\' then [v[i]] + Unescaped(v[i + 1..])
                                 else if i + 1 == |v| then "\\" + Unescaped(v[i + 1..])
                                 else Escaped(v[i + 1]) + Unescaped(v[i + 2..])
  {
    hide Escaped;
    var rest := v[i..];
    assert rest[1..] == v[i + 1..] && (i + 1 < |v| ==> rest[2..] == v[i + 2..]);
    assert v[|v|..] == "";
  }

  method UnescapeStdout(v: string) returns (out: string)
    ensures out == Unescaped(v)
  {
    out := "";
    var i := 0;
    while i < |v|
      invariant i <= |v|
      invariant out + Unescaped(v[i..]) == Unescaped(v)
    {
      hide Escaped, Unescaped;
      UnescapedStep(v, i);
      var piece, next;
      if v[i] != '\\' {
        piece, next := [v[i]], i + 1;
      } else if i + 1 < |v| {
        piece, next := Escaped(v[i + 1]), i + 2;
      } else {
        piece, next := "\\", i + 1;
      }
      Associate(out, piece, Unescaped(v[next..]));
      out, i := out + piece, next;
    }
    assert v[i..] == "";
  }

  /** The spelling of a character in a header: the five escapes, or itself. */
  function EscapeChar(c: char): (s: string)
    ensures s != "" && |s| <= 2
  {
    match c
    case '\n' => "\\n"
    case '\r' => "\\r"
    case '\t' => "\\t"
    case '\\' => "\\\\"
    case '"' => "\\\""
    case other => [other]
  }

  function Escape(v: string): string {
    if v == "" then "" else EscapeChar(v[0]) + Escape(v[1..])
  }

  /** `unescape_stdout` undoes the printer, on every string. */
  lemma {:induction false} UnescapeOfEscape(v: string)
    ensures Unescaped(Escape(v)) == v
  {
    if v != "" {
      UnescapeOfEscape(v[1..]);
      UnescapeChar(v[0], Escape(v[1..]));
    }
  }

  lemma UnescapeChar(c: char, rest: string)
    ensures Unescaped(EscapeChar(c) + rest) == [c] + Unescaped(rest)
  {
    var s := EscapeChar(c);
    assert (s + rest)[|s|..] == rest;
  }

  // -------------------------------------------------- splitting on commas --

  /** Put `c` in front of the first piece. */
  function Prepend(c: string, pieces: seq<string>): seq<string>
    requires pieces != []
  {
    [c + pieces[0]] + pieces[1..]
  }

  /** The pieces between the commas that are outside double quotes. */
  function Pieces(s: string, quoted: bool): (pieces: seq<string>)
    ensures pieces != []
  {
    if s == "" then [""]
    else if s[0] == ',' && !quoted then [""] + Pieces(s[1..], false)
    else Prepend([s[0]], Pieces(s[1..], if s[0] == '"' then !quoted else quoted))
  }

  lemma PrependSteps(a: string, b: string, pieces: seq<string>)
    requires pieces != []
    ensures Prepend("", pieces) == pieces
    ensures Prepend(a, Prepend(b, pieces)) == Prepend(a + b, pieces)
    ensures Prepend(a, [""] + pieces) == [a] + pieces
  {
    assert "" + pieces[0] == pieces[0] && pieces == [pieces[0]] + pieces[1..];
    assert a + (b + pieces[0]) == a + b + pieces[0];
    assert a + "" == a;
  }

  lemma PiecesStep(s: string, i: nat, quoted: bool, taken: string)
    requires i < |s|
    ensures Prepend(taken, Pieces(s[i..], quoted))
         == if s[i] == ',' && !quoted then [taken] + Pieces(s[i + 1..], false)
            else Prepend(taken + [s[i]], Pieces(s[i + 1..], if s[i] == '"' then !quoted else quoted))
  {
    assert s[i..][1..] == s[i + 1..];
    var rest := Pieces(s[i + 1..], if s[i] == '"' then !quoted else quoted);
    PrependSteps(taken, [s[i]], rest);
  }

  lemma SplitStep(s: string, start: nat, i: nat, quoted: bool, out: seq<string>)
    requires start <= i < |s|
    ensures out + Prepend(s[start..i], Pieces(s[i..], quoted))
         == if s[i] == ',' && !quoted
            then out + [s[start..i]] + Prepend(s[i + 1..i + 1], Pieces(s[i + 1..], false))
            else out + Prepend(s[start..i + 1], Pieces(s[i + 1..], if s[i] == '"' then !quoted else quoted))
  {
    hide Prepend, Pieces;
    PiecesStep(s, i, quoted, s[start..i]);
    assert s[start..i + 1] == s[start..i] + [s[i]] && s[i + 1..i + 1] == "";
    PrependSteps("", "", Pieces(s[i + 1..], false));
    Associate(out, [s[start..i]], Pieces(s[i + 1..], false));
  }

  method SplitArgs(s: string) returns (out: seq<string>)
    ensures out == Pieces(s, false)
  {
    out := [];
    var quoted, start := false, 0;
    PrependSteps("", "", Pieces(s, false));
    assert s[0..] == s && s[0..0] == "";
    for i := 0 to |s|
      invariant start <= i
      invariant out + Prepend(s[start..i], Pieces(s[i..], quoted)) == Pieces(s, false)
    {
      hide Prepend, Pieces;
      SplitStep(s, start, i, quoted, out);
      if s[i] == '"' {
        quoted := !quoted;
      } else if s[i] == ',' && !quoted {
        out := out + [s[start..i]];
        start := i + 1;
      }
    }
    assert s[start..|s|] + "" == s[start..];
    out := out + [s[start..]];
  }

  // ------------------------------------------------------------ parsing --

  /** A value in its delimiters, without them. */
  function Between(v: string, open: string, close: string): Option<string> {
    match StripPrefix(v, open)
    case None => None
    case Some(rest) => StripSuffix(rest, close)
  }

  function ParseExit(v: string): Result<ExitExpect, CheckError> {
    if v == "trap" then Ok(Trap(None))
    else if v == "nonzero" then Ok(Nonzero)
    else match Between(v, "trap(", ")")
      case Some(inner) =>
        var kind := Trim(inner);
        if kind in TRAP_KINDS then Ok(Trap(Some(kind))) else Err(UnknownTrap(kind))
      case None =>
        match ParseInt(v, -0x8000_0000, 0x7FFF_FFFF)
        case Some(n) => Ok(Code(n))
        case None => Err(BadExit(v))
  }

  datatype Argument = SetExit(exit: ExitExpect) | SetStdout(stdout: string) | Empty

  function ParseArgument(piece: string): Result<Argument, CheckError> {
    var part := Trim(piece);
    match StripPrefix(part, "exit=")
    case Some(v) =>
      (match ParseExit(v) case Ok(e) => Ok(SetExit(e)) case Err(e) => Err(e))
    case None =>
      match StripPrefix(part, "stdout=")
      case Some(v) =>
        (match Between(v, "\"", "\"")
         case Some(text) => Ok(SetStdout(Unescaped(text)))
         case None => Err(Unquoted(v)))
      case None => if part == "" then Ok(Empty) else Err(UnknownArgument(part))
  }

  /** The rest of the arguments, over what the earlier ones set. */
  function Arguments(pieces: seq<string>, exit: Option<ExitExpect>, stdout: Option<string>)
      : Result<RunExpect, CheckError> {
    if pieces == [] then
      if exit.Some? then Ok(RunExpect(exit.value, stdout)) else Err(MissingExit)
    else match ParseArgument(pieces[0])
      case Err(e) => Err(e)
      case Ok(SetExit(e)) => Arguments(pieces[1..], Some(e), stdout)
      case Ok(SetStdout(s)) => Arguments(pieces[1..], exit, Some(s))
      case Ok(Empty) => Arguments(pieces[1..], exit, stdout)
  }

  method ParseRun(args: string) returns (r: Result<RunExpect, CheckError>)
    ensures r == Arguments(Pieces(args, false), None, None)
    ensures ReadAs(Pieces(args, false), None, None, r)
  {
    ArgumentsMean(Pieces(args, false), None, None);
    hide ReadAs;
    var exit: Option<ExitExpect> := None;
    var stdout: Option<string> := None;
    var pieces := SplitArgs(args);
    for i := 0 to |pieces|
      invariant Arguments(pieces[i..], exit, stdout) == Arguments(pieces, None, None)
    {
      assert pieces[i..][1..] == pieces[i + 1..];
      match ParseArgument(pieces[i]) {
        case Err(e) => return Err(e);
        case Ok(SetExit(e)) => exit := Some(e);
        case Ok(SetStdout(s)) => stdout := Some(s);
        case Ok(Empty) =>
      }
    }
    r := if exit.Some? then Ok(RunExpect(exit.value, stdout)) else Err(MissingExit);
  }

  function ParseCheck(v: string): Result<Check, CheckError> {
    if v == "pass" then Ok(Pass)
    else match Between(v, "fail(", ")")
      case Some(inner) =>
        var code := Trim(inner);
        if code == "" then Err(EmptyCode) else Ok(Fail(code))
      case None =>
        match Between(v, "run(", ")")
        case Some(args) =>
          (match Arguments(Pieces(args, false), None, None)
           case Ok(r) => Ok(Run(r))
           case Err(e) => Err(e))
        case None => Err(BadValue(v))
  }

  // ----------------------------------------------------------- printing --

  function PrintExit(e: ExitExpect): string {
    match e
    case Code(n) => Padded(n, 0)
    case Nonzero => "nonzero"
    case Trap(None) => "trap"
    case Trap(Some(kind)) => "trap(" + kind + ")"
  }

  function PrintStdout(v: string): string {
    " stdout=\"" + Escape(v) + "\""
  }

  function PrintRun(r: RunExpect): string {
    "exit=" + PrintExit(r.exit) + (if r.stdout.Some? then "," + PrintStdout(r.stdout.value) else "")
  }

  function PrintCheck(c: Check): string {
    match c
    case Pass => "pass"
    case Fail(code) => "fail(" + code + ")"
    case Run(r) => "run(" + PrintRun(r) + ")"
  }

  // -------------------------------------------- what splitting preserves --

  function Quotes(v: string): nat {
    if v == "" then 0 else (if v[0] == '"' then 1 else 0) + Quotes(v[1..])
  }

  /** Every comma has an even number of double quotes before it: the quote
      toggle, which also sees escaped quotes, then holds the value together. */
  predicate CommasHeld(v: string) {
    forall i :: 0 <= i < |v| && v[i] == ',' ==> Quotes(v[..i]) % 2 == 0
  }

  /** The same, from inside (`quoted`) or outside quotes. */
  predicate Held(v: string, quoted: bool) {
    v == "" || ((v[0] == ',' ==> quoted) && Held(v[1..], if v[0] == '"' then !quoted else quoted))
  }

  lemma {:induction false} HeldIsCounted(v: string, quoted: bool)
    ensures Held(v, quoted) <==>
            forall i :: 0 <= i < |v| && v[i] == ',' ==> (Quotes(v[..i]) % 2 == 0) == quoted
  {
    if v != "" {
      var flipped := if v[0] == '"' then !quoted else quoted;
      HeldIsCounted(v[1..], flipped);
      assert v[..0] == "";
      forall i | 0 < i < |v|
        ensures v[i] == v[1..][i - 1]
        ensures (Quotes(v[..i]) % 2 == 0) == quoted <==> (Quotes(v[1..][..i - 1]) % 2 == 0) == flipped {
        assert v[..i][1..] == v[1..][..i - 1];
      }
      if forall i :: 0 <= i < |v| && v[i] == ',' ==> (Quotes(v[..i]) % 2 == 0) == quoted {
        forall j | 0 <= j < |v[1..]| && v[1..][j] == ','
          ensures (Quotes(v[1..][..j]) % 2 == 0) == flipped {
          assert v[j + 1] == v[1..][j];
        }
      }
    }
  }

  /** One character of the printed value moves the splitter as it moves `Held`. */
  lemma PiecesOfChar(c: char, rest: string, quoted: bool)
    ensures Pieces(EscapeChar(c) + rest, quoted)
         == if c == ',' && !quoted then [""] + Pieces(rest, false)
            else Prepend(EscapeChar(c), Pieces(rest, if c == '"' then !quoted else quoted))
  {
    var s := EscapeChar(c);
    assert (s + rest)[1..] == s[1..] + rest;
    if |s| == 2 {
      assert s[1..] == [s[1]] && ([s[1]] + rest)[1..] == rest && s == [s[0]] + [s[1]];
      PrependSteps([s[0]], [s[1]], Pieces(rest, if c == '"' then !quoted else quoted));
    } else {
      assert s[1..] + rest == rest;
    }
  }

  lemma {:induction false} PiecesOfEscaped(v: string, quoted: bool)
    ensures var t := Escape(v) + "\"";
            if Held(v, quoted) then Pieces(t, quoted) == [t]
            else |Pieces(t, quoted)| > 1
  {
    if v == "" {
      LastQuote(quoted);
      assert Escape(v) + "\"" == "" + "\"" == "\"";
    } else {
      hide EscapeChar, Escape;
      var rest := Escape(v[1..]) + "\"";
      PiecesOfEscaped(v[1..], if v[0] == '"' then !quoted else quoted);
      PiecesOfChar(v[0], rest, quoted);
      EscapedStep(v);
      PrependOne(EscapeChar(v[0]), rest);
    }
  }

  lemma EscapedStep(v: string)
    requires v != ""
    ensures Escape(v) + "\"" == EscapeChar(v[0]) + (Escape(v[1..]) + "\"")
  {
  }

  lemma LastQuote(quoted: bool)
    ensures Pieces("" + "\"", quoted) == ["\""]
  {
    assert "" + "\"" == "\"" && "\""[1..] == "";
    assert "\"" + "" == "\"";
  }

  /** The last of several pieces is what follows some comma. */
  lemma {:induction false} LastPiece(s: string, quoted: bool) returns (k: nat)
    requires |Pieces(s, quoted)| > 1
    ensures 0 < k <= |s| && s[k - 1] == ',' && s[k..] == Pieces(s, quoted)[|Pieces(s, quoted)| - 1]
  {
    var flipped := if s[0] == '"' then !quoted else quoted;
    if |Pieces(s[1..], flipped)| > 1 {
      var j := LastPiece(s[1..], flipped);
      k := j + 1;
      assert s[1..][j..] == s[k..];
    } else {
      OnePiece(s[1..], flipped);
      k := 1;
    }
  }

  lemma {:induction false} OnePiece(s: string, quoted: bool)
    requires |Pieces(s, quoted)| == 1
    ensures Pieces(s, quoted) == [s]
  {
    if s != "" {
      OnePiece(s[1..], if s[0] == '"' then !quoted else quoted);
      assert s == [s[0]] + s[1..];
    }
  }

  /** Every double quote but the last character is behind a backslash. */
  predicate Guarded(t: string) {
    forall i :: 0 <= i < |t| - 1 && t[i] == '"' ==> i > 0 && t[i - 1] == '\\'
  }

  lemma {:induction false} EscapedIsGuarded(v: string)
    ensures Guarded(Escape(v) + "\"")
  {
    if v != "" {
      EscapedIsGuarded(v[1..]);
      var s, t := EscapeChar(v[0]), Escape(v[1..]) + "\"";
      assert Escape(v) + "\"" == s + t;
      assert forall i :: 0 <= i < |t| ==> (s + t)[|s| + i] == t[i];
    }
  }

  /** A piece cut out of a quoted value, closing quote and all, is no argument. */
  lemma CutPieceIsRefused(t: string, k: nat)
    requires Guarded(t) && 0 < k < |t| && t[|t| - 1] == '"'
    ensures ParseArgument(t[k..]).Err?
  {
    hide ParseArgument;
    var piece := t[k..];
    TrimKeepsEnd(piece);
    var m := |t| - |TrimStart(piece)|;
    assert TrimStart(piece) == t[m..];
    CutPartIsRefused(t, piece, m);
  }

  lemma CutPartIsRefused(t: string, piece: string, m: nat)
    requires Guarded(t) && m < |t| && t[|t| - 1] == '"' && Trim(piece) == t[m..]
    ensures ParseArgument(piece).Err?
  {
    hide ParseExit, Unescaped, Trim, Between;
    var part := t[m..];
    if "exit=" <= part {
      ExitWithQuote(part[5..]);
    } else if "stdout=" <= part {
      assert part[6] == "stdout="[6] == '=';
      assert part[7..] == t[m + 7..];
      CutQuote(t, m + 7);
    }
  }

  lemma CutQuote(t: string, m: nat)
    requires Guarded(t) && 0 < m < |t| && t[m - 1] == '=' && t[|t| - 1] == '"'
    ensures Between(t[m..], "\"", "\"").None?
  {
    if t[m] == '"' {
      assert m == |t| - 1;
      assert t[m..] == "\"" && "\""[1..] == "";
    }
  }

  lemma ExitWithQuote(v: string)
    requires v == "" || v[|v| - 1] == '"'
    ensures ParseExit(v).Err?
  {
    hide ParseInt, Between;
    assert v != "trap" && v != "nonzero" by {
      assert "trap"[3] == 'p' && "nonzero"[6] == 'o';
    }
    NoClose(v, "trap(");
    ParseIntRefuses(v, -0x8000_0000, 0x7FFF_FFFF);
  }

  lemma NoClose(v: string, open: string)
    requires v == "" || v[|v| - 1] != ')'
    ensures Between(v, open, ")").None?
  {
    if open <= v && |v| > |open| {
      var rest := v[|open|..];
      assert rest[|rest| - 1..] == [v[|v| - 1]];
      assert rest[|rest| - 1..][0] != ")"[0];
    }
  }

  lemma TrimKeepsEnd(s: string)
    requires s != "" && !IsSpace(s[|s| - 1])
    ensures Trim(s) == TrimStart(s) && Trim(s) != "" && Trim(s)[|Trim(s)| - 1] == s[|s| - 1]
  {
  }

  // ------------------------------------------------------- main results --

  lemma ArgumentsRefuse(pieces: seq<string>, k: nat, exit: Option<ExitExpect>, stdout: Option<string>)
    requires k < |pieces| && ParseArgument(pieces[k]).Err?
    ensures Arguments(pieces, exit, stdout).Err?
    decreases k
  {
    hide ParseArgument;
    if k > 0 {
      match ParseArgument(pieces[0]) {
        case Err(_) =>
        case Ok(SetExit(e)) => ArgumentsRefuse(pieces[1..], k - 1, Some(e), stdout);
        case Ok(SetStdout(s)) => ArgumentsRefuse(pieces[1..], k - 1, exit, Some(s));
        case Ok(Empty) => ArgumentsRefuse(pieces[1..], k - 1, exit, stdout);
      }
    }
  }

  /** The expectations a header can state: a named trap kind is one of the closed set. */
  predicate Known(e: ExitExpect) {
    match e
    case Trap(Some(kind)) => kind in TRAP_KINDS
    case _ => true
  }

  lemma {:induction false} ParsedIsKnown(pieces: seq<string>, exit: Option<ExitExpect>, stdout: Option<string>)
    requires exit.Some? ==> Known(exit.value)
    ensures var r := Arguments(pieces, exit, stdout); r.Ok? ==> Known(r.value.exit)
  {
    hide ParseArgument;
    if pieces != [] {
      ArgumentIsKnown(pieces[0]);
      match ParseArgument(pieces[0]) {
        case Err(_) =>
        case Ok(SetExit(e)) =>
          ParsedIsKnown(pieces[1..], Some(e), stdout);
        case Ok(SetStdout(s)) => ParsedIsKnown(pieces[1..], exit, Some(s));
        case Ok(Empty) => ParsedIsKnown(pieces[1..], exit, stdout);
      }
    }
  }

  lemma ArgumentIsKnown(piece: string)
    ensures match ParseArgument(piece) case Ok(SetExit(e)) => Known(e) case _ => true
  {
    hide ParseInt, Unescaped, Trim;
  }

  /** Text with neither comma nor double quote. */
  predicate Plain(u: string) {
    forall c | c in u :: c != ',' && c != '"'
  }

  lemma KindsArePlain()
    ensures forall kind | kind in TRAP_KINDS :: kind != "" && Plain(kind)
  {
  }

  lemma KindsAreTrimmed()
    ensures forall kind | kind in TRAP_KINDS :: kind != "" && Trimmed(kind)
  {
  }

  lemma TrimOfTrimmed(s: string)
    requires Trimmed(s) && s != ""
    ensures Trim(s) == s && Trim(" " + s) == s
  {
    assert (" " + s)[1..] == s;
    assert TrimStart(s) == s && TrimStart(" " + s) == s;
  }

  lemma ExitRoundTrip(e: ExitExpect)
    requires Known(e)
    ensures ParseExit(PrintExit(e)) == Ok(e)
    ensures Plain(PrintExit(e)) && Trimmed(PrintExit(e)) && PrintExit(e) != ""
  {
    hide ParseInt;
    match e {
      case Code(n) => CodeRoundTrip(n);
      case Nonzero => assert "nonzero"[0] != "trap"[0];
      case Trap(None) =>
      case Trap(Some(kind)) => KindRoundTrip(kind);
    }
  }

  lemma KindRoundTrip(kind: string)
    requires kind in TRAP_KINDS
    ensures ParseExit("trap(" + kind + ")") == Ok(Trap(Some(kind)))
    ensures Plain("trap(" + kind + ")") && Trimmed("trap(" + kind + ")")
  {
    KindsArePlain();
    KindsAreTrimmed();
    hide ParseInt, Between, Trim, TRAP_KINDS;
    TrimOfTrimmed(kind);
    BetweenOf("trap(", kind, ")");
    var v := "trap(" + kind + ")";
    assert |v| > 5 && v[0] == 't' && v[4] == '(' && v[|v| - 1] == ')' && "nonzero"[0] == 'n';
    assert forall c | c in v :: c in "trap(" || c in kind || c in ")";
  }

  lemma BetweenOf(open: string, inner: string, close: string)
    ensures Between(open + inner + close, open, close) == Some(inner)
  {
    assert (open + inner + close)[|open|..] == inner + close;
  }

  lemma CodeRoundTrip(n: i32)
    ensures ParseExit(Padded(n, 0)) == Ok(Code(n))
    ensures Plain(Padded(n, 0)) && Trimmed(Padded(n, 0)) && Padded(n, 0) != ""
  {
    hide ParseInt, Padded;
    ParsePadded(n, 0, -0x8000_0000, 0x7FFF_FFFF);
    var s := Padded(n, 0);
    NumeralChars(n);
    assert s[0] in s && s[|s| - 1] in s;
    assert s[0] != "trap"[0] && s[0] != "nonzero"[0] && s[0] != "trap("[0];
  }

  lemma NumeralChars(n: int)
    ensures Padded(n, 0) != "" && forall c | c in Padded(n, 0) :: c == '-' || IsDigit(c)
  {
    var digits := Decimal(if n < 0 then -n else n);
    assert Padded(n, 0) == (if n < 0 then "-" else "") + digits;
  }

  lemma {:induction false} PiecesOfPlain(u: string, rest: string, quoted: bool)
    requires Plain(u)
    ensures Pieces(u + rest, quoted) == Prepend(u, Pieces(rest, quoted))
  {
    if u == "" {
      assert u + rest == rest;
      PrependSteps("", "", Pieces(rest, quoted));
    } else {
      assert forall c | c in u[1..] :: c in u;
      assert u[0] in u && (u + rest)[1..] == u[1..] + rest && u == [u[0]] + u[1..];
      PiecesOfPlain(u[1..], rest, quoted);
      PrependSteps([u[0]], u[1..], Pieces(rest, quoted));
    }
  }

  /** How the printed arguments split. */
  lemma PiecesOfRun(r: RunExpect)
    requires Plain(PrintExit(r.exit))
    ensures Pieces(PrintRun(r), false)
         == if r.stdout.None? then ["exit=" + PrintExit(r.exit)]
            else ["exit=" + PrintExit(r.exit)]
                 + Prepend(" stdout=\"", Pieces(Escape(r.stdout.value) + "\"", true))
  {
    var u := "exit=" + PrintExit(r.exit);
    if r.stdout.None? {
      PiecesOfPlain(u, "", false);
      assert u + "" == u && PrintRun(r) == u;
    } else {
      var t := Escape(r.stdout.value) + "\"";
      PiecesOfPlain(u, "," + PrintStdout(r.stdout.value), false);
      assert PrintRun(r) == u + ("," + PrintStdout(r.stdout.value));
      assert ("," + PrintStdout(r.stdout.value))[1..] == PrintStdout(r.stdout.value) == " stdout=" + ("\"" + t);
      PrependSteps(u, "", Pieces(PrintStdout(r.stdout.value), false));
      PiecesOfPlain(" stdout=", "\"" + t, false);
      assert ("\"" + t)[1..] == t;
      PrependSteps(" stdout=", "\"", Pieces(t, true));
      assert " stdout=" + "\"" == " stdout=\"";
    }
  }

  lemma ExitArgument(e: ExitExpect)
    requires Known(e)
    ensures ParseArgument("exit=" + PrintExit(e)) == Ok(SetExit(e))
  {
    hide ParseExit, PrintExit, Trim;
    ExitRoundTrip(e);
    var s := PrintExit(e);
    assert ("exit=" + s)[0] == 'e' && ("exit=" + s)[|s| + 4] == s[|s| - 1];
    TrimOfTrimmed("exit=" + s);
    assert ("exit=" + s)[5..] == s;
  }

  lemma StdoutArgument(v: string)
    ensures ParseArgument(" stdout=\"" + (Escape(v) + "\"")) == Ok(SetStdout(v))
  {
    hide Trim, Unescaped, Escape, Between;
    var quoted := "\"" + Escape(v) + "\"";
    var part := "stdout=" + quoted;
    assert " stdout=\"" + (Escape(v) + "\"") == " " + part;
    assert part[0] == 's' && part[|part| - 1] == '"';
    TrimOfTrimmed(part);
    assert part[7..] == quoted && !("exit=" <= part);
    BetweenOf("\"", Escape(v), "\"");
    UnescapeOfEscape(v);
  }

  lemma SetsBoth(a: string, b: string, e: ExitExpect, s: string)
    requires ParseArgument(a) == Ok(SetExit(e)) && ParseArgument(b) == Ok(SetStdout(s))
    ensures Arguments([a], None, None) == Ok(RunExpect(e, None))
    ensures Arguments([a] + [b], None, None) == Ok(RunExpect(e, Some(s)))
  {
    hide ParseArgument;
    assert [a][1..] == [] && ([a] + [b])[1..] == [b] && [b][1..] == [];
    assert Arguments([b], Some(e), None) == Arguments([], Some(e), Some(s));
  }

  lemma HeldArguments(r: RunExpect)
    requires Known(r.exit) && (r.stdout.Some? ==> CommasHeld(r.stdout.value))
    ensures Arguments(Pieces(PrintRun(r), false), None, None) == Ok(r)
  {
    hide ParseArgument, Pieces, Prepend, Escape, PrintExit, PrintRun, Held, Arguments;
    ExitRoundTrip(r.exit);
    PiecesOfRun(r);
    ExitArgument(r.exit);
    var v := if r.stdout.Some? then r.stdout.value else "";
    var a, t := "exit=" + PrintExit(r.exit), Escape(v) + "\"";
    StdoutArgument(v);
    SetsBoth(a, " stdout=\"" + t, r.exit, v);
    if r.stdout.Some? {
      HeldIsCounted(v, true);
      PiecesOfEscaped(v, true);
      PrependOne(" stdout=\"", t);
    }
  }

  lemma PrependOne(a: string, b: string)
    ensures Prepend(a, [b]) == [a + b]
  {
  }

  lemma CutArguments(r: RunExpect)
    requires Known(r.exit) && r.stdout.Some? && !CommasHeld(r.stdout.value)
    ensures Arguments(Pieces(PrintRun(r), false), None, None).Err?
  {
    hide ParseArgument, Escape, PrintExit, PrintRun, Held, Arguments;
    ExitRoundTrip(r.exit);
    PiecesOfRun(r);
    var v := r.stdout.value;
    var t := Escape(v) + "\"";
    HeldIsCounted(v, true);
    PiecesOfEscaped(v, true);
    EscapedIsGuarded(v);
    var k := LastPiece(t, true);
    CutPieceIsRefused(t, k);
    var pieces := Pieces(PrintRun(r), false);
    assert pieces[|pieces| - 1] == t[k..];
    ArgumentsRefuse(pieces, |pieces| - 1, None, None);
  }

  lemma ParsePrinted(r: RunExpect)
    ensures ParseCheck(PrintCheck(Run(r)))
         == match Arguments(Pieces(PrintRun(r), false), None, None)
            case Ok(p) => Ok(Run(p))
            case Err(e) => Err(e)
  {
    hide Arguments, Pieces, PrintRun;
    var v := "run(" + PrintRun(r) + ")";
    assert v[0] == 'r' && "pass"[0] == 'p' && "fail("[0] == 'f';
    BetweenOf("run(", PrintRun(r), ")");
  }

  /** A printed `run(...)` parses back to itself for exactly the known
      expectations whose stdout keeps its commas; a cut one is refused. */
  lemma RunRoundTrip(r: RunExpect)
    ensures ParseCheck(PrintCheck(Run(r))) == Ok(Run(r)) <==>
            Known(r.exit) && (r.stdout.Some? ==> CommasHeld(r.stdout.value))
    ensures Known(r.exit) && r.stdout.Some? && !CommasHeld(r.stdout.value) ==>
            ParseCheck(PrintCheck(Run(r))).Err?
  {
    hide ParseCheck, PrintCheck, Arguments, Pieces, CommasHeld, PrintRun;
    ParsePrinted(r);
    if !Known(r.exit) {
      ParsedIsKnown(Pieces(PrintRun(r), false), None, None);
    } else if r.stdout.Some? && !CommasHeld(r.stdout.value) {
      CutArguments(r);
    } else {
      HeldArguments(r);
    }
  }

  /** `fail(CODE)` comes back as written unless the code has spaces around it or is empty. */
  lemma FailRoundTrip(code: string)
    ensures ParseCheck(PrintCheck(Fail(code))) == Ok(Fail(code)) <==> code != "" && Trim(code) == code
  {
    hide Trim;
    var v := "fail(" + code + ")";
    assert v[0] == 'f' && "pass"[0] == 'p';
    BetweenOf("fail(", code, ")");
  }

  // ---------------------------------------------------- what is read as what --

  lemma BetweenIs(s: string, open: string, close: string)
    ensures Between(s, open, close).Some? ==> s == open + Between(s, open, close).value + close
  {
  }

  /** Five escapes stand for their characters; any other backslash, a last one
      too, stands for itself, with what follows it. */
  lemma EscapesMean(c: char, rest: string)
    ensures Unescaped("\\n" + rest) == "\n" + Unescaped(rest) && Unescaped("\\r" + rest) == "\r" + Unescaped(rest)
    ensures Unescaped("\\t" + rest) == "\t" + Unescaped(rest) && Unescaped("\\\\" + rest) == "\\" + Unescaped(rest)
    ensures Unescaped("\\\"" + rest) == "\"" + Unescaped(rest) && Unescaped("\\") == "\\"
    ensures c != '\\' ==> Unescaped([c] + rest) == [c] + Unescaped(rest)
    ensures c !in "nrt\\\"" ==> Unescaped(['\\', c] + rest) == ['\\', c] + Unescaped(rest)
  {
    UnitMeans('n', rest);
    UnitMeans('r', rest);
    UnitMeans('t', rest);
    UnitMeans('\\', rest);
    UnitMeans('"', rest);
    UnitMeans(c, rest);
    assert ([c] + rest)[1..] == rest;
    hide Unescaped;
    assert c !in "nrt\\\"" ==> Escaped(c) == ['\\', c] by {
      var s := "nrt\\\"";
      assert s[0] == 'n' && s[1] == 'r' && s[2] == 't' && s[3] == '\\' && s[4] == '"';
    }
  }

  lemma UnitMeans(c: char, rest: string)
    ensures Unescaped(['\\', c] + rest) == Escaped(c) + Unescaped(rest)
  {
    hide Escaped;
    assert (['\\', c] + rest)[2..] == rest;
  }

  ghost predicate SpellsExit(v: string, e: ExitExpect) {
    match e
    case Code(n) => ParseInt(v, -0x8000_0000, 0x7FFF_FFFF) == Some(n)
    case Nonzero => v == "nonzero"
    case Trap(None) => v == "trap"
    case Trap(Some(kind)) =>
      kind in TRAP_KINDS && exists inner: string :: v == "trap(" + inner + ")" && Trim(inner) == kind
  }

  /** A text is read as an exit expectation exactly when it spells it. */
  lemma ParseExitMeans(v: string, e: ExitExpect)
    ensures ParseExit(v) == Ok(e) <==> SpellsExit(v, e)
  {
    hide ParseExit, SpellsExit;
    if ParseExit(v) == Ok(e) {
      ParsedExit(v, e);
    }
    if SpellsExit(v, e) {
      SpelledAsExit(v, e);
    }
  }

  lemma ParsedExit(v: string, e: ExitExpect)
    requires ParseExit(v) == Ok(e)
    ensures SpellsExit(v, e)
  {
    BetweenIs(v, "trap(", ")");
    hide ParseInt, Trim, TRAP_KINDS, Between;
  }

  lemma SpelledAsExit(v: string, e: ExitExpect)
    requires SpellsExit(v, e)
    ensures ParseExit(v) == Ok(e)
  {
    assert "nonzero"[0] == 'n' && "trap"[0] == 't' && |"trap"| == 4;
    ParseIntRefuses("trap", -0x8000_0000, 0x7FFF_FFFF);
    ParseIntRefuses("nonzero", -0x8000_0000, 0x7FFF_FFFF);
    BetweenIs(v, "trap(", ")");
    if Between(v, "trap(", ")").Some? {
      ParseIntRefuses(v, -0x8000_0000, 0x7FFF_FFFF);
    }
    hide ParseInt, Trim, TRAP_KINDS;
    if e.Trap? && e.kind.Some? {
      var inner: string :| v == "trap(" + inner + ")" && Trim(inner) == e.kind.value;
      BetweenOf("trap(", inner, ")");
      assert v[0] == 't' && |v| > 5;
      hide Between;
    }
  }

  ghost predicate SpellsArgument(piece: string, a: Argument) {
    match a
    case SetExit(e) => exists v: string :: Trim(piece) == "exit=" + v && SpellsExit(v, e)
    case SetStdout(s) => exists t: string :: Trim(piece) == "stdout=\"" + t + "\"" && Unescaped(t) == s
    case Empty => Trim(piece) == ""
  }

  lemma PrefixOf(p: string, v: string)
    ensures StripPrefix(p + v, p) == Some(v)
  {
  }

  lemma PrefixIs(s: string, p: string)
    ensures StripPrefix(s, p).Some? ==> s == p + StripPrefix(s, p).value
  {
  }

  lemma OnePrefix(part: string)
    ensures StripPrefix(part, "exit=").Some? ==> StripPrefix(part, "stdout=").None?
    ensures part == "" ==> StripPrefix(part, "exit=").None? && StripPrefix(part, "stdout=").None?
  {
    assert "exit="[0] == 'e' && "stdout="[0] == 's';
  }

  /** A piece is read as an argument exactly when it spells it. */
  lemma ParseArgumentMeans(piece: string, a: Argument)
    ensures ParseArgument(piece) == Ok(a) <==> SpellsArgument(piece, a)
  {
    hide ParseArgument, SpellsArgument;
    match a {
      case SetExit(e) => ExitArgumentMeans(piece, e);
      case SetStdout(s) => StdoutArgumentMeans(piece, s);
      case Empty => EmptyArgumentMeans(piece);
    }
  }

  lemma ExitArgumentMeans(piece: string, e: ExitExpect)
    ensures ParseArgument(piece) == Ok(SetExit(e)) <==> SpellsArgument(piece, SetExit(e))
  {
    hide ParseArgument, SpellsArgument;
    if ParseArgument(piece) == Ok(SetExit(e)) {
      ExitIsSpelled(piece, e);
    }
    if SpellsArgument(piece, SetExit(e)) {
      SpelledExit(piece, e);
    }
  }

  lemma ExitIsSpelled(piece: string, e: ExitExpect)
    requires ParseArgument(piece) == Ok(SetExit(e))
    ensures SpellsArgument(piece, SetExit(e))
  {
    hide Trim, ParseExit, SpellsExit, StripPrefix, Unescaped, Between;
    var v := StripPrefix(Trim(piece), "exit=").value;
    PrefixIs(Trim(piece), "exit=");
    ParseExitMeans(v, e);
  }

  lemma SpelledExit(piece: string, e: ExitExpect)
    requires SpellsArgument(piece, SetExit(e))
    ensures ParseArgument(piece) == Ok(SetExit(e))
  {
    hide Trim, ParseExit, SpellsExit, StripPrefix, Unescaped, Between;
    var v: string :| Trim(piece) == "exit=" + v && SpellsExit(v, e);
    PrefixOf("exit=", v);
    ParseExitMeans(v, e);
  }

  lemma StdoutArgumentMeans(piece: string, s: string)
    ensures ParseArgument(piece) == Ok(SetStdout(s)) <==> SpellsArgument(piece, SetStdout(s))
  {
    hide ParseArgument, SpellsArgument;
    if ParseArgument(piece) == Ok(SetStdout(s)) {
      StdoutIsSpelled(piece, s);
    }
    if SpellsArgument(piece, SetStdout(s)) {
      SpelledStdout(piece, s);
    }
  }

  lemma StdoutIsSpelled(piece: string, s: string)
    requires ParseArgument(piece) == Ok(SetStdout(s))
    ensures SpellsArgument(piece, SetStdout(s))
  {
    hide Trim, ParseExit, StripPrefix, Unescaped, Between;
    var v := StripPrefix(Trim(piece), "stdout=").value;
    PrefixIs(Trim(piece), "stdout=");
    BetweenIs(v, "\"", "\"");
    StdoutSpelled(Between(v, "\"", "\"").value);
  }

  lemma SpelledStdout(piece: string, s: string)
    requires SpellsArgument(piece, SetStdout(s))
    ensures ParseArgument(piece) == Ok(SetStdout(s))
  {
    hide Trim, ParseExit, StripPrefix, Unescaped, Between;
    OnePrefix(Trim(piece));
    var t: string :| Trim(piece) == "stdout=\"" + t + "\"" && Unescaped(t) == s;
    StdoutSpelled(t);
    PrefixOf("stdout=", "\"" + t + "\"");
    BetweenOf("\"", t, "\"");
  }

  lemma StdoutSpelled(t: string)
    ensures "stdout=\"" + t + "\"" == "stdout=" + ("\"" + t + "\"")
  {
  }

  lemma EmptyArgumentMeans(piece: string)
    ensures ParseArgument(piece) == Ok(Empty) <==> SpellsArgument(piece, Empty)
  {
    OnePrefix(Trim(piece));
    hide Trim, ParseExit, StripPrefix, Unescaped, Between;
  }

  /** Does the piece set the exit, or (`exit` false) the stdout? */
  predicate Sets(piece: string, exit: bool) {
    var a := ParseArgument(piece);
    a.Ok? && if exit then a.value.SetExit? else a.value.SetStdout?
  }

  predicate NoneSets(pieces: seq<string>, exit: bool) {
    forall k :: 0 <= k < |pieces| ==> !Sets(pieces[k], exit)
  }

  predicate LastTo(pieces: seq<string>, exit: bool, k: nat) {
    k < |pieces| && Sets(pieces[k], exit) && forall j :: k < j < |pieces| ==> !Sets(pieces[j], exit)
  }

  predicate Says(pieces: seq<string>, k: nat, a: Argument) {
    k < |pieces| && ParseArgument(pieces[k]) == Ok(a)
  }

  /** The exit that the last piece to set one sets; `before` if none does. */
  ghost predicate LastExit(pieces: seq<string>, exit: Option<ExitExpect>, before: Option<ExitExpect>) {
    (NoneSets(pieces, true) && exit == before) ||
    (exit.Some? && exists k: nat :: LastTo(pieces, true, k) && Says(pieces, k, SetExit(exit.value)))
  }

  ghost predicate LastStdout(pieces: seq<string>, stdout: Option<string>, before: Option<string>) {
    (NoneSets(pieces, false) && stdout == before) ||
    (stdout.Some? && exists k: nat :: LastTo(pieces, false, k) && Says(pieces, k, SetStdout(stdout.value)))
  }

  ghost predicate FirstRefused(pieces: seq<string>, e: CheckError) {
    exists k :: 0 <= k < |pieces| && ParseArgument(pieces[k]) == Err(e)
                && forall j :: 0 <= j < k ==> ParseArgument(pieces[j]).Ok?
  }

  predicate AllRead(pieces: seq<string>) {
    forall p | p in pieces :: ParseArgument(p).Ok?
  }

  /** The arguments: the first piece that is none refuses them all; else the
      last exit and the last stdout stand, and an exit there must be. */
  ghost predicate ReadAs(pieces: seq<string>, exit: Option<ExitExpect>, stdout: Option<string>,
                         r: Result<RunExpect, CheckError>) {
    match r
    case Ok(run) => AllRead(pieces) && LastExit(pieces, Some(run.exit), exit) && LastStdout(pieces, run.stdout, stdout)
    case Err(e) => if AllRead(pieces) then e == MissingExit && LastExit(pieces, None, exit) else FirstRefused(pieces, e)
  }

  lemma LastToStep(piece: string, rest: seq<string>, exit: bool)
    ensures forall k: nat :: LastTo(rest, exit, k) ==> LastTo([piece] + rest, exit, k + 1)
    ensures NoneSets(rest, exit) ==>
              if Sets(piece, exit) then LastTo([piece] + rest, exit, 0) else NoneSets([piece] + rest, exit)
    ensures NoneSets(rest, exit) ==> forall k: nat :: !LastTo(rest, exit, k)
  {
    hide Sets;
    var all := [piece] + rest;
    forall k: nat | LastTo(rest, exit, k) ensures LastTo(all, exit, k + 1) {
      assert all[k + 1] == rest[k];
      forall j | k + 1 < j < |all| ensures !Sets(all[j], exit) {
        assert all[j] == rest[j - 1];
      }
    }
    forall j | 0 < j < |all| && NoneSets(rest, exit) ensures !Sets(all[j], exit) {
      assert all[j] == rest[j - 1];
    }
  }

  lemma LastExitStep(piece: string, rest: seq<string>, exit: Option<ExitExpect>, before: Option<ExitExpect>)
    requires LastExit(rest, exit, if Sets(piece, true) then Some(ParseArgument(piece).value.exit) else before)
    ensures LastExit([piece] + rest, exit, before)
  {
    LastToStep(piece, rest, true);
    hide LastTo, NoneSets, ParseArgument;
    if !NoneSets(rest, true) {
      var k: nat :| LastTo(rest, true, k) && Says(rest, k, SetExit(exit.value));
      assert LastTo([piece] + rest, true, k + 1) && Says([piece] + rest, k + 1, SetExit(exit.value));
    } else if Sets(piece, true) {
      assert LastTo([piece] + rest, true, 0) && Says([piece] + rest, 0, SetExit(exit.value));
    }
  }

  lemma LastStdoutStep(piece: string, rest: seq<string>, stdout: Option<string>, before: Option<string>)
    requires LastStdout(rest, stdout, if Sets(piece, false) then Some(ParseArgument(piece).value.stdout) else before)
    ensures LastStdout([piece] + rest, stdout, before)
  {
    LastToStep(piece, rest, false);
    hide LastTo, NoneSets, ParseArgument;
    if !NoneSets(rest, false) {
      var k: nat :| LastTo(rest, false, k) && Says(rest, k, SetStdout(stdout.value));
      assert LastTo([piece] + rest, false, k + 1) && Says([piece] + rest, k + 1, SetStdout(stdout.value));
    } else if Sets(piece, false) {
      assert LastTo([piece] + rest, false, 0) && Says([piece] + rest, 0, SetStdout(stdout.value));
    }
  }

  lemma RefusedStep(piece: string, rest: seq<string>, e: CheckError)
    requires ParseArgument(piece).Ok? && FirstRefused(rest, e)
    ensures FirstRefused([piece] + rest, e)
  {
    hide ParseArgument;
    var all := [piece] + rest;
    var k :| 0 <= k < |rest| && ParseArgument(rest[k]) == Err(e)
             && forall j :: 0 <= j < k ==> ParseArgument(rest[j]).Ok?;
    assert all[k + 1] == rest[k] && forall j :: 0 < j < k + 1 ==> all[j] == rest[j - 1];
  }

  lemma {:induction false} ArgumentsMean(pieces: seq<string>, exit: Option<ExitExpect>, stdout: Option<string>)
    ensures ReadAs(pieces, exit, stdout, Arguments(pieces, exit, stdout))
  {
    hide ParseArgument, LastExit, LastStdout, FirstRefused;
    if pieces == [] {
      NoPieces(exit, stdout);
    } else if ParseArgument(pieces[0]).Err? {
      assert FirstRefused(pieces, ParseArgument(pieces[0]).error) by { FirstIsRefused(pieces); }
      assert pieces[0] in pieces;
    } else {
      var piece, rest := pieces[0], pieces[1..];
      var nextExit := if Sets(piece, true) then Some(ParseArgument(piece).value.exit) else exit;
      var nextStdout := if Sets(piece, false) then Some(ParseArgument(piece).value.stdout) else stdout;
      assert pieces == [piece] + rest;
      ArgumentsMean(rest, nextExit, nextStdout);
      var r := Arguments(rest, nextExit, nextStdout);
      assert Arguments(pieces, exit, stdout) == r;
      hide Arguments, Sets;
      var found := if r.Ok? then Some(r.value.exit) else None;
      if LastExit(rest, found, nextExit) {
        LastExitStep(piece, rest, found, exit);
      }
      if r.Ok? {
        LastStdoutStep(piece, rest, r.value.stdout, stdout);
      } else if FirstRefused(rest, r.error) {
        RefusedStep(piece, rest, r.error);
      }
    }
  }

  lemma NoPieces(exit: Option<ExitExpect>, stdout: Option<string>)
    ensures LastExit([], exit, exit) && LastStdout([], stdout, stdout)
  {
  }

  lemma FirstIsRefused(pieces: seq<string>)
    requires pieces != [] && ParseArgument(pieces[0]).Err?
    ensures FirstRefused(pieces, ParseArgument(pieces[0]).error)
  {
    hide ParseArgument;
  }

  ghost predicate SpellsCheck(v: string, c: Check) {
    match c
    case Pass => v == "pass"
    case Fail(code) => code != "" && exists inner: string :: v == "fail(" + inner + ")" && Trim(inner) == code
    case Run(r) => exists args: string :: v == "run(" + args + ")" && ReadAs(Pieces(args, false), None, None, Ok(r))
  }

  /** There is one reading of any arguments. */
  lemma ReadAsOne(pieces: seq<string>, r: RunExpect)
    ensures ReadAs(pieces, None, None, Ok(r)) <==> Arguments(pieces, None, None) == Ok(r)
  {
    ArgumentsMean(pieces, None, None);
    var found := Arguments(pieces, None, None);
    hide Arguments, ParseArgument, AllRead, LastExit, LastStdout;
    if ReadAs(pieces, None, None, Ok(r)) {
      OneExit(pieces, Some(r.exit), if found.Ok? then Some(found.value.exit) else None);
      NotRefused(pieces);
      if found.Ok? {
        OneStdout(pieces, r.stdout, found.value.stdout);
      }
    }
  }

  lemma NotRefused(pieces: seq<string>)
    requires AllRead(pieces)
    ensures forall e :: !FirstRefused(pieces, e)
  {
    hide ParseArgument;
  }

  lemma OneExit(pieces: seq<string>, x: Option<ExitExpect>, y: Option<ExitExpect>)
    ensures LastExit(pieces, x, None) && LastExit(pieces, y, None) ==> x == y
  {
    hide ParseArgument;
  }

  lemma OneStdout(pieces: seq<string>, x: Option<string>, y: Option<string>)
    ensures LastStdout(pieces, x, None) && LastStdout(pieces, y, None) ==> x == y
  {
    hide ParseArgument;
  }

  lemma RunIsSpelled(args: string, r: RunExpect)
    ensures ParseCheck("run(" + args + ")") == Ok(Run(r)) <==> ReadAs(Pieces(args, false), None, None, Ok(r))
  {
    ReadAsOne(Pieces(args, false), r);
    hide Arguments, Pieces, ReadAs;
    var v := "run(" + args + ")";
    assert v[0] == 'r' && "pass"[0] == 'p' && "fail("[0] == 'f';
    BetweenOf("run(", args, ")");
  }

  lemma FailIsSpelled(inner: string, code: string)
    ensures ParseCheck("fail(" + inner + ")") == Ok(Fail(code)) <==> code != "" && Trim(inner) == code
  {
    hide Trim;
    var v := "fail(" + inner + ")";
    assert v[0] == 'f' && "pass"[0] == 'p';
    BetweenOf("fail(", inner, ")");
  }

  lemma CheckIsParsed(v: string)
    ensures match ParseCheck(v)
            case Ok(Pass) => v == "pass"
            case Ok(Fail(_)) => exists inner: string :: v == "fail(" + inner + ")"
            case Ok(Run(_)) => exists args: string :: v == "run(" + args + ")"
            case Err(_) => true
  {
    BetweenIs(v, "fail(", ")");
    BetweenIs(v, "run(", ")");
    hide Between, Arguments, Pieces, Trim;
  }

  /** A `check:` value is read as a check exactly when it spells it. */
  lemma ParseCheckMeans(v: string, c: Check)
    ensures ParseCheck(v) == Ok(c) <==> SpellsCheck(v, c)
  {
    CheckIsParsed(v);
    match c {
      case Pass =>
      case Fail(code) =>
        hide Trim, Between, ParseCheck;
        if inner: string :| v == "fail(" + inner + ")"
                            && (ParseCheck(v) == Ok(c) || (code != "" && Trim(inner) == code)) {
          FailIsSpelled(inner, code);
        }
      case Run(r) =>
        hide Pieces, Between, ParseCheck, ReadAs;
        if args: string :| v == "run(" + args + ")"
                           && (ParseCheck(v) == Ok(c) || ReadAs(Pieces(args, false), None, None, Ok(r))) {
          RunIsSpelled(args, r);
        }
    }
  }
}
