/** The string operations of Rust's standard library that the modelled code calls. */
module Text {
  import opened Wrappers

  // ---------------------------------------------------------- searching --

  /** The index of the first `c`, or the length when there is none. */
  function Find(s: string, c: char): (k: nat)
    ensures k <= |s| && (k < |s| ==> s[k] == c)
    ensures forall i :: 0 <= i < k ==> s[i] != c
  {
    if s == "" || s[0] == c then 0 else Find(s[1..], c) + 1
  }

  lemma FindIs(s: string, c: char, k: nat)
    requires k <= |s| && (k < |s| ==> s[k] == c)
    requires forall i :: 0 <= i < k ==> s[i] != c
    ensures Find(s, c) == k
  {
  }

  /** `Find`, in the string's own positions, from `i` on. */
  function FindFrom(s: string, c: char, i: nat): (k: nat)
    requires i <= |s|
    ensures i <= k <= |s| && (k < |s| ==> s[k] == c)
    ensures forall j :: i <= j < k ==> s[j] != c
  {
    var k := i + Find(s[i..], c);
    assert forall j :: i <= j < k ==> s[j] == s[i..][j - i];
    k
  }

  lemma FindFromIs(s: string, c: char, i: nat, k: nat)
    requires i <= k <= |s| && (k < |s| ==> s[k] == c)
    requires forall j :: i <= j < k ==> s[j] != c
    ensures FindFrom(s, c, i) == k
  {
  }

  predicate OccursAt(s: string, sub: string, i: nat) {
    i + |sub| <= |s| && s[i..i + |sub|] == sub
  }

  predicate Contains(s: string, sub: string) {
    exists i :: 0 <= i <= |s| && OccursAt(s, sub, i)
  }

  function StripPrefix(s: string, p: string): Option<string> {
    if p <= s then Some(s[|p|..]) else None
  }

  function StripSuffix(s: string, p: string): Option<string> {
    if |p| <= |s| && s[|s| - |p|..] == p then Some(s[..|s| - |p|]) else None
  }

  // ----------------------------------------------------------- trimming --

  /** Unicode's White_Space property. */
  predicate IsSpace(c: char) {
    '\t' <= c <= '\r' || c == ' ' || c == '\U{85}' || c == '\U{A0}' || c == '\U{1680}'
    || '\U{2000}' <= c <= '\U{200A}' || c == '\U{2028}' || c == '\U{2029}' || c == '\U{202F}'
    || c == '\U{205F}' || c == '\U{3000}'
  }

  function TrimStart(s: string): (t: string)
    ensures |t| <= |s| && (t != "" ==> !IsSpace(t[0]))
    ensures t == s[|s| - |t|..] && forall i :: 0 <= i < |s| - |t| ==> IsSpace(s[i])
  {
    if s != "" && IsSpace(s[0]) then TrimStart(s[1..]) else s
  }

  function TrimEnd(s: string): (t: string)
    ensures |t| <= |s| && (t != "" ==> !IsSpace(t[|t| - 1]))
    ensures t == s[..|t|] && forall i :: |t| <= i < |s| ==> IsSpace(s[i])
  {
    if s != "" && IsSpace(s[|s| - 1]) then TrimEnd(s[..|s| - 1]) else s
  }

  function Trim(s: string): string {
    TrimEnd(TrimStart(s))
  }

  predicate Trimmed(s: string) {
    s == "" || (!IsSpace(s[0]) && !IsSpace(s[|s| - 1]))
  }

  // -------------------------------------------------- lines and pieces --

  function DropCr(line: string): string {
    if line != "" && line[|line| - 1] == '\r' then line[..|line| - 1] else line
  }

  /** `str::lines`: a newline ends a line, with the carriage return before it. */
  function Lines(s: string): seq<string>
    decreases |s|
  {
    if s == "" then []
    else
      var k := Find(s, '\n');
      if k == |s| then [s] else [DropCr(s[..k])] + Lines(s[k + 1..])
  }

  function Unlines(lines: seq<string>): string {
    if lines == [] then "" else lines[0] + "\n" + Unlines(lines[1..])
  }

  /** A line that survives being written with a newline and read back. */
  predicate IsLine(line: string) {
    '\n' !in line && DropCr(line) == line
  }

  lemma Associate<T>(a: seq<T>, b: seq<T>, c: seq<T>)
    ensures a + b + c == a + (b + c)
  {
  }

  lemma LinesStep(l: string, tail: string)
    requires IsLine(l)
    ensures Lines(l + "\n" + tail) == [l] + Lines(tail)
  {
    var s := l + "\n" + tail;
    assert forall i :: 0 <= i < |l| ==> s[i] == l[i];
    FindIs(s, '\n', |l|);
    assert s[..|l|] == l && s[|l| + 1..] == tail;
  }

  lemma {:induction false} LinesOfUnlines(lines: seq<string>, rest: string)
    requires forall l | l in lines :: IsLine(l)
    ensures Lines(Unlines(lines) + rest) == lines + Lines(rest)
  {
    if lines == [] {
      assert Unlines(lines) + rest == rest;
    } else {
      var l, tail := lines[0], Unlines(lines[1..]);
      LinesOfUnlines(lines[1..], rest);
      LinesStep(l, tail + rest);
      Associate(l + "\n", tail, rest);
      Associate([l], lines[1..], Lines(rest));
      assert lines == [l] + lines[1..];
    }
  }

  function Join(parts: seq<string>, sep: string): string {
    if parts == [] then "" else if |parts| == 1 then parts[0]
    else parts[0] + sep + Join(parts[1..], sep)
  }

  /** `str::split` on a character: one piece more than there are separators. */
  function Split(s: string, sep: char): (parts: seq<string>)
    ensures parts != [] && forall p | p in parts :: sep !in p
    decreases |s|
  {
    var k := Find(s, sep);
    if k == |s| then [s] else [s[..k]] + Split(s[k + 1..], sep)
  }

  /** Pieces that do not hold the separator are read back from their join. */
  lemma {:induction false} SplitOfJoin(parts: seq<string>, sep: char)
    requires parts != [] && forall p | p in parts :: sep !in p
    ensures Split(Join(parts, [sep]), sep) == parts
  {
    var p := parts[0];
    assert parts == [p] + parts[1..] && p in parts && forall q | q in parts[1..] :: q in parts;
    var text := Join(parts, [sep]);
    assert text[..|p|] == p && forall i :: 0 <= i < |p| ==> text[i] == p[i] && p[i] in p;
    FindIs(text, sep, |p|);
    if |parts| > 1 {
      var rest := Join(parts[1..], [sep]);
      SplitOfJoin(parts[1..], sep);
      assert text[..|p|] == p && text[|p| + 1..] == rest;
    }
  }

  // ------------------------------------------------------------ decimal --

  predicate IsDigit(c: char) { '0' <= c <= '9' }

  function DigitChar(n: nat): char
    requires n < 10
  {
    '0' + n as char
  }

  /** `{}` of a natural number. */
  function Decimal(n: nat): (s: string)
    ensures s != "" && forall c | c in s :: IsDigit(c)
  {
    if n < 10 then [DigitChar(n)] else Decimal(n / 10) + [DigitChar(n % 10)]
  }

  function Zeros(k: nat): (s: string)
    ensures |s| == k && forall c | c in s :: c == '0'
  {
    seq(k, _ => '0')
  }

  /** `{:0w}`: the sign counts toward the width, and a wide number is not cut. */
  function Padded(n: int, w: nat): string {
    var digits := Decimal(if n < 0 then -n else n);
    var width := if n < 0 then |digits| + 1 else |digits|;
    (if n < 0 then "-" else "") + Zeros(if width < w then w - width else 0) + digits
  }

  function DigitsValue(s: string): (v: int)
    requires forall c | c in s :: IsDigit(c)
    ensures v >= 0
  {
    if s == "" then 0
    else assert IsDigit(s[|s| - 1]); 10 * DigitsValue(s[..|s| - 1]) + (s[|s| - 1] as int - '0' as int)
  }

  /** `str::parse` to a signed integer type with the range `lo..=hi`. */
  function ParseInt(s: string, lo: int, hi: int): Option<int> {
    var digits := if s != "" && (s[0] == '+' || s[0] == '-') then s[1..] else s;
    if digits == "" || exists c | c in digits :: !IsDigit(c) then None
    else
      var n := if s[0] == '-' then -DigitsValue(digits) else DigitsValue(digits);
      if lo <= n <= hi then Some(n) else None
  }

  lemma {:induction false} ZerosAddNothing(k: nat, s: string)
    requires forall c | c in s :: IsDigit(c)
    ensures DigitsValue(Zeros(k) + s) == DigitsValue(s)
    decreases |s|, k
  {
    if s != "" {
      assert (Zeros(k) + s)[..|Zeros(k) + s| - 1] == Zeros(k) + s[..|s| - 1];
      ZerosAddNothing(k, s[..|s| - 1]);
    } else if k > 0 {
      assert (Zeros(k) + s)[..k - 1] == Zeros(k - 1) + s;
      ZerosAddNothing(k - 1, s);
    }
  }

  lemma {:induction false} DecimalValue(n: nat)
    ensures DigitsValue(Decimal(n)) == n
  {
    if n >= 10 {
      DecimalValue(n / 10);
    }
  }

  lemma ParseDigits(digits: string, lo: int, hi: int)
    requires digits != "" && forall c | c in digits :: IsDigit(c)
    ensures var n := DigitsValue(digits);
            ParseInt(digits, lo, hi) == (if lo <= n <= hi then Some(n) else None) &&
            ParseInt("-" + digits, lo, hi) == (if lo <= -n <= hi then Some(-n) else None)
  {
    assert digits[0] in digits;
    assert ("-" + digits)[1..] == digits;
  }

  lemma ParseIntRefuses(s: string, lo: int, hi: int)
    requires s == "" || !IsDigit(s[|s| - 1])
    ensures ParseInt(s, lo, hi) == None
  {
    if s != "" {
      var digits := if s[0] == '+' || s[0] == '-' then s[1..] else s;
      var c := s[|s| - 1];
      assert digits != "" ==> digits[|digits| - 1] == c;
      assert digits != "" ==> c in digits && !IsDigit(c);
    }
  }

  lemma PaddedDigits(m: nat, k: nat)
    ensures var s := Zeros(k) + Decimal(m);
            s != "" && (forall c | c in s :: IsDigit(c)) && DigitsValue(s) == m
  {
    DecimalValue(m);
    ZerosAddNothing(k, Decimal(m));
  }

  /** Printing, padded or not, and parsing give the number back in any type that holds it. */
  lemma ParsePadded(n: int, w: nat, lo: int, hi: int)
    requires lo <= n <= hi
    ensures ParseInt(Padded(n, w), lo, hi) == Some(n)
  {
    var digits := Decimal(if n < 0 then -n else n);
    var width := if n < 0 then |digits| + 1 else |digits|;
    var k := if width < w then w - width else 0;
    PaddedDigits(if n < 0 then -n else n, k);
    ParseDigits(Zeros(k) + digits, lo, hi);
    PaddedParts(n, w, k);
    hide Padded, ParseInt, Decimal, Zeros;
  }

  lemma PaddedParts(n: int, w: nat, k: nat)
    requires var digits := Decimal(if n < 0 then -n else n);
             var width := if n < 0 then |digits| + 1 else |digits|;
             k == if width < w then w - width else 0
    ensures Padded(n, w) == (if n < 0 then "-" else "") + (Zeros(k) + Decimal(if n < 0 then -n else n))
    ensures n >= 0 ==> Padded(n, w) == Zeros(k) + Decimal(n)
  {
    hide Decimal, Zeros;
  }

  /** How many digits a number of the sizes a date holds takes. */
  lemma DecimalWidth(n: nat)
    ensures |Decimal(n)| <= 1 <==> n < 10
    ensures |Decimal(n)| <= 2 <==> n < 100
    ensures |Decimal(n)| <= 3 <==> n < 1_000
    ensures |Decimal(n)| <= 4 <==> n < 10_000
  {
  }
}
