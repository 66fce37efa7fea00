/** The leading `//!` block of a corpus file: xtask/src/corpus.rs. */
module Directives {
  import opened Wrappers
  import opened Text
  import opened Sorting
  import opened RunCheck

  const PHASES: seq<string> := ["none", "lex", "parse", "resolve", "typecheck", "mem", "wir", "run"]

  datatype Header = Header(
    check: Option<Check>, phase: Option<string>, conforms: seq<string>, warns: seq<string>,
    member: Option<bool>, forward: Option<string>, relaid: bool)

  const EMPTY: Header := Header(None, None, [], [], None, None, false)

  /** What is wrong, and on which line (1-based) where a line is to blame. */
  datatype Error =
    Duplicate(line: nat, key: string) | BadCheck(line: nat, error: CheckError)
    | UnknownPhase(line: nat, value: string) | BadCode(line: nat, code: string)
    | NoReason(line: nat) | BadFmt(line: nat, value: string) | BadMember(line: nat, value: string)
    | MemberContradiction

  /** A comma list, trimmed, without its empty items. */
  function Items(pieces: seq<string>): seq<string> {
    if pieces == [] then []
    else
      var item := Trim(pieces[0]);
      (if item == "" then [] else [item]) + Items(pieces[1..])
  }

  predicate CodeShaped(code: string) {
    |code| == 5 && (code[0] == 'E' || code[0] == 'W') && forall c | c in code[1..] :: IsDigit(c)
  }

  function FirstUnshaped(codes: seq<string>): Option<string> {
    if codes == [] then None
    else if !CodeShaped(codes[0]) then Some(codes[0])
    else FirstUnshaped(codes[1..])
  }

  /** The codes a header line lists, if it is a `warns:` line. */
  function WarnsOf(rest: string): Option<seq<string>> {
    if "check:" <= rest || "phase:" <= rest || "conforms:" <= rest then None
    else match StripPrefix(rest, "warns:")
      case None => None
      case Some(v) => Some(Items(Split(v, ',')))
  }

  /** The two values a `member:` line can have. */
  function Flag(v: string): Option<bool> {
    if v == "true" then Some(true) else if v == "false" then Some(false) else None
  }

  /** One `//!` line, trimmed, applied to what the lines before it said. */
  function Apply(d: Header, line: nat, rest: string): Result<Header, Error> {
    if "check:" <= rest then
      if d.check.Some? then Err(Duplicate(line, "check"))
      else match ParseCheck(Trim(rest[6..]))
        case Ok(c) => Ok(d.(check := Some(c)))
        case Err(e) => Err(BadCheck(line, e))
    else if "phase:" <= rest then
      var v := Trim(rest[6..]);
      if v !in PHASES then Err(UnknownPhase(line, v))
      else if d.phase.Some? then Err(Duplicate(line, "phase"))
      else Ok(d.(phase := Some(v)))
    else if "conforms:" <= rest then
      Ok(d.(conforms := d.conforms + Items(Split(rest[9..], ','))))
    else if WarnsOf(rest).Some? then
      var codes := WarnsOf(rest).value;
      match FirstUnshaped(codes)
      case Some(code) => Err(BadCode(line, code))
      case None => Ok(d.(warns := SortedSet(d.warns + codes)))
    else if "forward:" <= rest then
      var v := Trim(rest[8..]);
      if v == "" then Err(NoReason(line))
      else if d.forward.Some? then Err(Duplicate(line, "forward"))
      else Ok(d.(forward := Some(v)))
    else if "fmt:" <= rest then
      var v := Trim(rest[4..]);
      if v == "relaid" then Ok(d.(relaid := true)) else Err(BadFmt(line, v))
    else if "member:" <= rest then
      if d.member.Some? then Err(Duplicate(line, "member"))
      else
        var v := Trim(rest[7..]);
        match Flag(v)
        case Some(b) => Ok(d.(member := Some(b)))
        case None => Err(BadMember(line, v))
    else Ok(d)
  }

  function Finish(d: Header): Result<Header, Error> {
    if d.member == Some(true) && (d.check.Some? || d.phase.Some?) then Err(MemberContradiction) else Ok(d)
  }

  /** A script's `#!` line, which only the file's first line can be. */
  predicate Shebang(line: string, i: nat) {
    i == 0 && "#!" <= TrimStart(line)
  }

  predicate InBlock(line: string) {
    "//!" <= TrimStart(line)
  }

  function Body(line: string): string
    requires InBlock(line)
  {
    Trim(TrimStart(line)[3..])
  }

  /** The rest of the file, from line `i` (0-based) on. */
  function Block(lines: seq<string>, i: nat, d: Header): Result<Header, Error> {
    if lines == [] then Finish(d)
    else if Shebang(lines[0], i) then Block(lines[1..], i + 1, d)
    else if !InBlock(lines[0]) then Finish(d)
    else match Apply(d, i + 1, Body(lines[0]))
      case Err(e) => Err(e)
      case Ok(next) => Block(lines[1..], i + 1, next)
  }

  /** The source behind its byte order mark. */
  function WithoutBom(src: string): string {
    if "\U{FEFF}" <= src then src[1..] else src
  }

  function Parsed(src: string): Result<Header, Error> {
    Block(Lines(WithoutBom(src)), 0, EMPTY)
  }

  // -------------------------------------------- what the block's lines say --

  /** The texts of the block's `//!` lines, in order. */
  function Bodies(lines: seq<string>, i: nat): seq<string> {
    if lines == [] then []
    else if Shebang(lines[0], i) then Bodies(lines[1..], i + 1)
    else if !InBlock(lines[0]) then []
    else [Body(lines[0])] + Bodies(lines[1..], i + 1)
  }

  /** What follows the key on each line that starts with it, in order. */
  function Rests(bodies: seq<string>, key: string): seq<string> {
    if bodies == [] then []
    else
      var last := bodies[|bodies| - 1];
      Rests(bodies[..|bodies| - 1], key) + if key <= last then [last[|key|..]] else []
  }

  /** The items of every list, in order. */
  function AllItems(lists: seq<string>): seq<string> {
    if lists == [] then []
    else AllItems(lists[..|lists| - 1]) + Items(Split(lists[|lists| - 1], ','))
  }

  /** Each key's texts as they may be: four keys stand once, and two take values of one kind. */
  predicate Fine(bodies: seq<string>) {
    && FineCheck(Rests(bodies, "check:")) && FinePhase(Rests(bodies, "phase:"))
    && FineForward(Rests(bodies, "forward:")) && FineMember(Rests(bodies, "member:"))
    && FineFmt(Rests(bodies, "fmt:")) && FineWarns(Rests(bodies, "warns:"))
  }

  predicate FineCheck(rests: seq<string>) { rests == [] || (|rests| == 1 && ParseCheck(Trim(rests[0])).Ok?) }

  predicate FinePhase(rests: seq<string>) { rests == [] || (|rests| == 1 && Trim(rests[0]) in PHASES) }

  predicate FineForward(rests: seq<string>) { rests == [] || (|rests| == 1 && Trim(rests[0]) != "") }

  predicate FineMember(rests: seq<string>) { rests == [] || (|rests| == 1 && Flag(Trim(rests[0])).Some?) }

  predicate FineFmt(rests: seq<string>) { forall v | v in rests :: Trim(v) == "relaid" }

  predicate FineWarns(rests: seq<string>) { forall code | code in AllItems(rests) :: CodeShaped(code) }

  /** A member that is also an entry. */
  predicate Contradicts(bodies: seq<string>) {
    (exists v | v in Rests(bodies, "member:") :: Flag(Trim(v)) == Some(true))
    && (Rests(bodies, "check:") != [] || Rests(bodies, "phase:") != [])
  }

  predicate IsOnly(value: Option<string>, rests: seq<string>) {
    match value case None => rests == [] case Some(v) => |rests| == 1 && Trim(rests[0]) == v
  }

  /** Every field of the header, by the lines of its key. */
  predicate States(h: Header, bodies: seq<string>) {
    && IsCheck(h.check, Rests(bodies, "check:"))
    && IsOnly(h.phase, Rests(bodies, "phase:"))
    && IsOnly(h.forward, Rests(bodies, "forward:"))
    && IsMember(h.member, Rests(bodies, "member:"))
    && h.conforms == AllItems(Rests(bodies, "conforms:"))
    && h.warns == SortedSet(AllItems(Rests(bodies, "warns:")))
    && (h.relaid <==> Rests(bodies, "fmt:") != [])
  }

  predicate IsCheck(check: Option<Check>, rests: seq<string>) {
    match check case None => rests == [] case Some(c) => |rests| == 1 && ParseCheck(Trim(rests[0])) == Ok(c)
  }

  predicate IsMember(member: Option<bool>, rests: seq<string>) {
    match member
    case None => rests == []
    case Some(b) => |rests| == 1 && Flag(Trim(rests[0])) == Some(b)
  }

  /** The error says what is wrong with the line, after the lines before it. */
  predicate Blames(e: Error, line: nat, before: seq<string>, body: string) {
    match e
    case Duplicate(n, key) => n == line && Repeats(key, before, body)
    case BadCheck(n, error) =>
      n == line && "check:" <= body && Rests(before, "check:") == [] && ParseCheck(Trim(body[6..])) == Err(error)
    case UnknownPhase(n, v) => n == line && "phase:" <= body && v == Trim(body[6..]) && v !in PHASES
    case BadCode(n, code) => n == line && "warns:" <= body && IsFirstUnshaped(Items(Split(body[6..], ',')), code)
    case NoReason(n) => n == line && "forward:" <= body && Trim(body[8..]) == ""
    case BadFmt(n, v) => n == line && "fmt:" <= body && v == Trim(body[4..]) && v != "relaid"
    case BadMember(n, v) =>
      n == line && "member:" <= body && Rests(before, "member:") == []
      && v == Trim(body[7..]) && Flag(v).None?
    case MemberContradiction => false
  }

  predicate Repeats(key: string, before: seq<string>, body: string) {
    || (key == "check" && "check:" <= body && Rests(before, "check:") != [])
    || (key == "phase" && "phase:" <= body && Rests(before, "phase:") != [])
    || (key == "forward" && "forward:" <= body && Rests(before, "forward:") != [])
    || (key == "member" && "member:" <= body && Rests(before, "member:") != [])
  }

  predicate IsFirstUnshaped(codes: seq<string>, code: string) {
    exists k :: 0 <= k < |codes| && codes[k] == code && !CodeShaped(code)
                && forall j :: 0 <= j < k ==> CodeShaped(codes[j])
  }

  lemma OneMoreLine(bodies: seq<string>, body: string, key: string)
    ensures Rests(bodies + [body], key)
         == if key <= body then Rests(bodies, key) + [body[|key|..]] else Rests(bodies, key)
  {
    assert (bodies + [body])[..|bodies|] == bodies && Rests(bodies, key) + [] == Rests(bodies, key);
  }

  lemma OneMoreList(lists: seq<string>, list: string)
    ensures AllItems(lists + [list]) == AllItems(lists) + Items(Split(list, ','))
  {
    assert (lists + [list])[..|lists|] == lists;
  }

  /** No line starts with two keys. */
  lemma KeysApart(body: string)
    ensures "check:" <= body ==> !("phase:" <= body) && !("conforms:" <= body) && !("warns:" <= body)
                                 && !("forward:" <= body) && !("fmt:" <= body) && !("member:" <= body)
    ensures "phase:" <= body ==> !("conforms:" <= body) && !("warns:" <= body)
                                 && !("forward:" <= body) && !("fmt:" <= body) && !("member:" <= body)
    ensures "conforms:" <= body ==> !("warns:" <= body)
                                    && !("forward:" <= body) && !("fmt:" <= body) && !("member:" <= body)
    ensures "warns:" <= body ==> !("forward:" <= body) && !("fmt:" <= body) && !("member:" <= body)
    ensures "forward:" <= body ==> !("fmt:" <= body) && !("member:" <= body)
    ensures "fmt:" <= body ==> !("member:" <= body)
  {
    assert "check:" <= body ==> body[0] == 'c' && body[1] == 'h';
    assert "phase:" <= body ==> body[0] == 'p';
    assert "conforms:" <= body ==> body[0] == 'c' && body[1] == 'o';
    assert "warns:" <= body ==> body[0] == 'w';
    assert "forward:" <= body ==> body[0] == 'f' && body[1] == 'o';
    assert "fmt:" <= body ==> body[0] == 'f' && body[1] == 'm';
    assert "member:" <= body ==> body[0] == 'm';
  }

  /** One line more: what it says, or what is wrong with it. */
  predicate Steps(d: Header, bodies: seq<string>, line: nat, body: string, r: Result<Header, Error>) {
    match r
    case Ok(next) => Fine(bodies + [body]) && States(next, bodies + [body])
    case Err(e) => !Fine(bodies + [body]) && Blames(e, line, bodies, body)
  }

  /** The line adds to its own key's texts, and to no other's. */
  predicate Extends(bodies: seq<string>, body: string, all: seq<string>) {
    && Added(bodies, body, all, "check:") && Added(bodies, body, all, "phase:") && Added(bodies, body, all, "conforms:")
    && Added(bodies, body, all, "warns:") && Added(bodies, body, all, "forward:") && Added(bodies, body, all, "fmt:")
    && Added(bodies, body, all, "member:")
  }

  predicate Added(bodies: seq<string>, body: string, all: seq<string>, key: string) {
    Rests(all, key) == if key <= body then Rests(bodies, key) + [body[|key|..]] else Rests(bodies, key)
  }

  lemma LineExtends(bodies: seq<string>, body: string)
    ensures Extends(bodies, body, bodies + [body])
  {
    OneMoreLine(bodies, body, "check:");
    OneMoreLine(bodies, body, "phase:");
    OneMoreLine(bodies, body, "conforms:");
    OneMoreLine(bodies, body, "warns:");
    OneMoreLine(bodies, body, "forward:");
    OneMoreLine(bodies, body, "fmt:");
    OneMoreLine(bodies, body, "member:");
    hide Rests;
  }

  lemma ApplySteps(d: Header, bodies: seq<string>, line: nat, body: string)
    requires Fine(bodies) && States(d, bodies)
    ensures Steps(d, bodies, line, body, Apply(d, line, body))
  {
    LineExtends(bodies, body);
    hide Apply, Steps, Fine, States, Extends;
    if "check:" <= body {
      CheckSteps(d, bodies, line, body);
    } else if "phase:" <= body {
      PhaseSteps(d, bodies, line, body);
    } else if "conforms:" <= body {
      ConformsSteps(d, bodies, line, body);
    } else if "warns:" <= body {
      WarnsSteps(d, bodies, line, body);
    } else if "forward:" <= body {
      ForwardSteps(d, bodies, line, body);
    } else if "fmt:" <= body {
      FmtSteps(d, bodies, line, body);
    } else if "member:" <= body {
      MemberSteps(d, bodies, line, body);
    } else {
      ProseSteps(d, bodies, line, body);
    }
  }

  lemma NotWarns(body: string)
    ensures !("warns:" <= body) ==> WarnsOf(body).None?
  {
  }

  lemma CheckSteps(d: Header, bodies: seq<string>, line: nat, body: string)
    requires "check:" <= body
    requires Fine(bodies) && States(d, bodies) && Extends(bodies, body, bodies + [body])
    ensures Steps(d, bodies, line, body, Apply(d, line, body))
  {
    KeysApart(body);
    hide Rests, AllItems, Items, Trim, ParseCheck, CodeShaped, SortedSet, Split, FirstUnshaped, IsFirstUnshaped, PHASES;
    hide FinePhase, FineForward, FineMember, FineFmt, FineWarns, IsOnly, IsMember;
  }

  lemma PhaseSteps(d: Header, bodies: seq<string>, line: nat, body: string)
    requires "phase:" <= body
    requires Fine(bodies) && States(d, bodies) && Extends(bodies, body, bodies + [body])
    ensures Steps(d, bodies, line, body, Apply(d, line, body))
  {
    KeysApart(body);
    hide Rests, AllItems, Items, Trim, ParseCheck, CodeShaped, SortedSet, Split, FirstUnshaped, IsFirstUnshaped, PHASES;
    hide FineCheck, FineForward, FineMember, FineFmt, FineWarns, IsCheck, IsMember;
  }

  lemma ConformsSteps(d: Header, bodies: seq<string>, line: nat, body: string)
    requires "conforms:" <= body
    requires Fine(bodies) && States(d, bodies) && Extends(bodies, body, bodies + [body])
    ensures Steps(d, bodies, line, body, Apply(d, line, body))
  {
    KeysApart(body);
    hide Rests, AllItems, Items, Trim, ParseCheck, CodeShaped, SortedSet, Split, FirstUnshaped, IsFirstUnshaped, PHASES;
    hide FineCheck, FinePhase, FineForward, FineMember, FineFmt, FineWarns, IsCheck, IsOnly, IsMember;
    OneMoreList(Rests(bodies, "conforms:"), body[9..]);
  }

  lemma WarnsSteps(d: Header, bodies: seq<string>, line: nat, body: string)
    requires "warns:" <= body
    requires Fine(bodies) && States(d, bodies) && Extends(bodies, body, bodies + [body])
    ensures Steps(d, bodies, line, body, Apply(d, line, body))
  {
    KeysApart(body);
    hide Rests, AllItems, Items, Trim, ParseCheck, CodeShaped, SortedSet, Split, FirstUnshaped, IsFirstUnshaped, PHASES;
    hide FineCheck, FinePhase, FineForward, FineMember, FineFmt, IsCheck, IsOnly, IsMember;
    var codes := Items(Split(body[6..], ','));
    OneMoreList(Rests(bodies, "warns:"), body[6..]);
    UnshapedIsFirst(codes);
    SortedSetGrows(AllItems(Rests(bodies, "warns:")), codes);
  }

  lemma ForwardSteps(d: Header, bodies: seq<string>, line: nat, body: string)
    requires "forward:" <= body
    requires Fine(bodies) && States(d, bodies) && Extends(bodies, body, bodies + [body])
    ensures Steps(d, bodies, line, body, Apply(d, line, body))
  {
    KeysApart(body);
    NotWarns(body);
    hide WarnsOf, Rests, AllItems, Items, Trim, ParseCheck, CodeShaped, SortedSet, Split, PHASES;
    hide FineCheck, FinePhase, FineMember, FineFmt, FineWarns, IsCheck, IsMember, FirstUnshaped, IsFirstUnshaped;
  }

  lemma FmtSteps(d: Header, bodies: seq<string>, line: nat, body: string)
    requires "fmt:" <= body
    requires Fine(bodies) && States(d, bodies) && Extends(bodies, body, bodies + [body])
    ensures Steps(d, bodies, line, body, Apply(d, line, body))
  {
    KeysApart(body);
    NotWarns(body);
    hide WarnsOf, Rests, AllItems, Items, Trim, ParseCheck, CodeShaped, SortedSet, Split, PHASES;
    hide FineCheck, FinePhase, FineForward, FineMember, FineWarns, IsCheck, IsOnly, IsMember;
    hide FirstUnshaped, IsFirstUnshaped;
  }

  lemma MemberSteps(d: Header, bodies: seq<string>, line: nat, body: string)
    requires "member:" <= body
    requires Fine(bodies) && States(d, bodies) && Extends(bodies, body, bodies + [body])
    ensures Steps(d, bodies, line, body, Apply(d, line, body))
  {
    KeysApart(body);
    NotWarns(body);
    hide WarnsOf, Rests, AllItems, Items, Trim, ParseCheck, CodeShaped, SortedSet, Split, PHASES;
    hide FineCheck, FinePhase, FineForward, FineFmt, FineWarns, IsCheck, IsOnly, FirstUnshaped, IsFirstUnshaped, Flag;
  }

  lemma ProseSteps(d: Header, bodies: seq<string>, line: nat, body: string)
    requires !("check:" <= body) && !("phase:" <= body) && !("conforms:" <= body) && !("warns:" <= body)
             && !("forward:" <= body) && !("fmt:" <= body) && !("member:" <= body)
    requires Fine(bodies) && States(d, bodies) && Extends(bodies, body, bodies + [body])
    ensures Steps(d, bodies, line, body, Apply(d, line, body))
  {
    NotWarns(body);
    hide WarnsOf, Rests, AllItems, Items, Trim, ParseCheck, CodeShaped, SortedSet, Split, PHASES;
    hide FineCheck, FinePhase, FineForward, FineMember, FineFmt, FineWarns, IsCheck, IsOnly, IsMember;
    hide FirstUnshaped, IsFirstUnshaped;
  }

  lemma {:induction false} UnshapedIsFirst(codes: seq<string>)
    ensures FirstUnshaped(codes).None? <==> forall c | c in codes :: CodeShaped(c)
    ensures FirstUnshaped(codes).Some? ==> IsFirstUnshaped(codes, FirstUnshaped(codes).value)
  {
    hide CodeShaped;
    if codes != [] {
      assert codes == [codes[0]] + codes[1..];
      UnshapedIsFirst(codes[1..]);
      if CodeShaped(codes[0]) && FirstUnshaped(codes[1..]).Some? {
        var code := FirstUnshaped(codes).value;
        var k :| 0 <= k < |codes[1..]| && codes[1..][k] == code && forall j :: 0 <= j < k ==> CodeShaped(codes[1..][j]);
        assert codes[k + 1] == code && forall j :: 0 < j < k + 1 ==> codes[j] == codes[1..][j - 1];
      }
    }
  }

  lemma {:induction false} RestsAdd(a: seq<string>, b: seq<string>, key: string)
    ensures Rests(a + b, key) == Rests(a, key) + Rests(b, key)
  {
    if b == [] {
      assert a + b == a && Rests(a, key) + [] == Rests(a, key);
    } else {
      assert (a + b)[..|a + b| - 1] == a + b[..|b| - 1];
      RestsAdd(a, b[..|b| - 1], key);
    }
  }

  lemma {:induction false} ItemsAdd(a: seq<string>, b: seq<string>)
    ensures AllItems(a + b) == AllItems(a) + AllItems(b)
  {
    hide Items, Split;
    if b == [] {
      assert a + b == a && AllItems(a) + [] == AllItems(a);
    } else {
      assert (a + b)[..|a + b| - 1] == a + b[..|b| - 1];
      ItemsAdd(a, b[..|b| - 1]);
    }
  }

  /** A block whose first lines are at fault is at fault. */
  lemma FineStarts(a: seq<string>, b: seq<string>)
    requires Fine(a + b)
    ensures Fine(a)
  {
    RestsAdd(a, b, "check:");
    RestsAdd(a, b, "phase:");
    RestsAdd(a, b, "forward:");
    RestsAdd(a, b, "member:");
    RestsAdd(a, b, "fmt:");
    RestsAdd(a, b, "warns:");
    ItemsAdd(Rests(a, "warns:"), Rests(b, "warns:"));
    hide Rests, AllItems, Trim, ParseCheck, CodeShaped, PHASES;
  }

  /** The line at fault: the lines before it are in the block and fine. */
  ghost predicate Faulty(lines: seq<string>, i: nat, before: seq<string>, e: Error) {
    exists n :: 0 <= n < |lines| && InBlock(lines[n]) && !Shebang(lines[n], i + n)
                && (forall m :: 0 <= m < n ==> InBlock(lines[m]) || Shebang(lines[m], i + m))
                && Fine(before + Bodies(lines[..n], i))
                && Blames(e, i + n + 1, before + Bodies(lines[..n], i), Body(lines[n]))
  }

  /** What the block makes of its lines, after lines that were fine. */
  ghost predicate Means(lines: seq<string>, i: nat, before: seq<string>, r: Result<Header, Error>) {
    var all := before + Bodies(lines, i);
    match r
    case Ok(h) => Fine(all) && !Contradicts(all) && States(h, all)
    case Err(e) => if Fine(all) then Contradicts(all) && e == MemberContradiction else Faulty(lines, i, before, e)
  }

  lemma FinishMeans(d: Header, all: seq<string>)
    requires Fine(all) && States(d, all)
    ensures Finish(d) == if Contradicts(all) then Err(MemberContradiction) else Ok(d)
  {
    hide Rests, AllItems, Trim, ParseCheck, SortedSet, PHASES, Flag;
  }

  lemma FaultyLater(lines: seq<string>, i: nat, before: seq<string>, e: Error)
    requires lines != [] && (InBlock(lines[0]) || Shebang(lines[0], i))
    requires var next := if Shebang(lines[0], i) then before else before + [Body(lines[0])];
             Faulty(lines[1..], i + 1, next, e)
    ensures Faulty(lines, i, before, e)
  {
    hide InBlock, Shebang, Body, Fine, Blames;
    var tail := lines[1..];
    var next := if Shebang(lines[0], i) then before else before + [Body(lines[0])];
    var n :| 0 <= n < |tail| && InBlock(tail[n]) && !Shebang(tail[n], i + 1 + n)
             && (forall m :: 0 <= m < n ==> InBlock(tail[m]) || Shebang(tail[m], i + 1 + m))
             && Fine(next + Bodies(tail[..n], i + 1))
             && Blames(e, i + 1 + n + 1, next + Bodies(tail[..n], i + 1), Body(tail[n]));
    assert lines[..n + 1][1..] == tail[..n];
    assert next + Bodies(tail[..n], i + 1) == before + Bodies(lines[..n + 1], i);
    assert forall m :: 0 < m < n + 1 ==> lines[m] == tail[m - 1];
    assert lines[n + 1] == tail[n];
  }

  lemma {:induction false} BlockMeans(lines: seq<string>, i: nat, d: Header, before: seq<string>)
    requires Fine(before) && States(d, before)
    ensures Means(lines, i, before, Block(lines, i, d))
    decreases |lines|
  {
    hide Apply, Finish, Body, InBlock, Shebang, Fine, States, Blames, Contradicts, Faulty;
    if lines == [] || (!Shebang(lines[0], i) && !InBlock(lines[0])) {
      assert before + Bodies(lines, i) == before;
      FinishMeans(d, before);
    } else if Shebang(lines[0], i) {
      BlockMeans(lines[1..], i + 1, d, before);
      var r := Block(lines, i, d);
      if r.Err? && Faulty(lines[1..], i + 1, before, r.error) {
        FaultyLater(lines, i, before, r.error);
      }
    } else {
      LineMeans(lines, i, d, before);
    }
  }

  lemma {:induction false} LineMeans(lines: seq<string>, i: nat, d: Header, before: seq<string>)
    requires Fine(before) && States(d, before) && lines != [] && !Shebang(lines[0], i) && InBlock(lines[0])
    ensures Means(lines, i, before, Block(lines, i, d))
    decreases |lines|, 0
  {
    hide Apply, Finish, Body, InBlock, Shebang, Fine, States, Blames, Contradicts, Faulty;
    var body, rest := Body(lines[0]), Bodies(lines[1..], i + 1);
    ApplySteps(d, before, i + 1, body);
    Associate(before, [body], rest);
    var r := Apply(d, i + 1, body);
    if r.Ok? {
      BlockMeans(lines[1..], i + 1, r.value, before + [body]);
      var whole := Block(lines, i, d);
      if whole.Err? && Faulty(lines[1..], i + 1, before + [body], whole.error) {
        FaultyLater(lines, i, before, whole.error);
      }
    } else {
      if Fine(before + [body] + rest) {
        FineStarts(before + [body], rest);
      }
      FaultyNow(lines, i, before, r.error);
    }
  }

  lemma FaultyNow(lines: seq<string>, i: nat, before: seq<string>, e: Error)
    requires lines != [] && InBlock(lines[0]) && !Shebang(lines[0], i)
    requires Fine(before) && Blames(e, i + 1, before, Body(lines[0]))
    ensures Faulty(lines, i, before, e)
  {
    hide InBlock, Shebang, Body, Fine, Blames;
    assert lines[..0] == [] && before + Bodies(lines[..0], i) == before;
  }

  /** The header block of a source: accepted exactly when its lines are fine and
      no member is an entry, each field is what the lines of its key say, and an
      error names the first line at fault and what is wrong with it. */
  lemma ParsedMeans(src: string)
    ensures Means(Lines(WithoutBom(src)), 0, [], Parsed(src))
  {
    hide Block, Lines, WithoutBom, Means;
    NothingSaid();
    BlockMeans(Lines(WithoutBom(src)), 0, EMPTY, []);
  }

  lemma {:induction false} RestsAre(bodies: seq<string>, key: string, v: string)
    ensures v in Rests(bodies, key) <==> exists body | body in bodies :: key <= body && body[|key|..] == v
  {
    if bodies != [] {
      var n := |bodies| - 1;
      assert bodies == bodies[..n] + [bodies[n]];
      RestsAre(bodies[..n], key, v);
    }
  }

  ghost predicate SaysMember(bodies: seq<string>, value: string) {
    exists body | body in bodies :: "member:" <= body && Trim(body[7..]) == value
  }

  /** An accepted file is a marked member exactly when a line of its block says
      `member:` true, and marked as none exactly when one says false. */
  lemma MemberIsSaid(src: string)
    ensures var r, bodies := Parsed(src), Bodies(Lines(WithoutBom(src)), 0);
            r.Ok? ==> (r.value.member == Some(true) <==> SaysMember(bodies, "true"))
                      && (r.value.member == Some(false) <==> SaysMember(bodies, "false"))
  {
    var bodies := Bodies(Lines(WithoutBom(src)), 0);
    ParsedMeans(src);
    assert [] + bodies == bodies;
    hide Parsed, Bodies, Lines, WithoutBom, Contradicts, FineCheck, FinePhase, FineForward, FineFmt, FineWarns, Faulty;
    if Parsed(src).Ok? {
      hide Means;
      MemberTexts(bodies, Parsed(src).value.member);
    }
  }

  lemma MemberTexts(bodies: seq<string>, member: Option<bool>)
    requires IsMember(member, Rests(bodies, "member:"))
    ensures member == Some(true) <==> SaysMember(bodies, "true")
    ensures member == Some(false) <==> SaysMember(bodies, "false")
  {
    var rests := Rests(bodies, "member:");
    SaidIsRest(bodies, "true");
    SaidIsRest(bodies, "false");
    TextIs(rests, "true");
    TextIs(rests, "false");
    hide Rests, Trim, SaysMember, HasText, Flag;
    if member.Some? {
      FlagMeans(Trim(rests[0]));
    }
  }

  lemma FlagMeans(v: string)
    ensures (Flag(v) == Some(true) <==> v == "true") && (Flag(v) == Some(false) <==> v == "false")
  {
    assert |"true"| != |"false"|;
  }

  predicate HasText(rests: seq<string>, value: string) {
    exists v | v in rests :: Trim(v) == value
  }

  lemma TextIs(rests: seq<string>, value: string)
    ensures rests == [] ==> !HasText(rests, value)
    ensures |rests| == 1 ==> (HasText(rests, value) <==> Trim(rests[0]) == value)
  {
    hide Trim;
    assert |rests| == 1 ==> rests[0] in rests;
  }

  lemma SaidIsRest(bodies: seq<string>, value: string)
    ensures SaysMember(bodies, value) <==> HasText(Rests(bodies, "member:"), value)
  {
    hide Rests, Trim;
    if body :| body in bodies && "member:" <= body && Trim(body[7..]) == value {
      RestsAre(bodies, "member:", body[7..]);
    }
    if v :| v in Rests(bodies, "member:") && Trim(v) == value {
      RestsAre(bodies, "member:", v);
    }
  }

  lemma NothingSaid()
    ensures Fine([]) && States(EMPTY, [])
  {
    SortedSetLists([]);
  }

  method ParseDirectives(src: string) returns (r: Result<Header, Error>)
    ensures r == Parsed(src)
    ensures Means(Lines(WithoutBom(src)), 0, [], r)
  {
    ParsedMeans(src);
    hide Means;
    hide Apply, Finish, Body, InBlock, Shebang;
    var d := EMPTY;
    var lines := Lines(WithoutBom(src));
    for i := 0 to |lines|
      invariant Block(lines[i..], i, d) == Parsed(src)
    {
      assert lines[i..][1..] == lines[i + 1..];
      if Shebang(lines[i], i) {
        continue;
      }
      if !InBlock(lines[i]) {
        return Finish(d);
      }
      match Apply(d, i + 1, Body(lines[i])) {
        case Err(e) => return Err(e);
        case Ok(next) => d := next;
      }
    }
    r := Finish(d);
  }

  // ------------------------------------------------------- main results --

  lemma {:induction false} ItemsOfPieces(pieces: seq<string>, items: seq<string>)
    requires |pieces| == |items| && forall k :: 0 <= k < |items| ==> Trim(pieces[k]) == items[k] != ""
    ensures Items(pieces) == items
  {
    hide Trim;
    if pieces != [] {
      assert forall k :: 0 <= k < |items| - 1 ==> pieces[1..][k] == pieces[k + 1] && items[1..][k] == items[k + 1];
      ItemsOfPieces(pieces[1..], items[1..]);
      assert items == [items[0]] + items[1..];
    }
  }

  /** Items set apart by commas, whatever blanks surround them, are read back in order. */
  lemma ItemsOfList(pieces: seq<string>, items: seq<string>)
    requires pieces != [] && |pieces| == |items| && forall p | p in pieces :: ',' !in p
    requires forall k :: 0 <= k < |items| ==> Trim(pieces[k]) == items[k] != ""
    ensures Items(Split(Join(pieces, ","), ',')) == items
  {
    SplitOfJoin(pieces, ',');
    ItemsOfPieces(pieces, items);
  }

  /** What follows the first line outside the block changes nothing. */
  lemma {:induction false} BlockEnds(head: seq<string>, stop: string, rest: seq<string>, i: nat, d: Header)
    requires !InBlock(stop) && !Shebang(stop, i + |head|)
    ensures Block(head + [stop] + rest, i, d) == Block(head, i, d)
  {
    hide Apply, Finish, Body, InBlock, Shebang;
    var lines := head + [stop] + rest;
    if head == [] {
      assert lines[0] == stop;
    } else {
      assert lines[0] == head[0] && lines[1..] == head[1..] + [stop] + rest;
      if Shebang(head[0], i) {
        BlockEnds(head[1..], stop, rest, i + 1, d);
      } else if InBlock(head[0]) {
        match Apply(d, i + 1, Body(head[0])) {
          case Err(_) =>
          case Ok(next) => BlockEnds(head[1..], stop, rest, i + 1, next);
        }
      }
    }
  }

  /** Every code on every `warns:` line of the block. */
  function Listed(lines: seq<string>, i: nat): seq<string> {
    if lines == [] then []
    else if Shebang(lines[0], i) then Listed(lines[1..], i + 1)
    else if !InBlock(lines[0]) then []
    else
      var codes := WarnsOf(Body(lines[0]));
      (if codes.Some? then codes.value else []) + Listed(lines[1..], i + 1)
  }

  lemma SortedSetGrows(a: seq<string>, b: seq<string>)
    ensures SortedSet(SortedSet(a) + b) == SortedSet(a + b)
  {
    hide SortedSet;
    SortedSetLists(a);
    SortedSetLists(a + b);
    SortedSetLists(SortedSet(a) + b);
    StrictListIsUnique(SortedSet(SortedSet(a) + b), SortedSet(a + b));
  }

  lemma WarnsOfApply(d: Header, line: nat, rest: string)
    ensures var r := Apply(d, line, rest);
            r.Ok? ==> r.value.warns == match WarnsOf(rest)
                                       case Some(codes) => SortedSet(d.warns + codes)
                                       case None => d.warns
  {
    hide ParseCheck, Trim, SortedSet, Items, Split;
  }

  lemma {:induction false} WarnsAccumulate(lines: seq<string>, i: nat, d: Header, before: seq<string>)
    requires d.warns == SortedSet(before)
    ensures var r := Block(lines, i, d); r.Ok? ==> r.value.warns == SortedSet(before + Listed(lines, i))
  {
    hide Apply, Body, InBlock, Shebang, SortedSet, WarnsOf;
    if lines == [] || (!Shebang(lines[0], i) && !InBlock(lines[0])) {
      assert before + [] == before;
    } else if Shebang(lines[0], i) {
      WarnsAccumulate(lines[1..], i + 1, d, before);
    } else {
      var rest := Body(lines[0]);
      var next := Apply(d, i + 1, rest);
      if next.Ok? {
        WarnsOfApply(d, i + 1, rest);
        var codes := if WarnsOf(rest).Some? then WarnsOf(rest).value else [];
        SortedSetGrows(before, codes);
        assert before + [] == before;
        WarnsAccumulate(lines[1..], i + 1, next.value, before + codes);
        Associate(before, codes, Listed(lines[1..], i + 1));
      }
    }
  }

  /** `warns` lists each code of each `warns:` line once, in order. */
  lemma WarnsAreListed(src: string)
    ensures var listed := Listed(Lines(WithoutBom(src)), 0);
            Parsed(src).Ok? ==>
              StrictlySorted(Parsed(src).value.warns) &&
              forall c :: c in Parsed(src).value.warns <==> c in listed
  {
    var lines := Lines(WithoutBom(src));
    hide Block, Listed, Lines, WithoutBom;
    SortedSetLists([]);
    assert EMPTY.warns == SortedSet([]);
    WarnsAccumulate(lines, 0, EMPTY, []);
    assert [] + Listed(lines, 0) == Listed(lines, 0);
    SortedSetLists(Listed(lines, 0));
  }

  const PREFIX: string := "//! check: "

  lemma HeaderLines(text: string, tail: string)
    requires IsLine(text) && text != ""
    ensures Lines(WithoutBom(PREFIX + text + "\n" + tail)) == [PREFIX + text] + Lines(tail)
  {
    var line := PREFIX + text;
    var src := line + "\n" + tail;
    assert src[0] == '/' && WithoutBom(src) == src;
    assert line[|line| - 1] == text[|text| - 1];
    assert text[..|text| - 1] != text;
    assert DropCr(line) == line && '\n' !in line;
    hide Lines;
    LinesStep(line, tail);
  }

  lemma HeaderApplies(c: Check, text: string)
    requires Trimmed(text) && text != "" && ParseCheck(text) == Ok(c)
    ensures Apply(EMPTY, 1, "check: " + text) == Ok(EMPTY.(check := Some(c)))
  {
    hide ParseCheck, Trim;
    TrimOfTrimmed(text);
    assert ("check: " + text)[6..] == " " + text;
  }

  /** A one-line header states exactly its check, whatever code follows it. */
  lemma HeaderRoundTrip(c: Check, stop: string, rest: string)
    requires IsLine(PrintCheck(c)) && Trimmed(PrintCheck(c)) && PrintCheck(c) != ""
    requires ParseCheck(PrintCheck(c)) == Ok(c)
    requires IsLine(stop) && !InBlock(stop)
    ensures Parsed(PREFIX + PrintCheck(c) + "\n" + (stop + "\n" + rest)) == Ok(EMPTY.(check := Some(c)))
  {
    hide ParseCheck, PrintCheck, Body, InBlock, Shebang, Lines, WithoutBom, Apply, IsLine, Trimmed, PREFIX;
    var text := PrintCheck(c);
    HeaderLines(text, stop + "\n" + rest);
    LinesStep(stop, rest);
    HeaderBody(text);
    HeaderApplies(c, text);
    var head, tail := [PREFIX + text], [stop] + Lines(rest);
    assert (head + tail)[1..] == tail && tail[0] == stop;
    assert !Shebang(stop, 1) by { OnlyFirstIsShebang(stop, 1); }
    assert Block(tail, 1, EMPTY.(check := Some(c))) == Ok(EMPTY.(check := Some(c)));
  }

  lemma OnlyFirstIsShebang(line: string, i: nat)
    requires i > 0
    ensures !Shebang(line, i)
  {
  }

  lemma HeaderBody(text: string)
    requires Trimmed(text) && text != ""
    ensures var line := PREFIX + text;
            InBlock(line) && !Shebang(line, 0) && Body(line) == "check: " + text
  {
    var line, body := PREFIX + text, "check: " + text;
    assert line[0] == '/' && line[1] == '/' && line[2] == '!' && line[3..] == " " + body;
    assert body[0] == 'c' && body[|body| - 1] == text[|text| - 1];
    Unindented(line);
    TrimOfTrimmed(body);
    hide Trim, TrimStart, IsSpace;
    assert "#!"[0] == '#';
  }

  lemma Unindented(line: string)
    requires line != "" && !IsSpace(line[0])
    ensures TrimStart(line) == line
  {
  }

  /** Every printable `run(...)` makes such a header. */
  lemma RunHeaderRoundTrip(r: RunExpect, stop: string, rest: string)
    requires Known(r.exit) && (r.stdout.Some? ==> CommasHeld(r.stdout.value))
    requires IsLine(stop) && !InBlock(stop)
    ensures Parsed(PREFIX + PrintCheck(Run(r)) + "\n" + (stop + "\n" + rest))
         == Ok(EMPTY.(check := Some(Run(r))))
  {
    hide ParseCheck, PrintCheck, Parsed, InBlock, CommasHeld, IsLine, Trimmed, PREFIX;
    RunRoundTrip(r);
    RunIsLine(r);
    HeaderRoundTrip(Run(r), stop, rest);
  }

  lemma {:induction false} EscapeHasNoNewline(v: string)
    ensures '\n' !in Escape(v)
  {
    if v != "" {
      EscapeHasNoNewline(v[1..]);
      assert '\n' !in EscapeChar(v[0]);
    }
  }

  lemma RunIsLine(r: RunExpect)
    requires Known(r.exit)
    ensures var text := PrintCheck(Run(r)); IsLine(text) && Trimmed(text) && text != ""
  {
    hide Escape, PrintExit;
    if r.stdout.Some? {
      EscapeHasNoNewline(r.stdout.value);
    }
    ExitIsLine(r.exit);
    var text := PrintCheck(Run(r));
    assert text[0] == 'r' && text[|text| - 1] == ')';
  }

  lemma ExitIsLine(e: ExitExpect)
    requires Known(e)
    ensures '\n' !in PrintExit(e)
  {
    match e {
      case Code(n) => NumeralChars(n);
      case Nonzero =>
      case Trap(None) =>
      case Trap(Some(kind)) => KindsHaveNoNewline();
    }
  }

  lemma KindsHaveNoNewline()
    ensures forall kind | kind in TRAP_KINDS :: '\n' !in kind
  {
  }
}
