/** The path rules of ci/tiers.py: its globs, and the class each path gets. */
module PathRules {
  // --------------------------------------------------------------- globs --

  /** The whole path fits: `*` is any run without a slash, all else itself. */
  predicate Fits(glob: string, path: string)
    decreases |glob| + |path|
  {
    if glob == "" then path == ""
    else if glob[0] == '*' then
      Fits(glob[1..], path) || (path != "" && path[0] != '/' && Fits(glob, path[1..]))
    else path != "" && path[0] == glob[0] && Fits(glob[1..], path[1..])
  }

  predicate IsSubtree(glob: string) {
    |glob| >= 3 && glob[|glob| - 3..] == "/**"
  }

  predicate Matches(glob: string, path: string) {
    if IsSubtree(glob) then glob[..|glob| - 2] <= path else Fits(glob, path)
  }

  function Stars(glob: string): nat {
    if glob == "" then 0 else (if glob[0] == '*' then 1 else 0) + Stars(glob[1..])
  }

  /** The glob with its stars filled in, left to right. */
  function Fill(glob: string, fills: seq<string>): string
    requires |fills| == Stars(glob)
  {
    if glob == "" then ""
    else if glob[0] == '*' then fills[0] + Fill(glob[1..], fills[1..])
    else [glob[0]] + Fill(glob[1..], fills)
  }

  predicate InOneSegment(fills: seq<string>) {
    forall f | f in fills :: '/' !in f
  }

  ghost predicate Instance(glob: string, path: string) {
    exists fills: seq<string> :: |fills| == Stars(glob) && InOneSegment(fills) && Fill(glob, fills) == path
  }

  lemma {:induction false} StarEats(glob: string, f: string, rest: string)
    requires glob != "" && glob[0] == '*' && '/' !in f && Fits(glob[1..], rest)
    ensures Fits(glob, f + rest)
  {
    if f == "" {
      assert f + rest == rest;
    } else {
      assert f[0] != '/' && forall c | c in f[1..] :: c in f;
      StarEats(glob, f[1..], rest);
      assert (f + rest)[1..] == f[1..] + rest;
    }
  }

  lemma {:induction false} FilledFits(glob: string, fills: seq<string>)
    requires |fills| == Stars(glob) && InOneSegment(fills)
    ensures Fits(glob, Fill(glob, fills))
  {
    if glob != "" && glob[0] == '*' {
      assert fills[0] in fills && forall f | f in fills[1..] :: f in fills;
      FilledFits(glob[1..], fills[1..]);
      StarEats(glob, fills[0], Fill(glob[1..], fills[1..]));
    } else if glob != "" {
      FilledFits(glob[1..], fills);
      var path := Fill(glob, fills);
      assert path[1..] == Fill(glob[1..], fills);
    }
  }

  lemma {:induction false} FitHasFills(glob: string, path: string) returns (fills: seq<string>)
    requires Fits(glob, path)
    ensures |fills| == Stars(glob) && InOneSegment(fills) && Fill(glob, fills) == path
    decreases |glob| + |path|
  {
    if glob == "" {
      fills := [];
    } else if glob[0] != '*' {
      fills := FitHasFills(glob[1..], path[1..]);
      assert path == [path[0]] + path[1..];
    } else if Fits(glob[1..], path) {
      var rest := FitHasFills(glob[1..], path);
      fills := [""] + rest;
      assert fills[1..] == rest && "" + path == path;
    } else {
      var more := FitHasFills(glob, path[1..]);
      fills := [[path[0]] + more[0]] + more[1..];
      assert fills[1..] == more[1..] && more[0] in more && forall f | f in more[1..] :: f in more;
      assert [path[0]] + more[0] + Fill(glob[1..], more[1..]) == [path[0]] + (more[0] + Fill(glob[1..], more[1..]));
      assert path == [path[0]] + path[1..];
    }
  }

  /** A path fits exactly when the stars can be filled in, each within one segment, to spell it. */
  lemma FitsMeans(glob: string, path: string)
    ensures Fits(glob, path) <==> Instance(glob, path)
  {
    if Fits(glob, path) {
      var fills := FitHasFills(glob, path);
    }
    if Instance(glob, path) {
      var fills: seq<string> :| |fills| == Stars(glob) && InOneSegment(fills) && Fill(glob, fills) == path;
      FilledFits(glob, fills);
    }
  }

  function Depth(path: string): nat {
    if path == "" then 0 else (if path[0] == '/' then 1 else 0) + Depth(path[1..])
  }

  /** No star crosses a segment: a path that fits is exactly as deep as its glob. */
  lemma {:induction false} FitKeepsDepth(glob: string, path: string)
    requires Fits(glob, path)
    ensures Depth(path) == Depth(glob)
    decreases |glob| + |path|
  {
    if glob != "" {
      if glob[0] != '*' {
        FitKeepsDepth(glob[1..], path[1..]);
      } else if Fits(glob[1..], path) {
        FitKeepsDepth(glob[1..], path);
      } else {
        FitKeepsDepth(glob, path[1..]);
      }
    }
  }

  predicate Literal(glob: string) { '*' !in glob }

  lemma {:induction false} LiteralFits(glob: string, path: string)
    requires Literal(glob)
    ensures Fits(glob, path) <==> path == glob
  {
    if glob != "" {
      assert glob == [glob[0]] + glob[1..] && forall c | c in glob[1..] :: c in glob;
      if path != "" {
        assert path == [path[0]] + path[1..];
        LiteralFits(glob[1..], path[1..]);
      }
    }
  }

  lemma {:induction false} OneStarFill(a: string, b: string, x: string)
    requires Literal(a) && Literal(b)
    ensures Stars(a + "*" + b) == 1 && Fill(a + "*" + b, [x]) == a + x + b
  {
    if a == "" {
      StarFill(b, x);
      assert "" + "*" + b == "*" + b && "" + x + b == x + b;
    } else {
      assert a == [a[0]] + a[1..] && forall c | c in a[1..] :: c in a;
      OneStarFill(a[1..], b, x);
      Pull(a[0], a[1..], "*", b);
      Pull(a[0], a[1..], x, b);
    }
  }

  lemma Pull(c: char, a: string, x: string, b: string)
    ensures [c] + a + x + b == [c] + (a + x + b) && ([c] + a + x + b)[1..] == a + x + b
  {
  }

  lemma StarFill(b: string, x: string)
    requires Literal(b)
    ensures Stars("*" + b) == 1 && Fill("*" + b, [x]) == x + b
  {
    LiteralFill(b);
    assert ("*" + b)[1..] == b && [x][1..] == [];
  }

  lemma {:induction false} LiteralFill(b: string)
    requires Literal(b)
    ensures Stars(b) == 0 && Fill(b, []) == b
  {
    if b != "" {
      assert b == [b[0]] + b[1..] && forall c | c in b[1..] :: c in b;
      LiteralFill(b[1..]);
    }
  }

  ghost predicate Between(a: string, path: string, b: string) {
    exists x: string :: '/' !in x && path == a + x + b
  }

  lemma OneStarFits(a: string, b: string, path: string)
    requires Literal(a) && Literal(b)
    ensures Fits(a + "*" + b, path) <==> Between(a, path, b)
  {
    OneStarFill(a, b, "");
    if Fits(a + "*" + b, path) {
      var fills := FitHasFills(a + "*" + b, path);
      assert fills == [fills[0]] && fills[0] in fills;
      OneStarFill(a, b, fills[0]);
    }
    if Between(a, path, b) {
      var x: string :| '/' !in x && path == a + x + b;
      OneStarFill(a, b, x);
      FilledFits(a + "*" + b, [x]);
    }
  }

  // --------------------------------------------------------------- rules --

  datatype Class = PROSE | PR | FULL

  /** Generated pages and the README, which gates and tests read: never prose. */
  const KEPT: seq<(string, Class)> :=
    [("docs/diagnostics.md", PR), ("docs/warnings.md", PR), ("docs/api/**", PR), ("README.md", PR)]

  const PROSE_PAGES: seq<(string, Class)> :=
    [("CHANGELOG.md", PROSE), ("CONTRIBUTING.md", PROSE), ("docs/*.md", PROSE), ("docs/release/*.md", PROSE)]

  /** Directories whose every file a build or a test can depend on. */
  const TREES: seq<(string, Class)> :=
    [("crates/**", PR), ("corpus/**", PR), ("spec/**", PR), ("xtask/**", PR), ("fuzz/**", PR), ("bench/**", PR),
     ("ci/**", PR), ("docs/**", PR), ("notes/**", PR), ("assets/**", PR), (".github/**", PR), (".cargo/**", PR)]

  const FILES: seq<(string, Class)> :=
    [("Cargo.toml", PR), ("Cargo.lock", PR), ("rust-toolchain.toml", PR), ("rustfmt.toml", PR), ("clippy.toml", PR),
     ("deny.toml", PR), ("LICENSE", PR), ("LICENSE-TRAINING-DATA", PR), (".gitignore", PR), (".gitattributes", PR),
     (".editorconfig", PR)]

  const RULES: seq<(string, Class)> := KEPT + PROSE_PAGES + TREES + FILES

  /** The first rule that matches decides; a path no rule names is FULL. */
  function ClassBy(rules: seq<(string, Class)>, path: string): Class {
    if rules == [] then FULL
    else if Matches(rules[0].0, path) then rules[0].1
    else ClassBy(rules[1..], path)
  }

  function Classify(path: string): Class {
    ClassBy(RULES, path)
  }

  predicate Named(rules: seq<(string, Class)>, path: string) {
    exists r | r in rules :: Matches(r.0, path)
  }

  predicate AllOf(rules: seq<(string, Class)>, c: Class) {
    forall i :: 0 <= i < |rules| ==> rules[i].1 == c
  }

  /** A block of rules of one class decides for the paths it names, and passes the others on. */
  lemma {:induction false} BlockDecides(block: seq<(string, Class)>, c: Class, rest: seq<(string, Class)>, path: string)
    requires AllOf(block, c)
    ensures ClassBy(block + rest, path) == if Named(block, path) then c else ClassBy(rest, path)
  {
    hide Matches;
    if block == [] {
      assert block + rest == rest;
    } else {
      assert (block + rest)[1..] == block[1..] + rest;
      assert block == [block[0]] + block[1..] && block[0] in block;
      BlockDecides(block[1..], c, rest, path);
    }
  }

  /** What is named as prose, in plain strings. */
  ghost predicate IsProsePage(path: string) {
    path == "CHANGELOG.md" || path == "CONTRIBUTING.md"
    || Between("docs/", path, ".md") || Between("docs/release/", path, ".md")
  }

  predicate IsKept(path: string) {
    path == "docs/diagnostics.md" || path == "docs/warnings.md" || "docs/api/" <= path || path == "README.md"
  }

  lemma NamedFour(rules: seq<(string, Class)>, path: string)
    requires |rules| == 4
    ensures Named(rules, path) <==> Matches(rules[0].0, path) || Matches(rules[1].0, path)
                                    || Matches(rules[2].0, path) || Matches(rules[3].0, path)
  {
    hide Matches;
    assert rules[0] in rules && rules[1] in rules && rules[2] in rules && rules[3] in rules;
  }

  lemma SubtreeEnds(glob: string)
    ensures IsSubtree(glob) ==> glob[|glob| - 1] == '*'
  {
    if IsSubtree(glob) {
      assert glob[|glob| - 3..][2] == glob[|glob| - 1];
    }
  }

  lemma LiteralMatches(glob: string, path: string)
    requires Literal(glob)
    ensures Matches(glob, path) <==> path == glob
  {
    SubtreeEnds(glob);
    LiteralFits(glob, path);
  }

  lemma OneStarMatches(a: string, b: string, path: string)
    requires Literal(a) && Literal(b) && b != ""
    ensures Matches(a + "*" + b, path) <==> Between(a, path, b)
  {
    var glob := a + "*" + b;
    SubtreeEnds(glob);
    assert glob[|glob| - 1] == b[|b| - 1];
    OneStarFits(a, b, path);
  }

  lemma KeptMeans(path: string)
    ensures Named(KEPT, path) <==> IsKept(path)
  {
    hide Fits, Matches;
    NamedFour(KEPT, path);
    GeneratedPages(path);
    ApiPages(path);
    LiteralMatches("README.md", path);
  }

  lemma GeneratedPages(path: string)
    ensures Matches("docs/diagnostics.md", path) <==> path == "docs/diagnostics.md"
    ensures Matches("docs/warnings.md", path) <==> path == "docs/warnings.md"
  {
    hide Fits, Matches;
    LiteralMatches("docs/diagnostics.md", path);
    LiteralMatches("docs/warnings.md", path);
  }

  lemma ApiPages(path: string)
    ensures Matches("docs/api/**", path) <==> "docs/api/" <= path
  {
    hide Fits;
    assert "docs/api/**"[8..] == "/**" && "docs/api/**"[..9] == "docs/api/";
  }

  lemma ProseMeans(path: string)
    ensures Named(PROSE_PAGES, path) <==> IsProsePage(path)
  {
    hide Fits, Matches;
    NamedFour(PROSE_PAGES, path);
    TopPages(path);
    DocsPages(path);
  }

  lemma TopPages(path: string)
    ensures Matches("CHANGELOG.md", path) <==> path == "CHANGELOG.md"
    ensures Matches("CONTRIBUTING.md", path) <==> path == "CONTRIBUTING.md"
  {
    hide Fits, Matches;
    LiteralMatches("CHANGELOG.md", path);
    LiteralMatches("CONTRIBUTING.md", path);
  }

  lemma DocsPages(path: string)
    ensures Matches("docs/*.md", path) <==> Between("docs/", path, ".md")
    ensures Matches("docs/release/*.md", path) <==> Between("docs/release/", path, ".md")
  {
    hide Fits, Matches, Between;
    OneStarMatches("docs/", ".md", path);
    assert "docs/*.md" == "docs/" + "*" + ".md";
    OneStarMatches("docs/release/", ".md", path);
    assert "docs/release/*.md" == "docs/release/" + "*" + ".md";
  }

  lemma Blocks(kept: seq<(string, Class)>, prose: seq<(string, Class)>, trees: seq<(string, Class)>,
               files: seq<(string, Class)>, path: string)
    requires AllOf(kept, PR) && AllOf(prose, PROSE) && AllOf(trees, PR) && AllOf(files, PR)
    ensures ClassBy(kept + prose + trees + files, path) == PROSE <==> Named(prose, path) && !Named(kept, path)
    ensures ClassBy(kept + prose + trees + files, path) == FULL <==>
            !Named(kept, path) && !Named(prose, path) && !Named(trees, path) && !Named(files, path)
  {
    hide Matches, Named, AllOf;
    assert kept + prose + trees + files == kept + (prose + (trees + (files + [])));
    BlockDecides(kept, PR, prose + (trees + (files + [])), path);
    BlockDecides(prose, PROSE, trees + (files + []), path);
    BlockDecides(trees, PR, files + [], path);
    BlockDecides(files, PR, [], path);
  }

  lemma RuleClasses()
    ensures AllOf(KEPT, PR) && AllOf(PROSE_PAGES, PROSE)
  {
  }

  lemma TreeClasses()
    ensures AllOf(TREES, PR)
  {
  }

  lemma FileClasses()
    ensures AllOf(FILES, PR)
  {
  }

  /** Prose is narrow: a path is prose exactly when it is one of the prose
      pages and not one a gate or a test reads. */
  lemma ProseIsNarrow(path: string)
    ensures Classify(path) == PROSE <==> IsProsePage(path) && !IsKept(path)
  {
    hide Matches, Named, IsProsePage, IsKept, AllOf, ClassBy;
    RuleClasses();
    TreeClasses();
    FileClasses();
    Blocks(KEPT, PROSE_PAGES, TREES, FILES, path);
    KeptMeans(path);
    ProseMeans(path);
  }

  // ------------------------------------------------- what no rule names --

  /** The directories whose every file is code. */
  const UNDER: seq<string> :=
    ["crates/", "corpus/", "spec/", "xtask/", "fuzz/", "bench/", "ci/", "docs/", "notes/", "assets/", ".github/",
     ".cargo/"]

  const SINGLE: seq<string> :=
    ["Cargo.toml", "Cargo.lock", "rust-toolchain.toml", "rustfmt.toml", "clippy.toml", "deny.toml", "LICENSE",
     "LICENSE-TRAINING-DATA", ".gitignore", ".gitattributes", ".editorconfig"]

  predicate IsCode(path: string) {
    (exists d | d in UNDER :: d <= path) || path in SINGLE
  }

  lemma SubtreeMatches(d: string, path: string)
    requires d != "" && d[|d| - 1] == '/'
    ensures Matches(d + "**", path) <==> d <= path
  {
    hide Fits;
    var glob := d + "**";
    assert glob[|glob| - 3..] == "/**" && glob[..|glob| - 2] == d;
  }

  lemma TreesAreUnder()
    ensures |UNDER| == |TREES| && forall i :: 0 <= i < |TREES| ==> TREES[i].0 == UNDER[i] + "**"
    ensures forall d | d in UNDER :: d != "" && d[|d| - 1] == '/'
  {
  }

  lemma FilesAreSingle()
    ensures |SINGLE| == |FILES| && forall i :: 0 <= i < |FILES| ==> FILES[i].0 == SINGLE[i]
    ensures forall f | f in SINGLE :: Literal(f)
  {
  }

  lemma TreesMean(path: string)
    ensures Named(TREES, path) <==> exists d | d in UNDER :: d <= path
  {
    TreesAreUnder();
    hide Matches, TREES, UNDER;
    forall i | 0 <= i < |TREES| ensures Matches(TREES[i].0, path) <==> UNDER[i] <= path {
      assert UNDER[i] in UNDER;
      SubtreeMatches(UNDER[i], path);
    }
    NamedAt(TREES, path);
    if d :| d in UNDER && d <= path {
      var i :| 0 <= i < |UNDER| && UNDER[i] == d;
      assert Matches(TREES[i].0, path);
    }
  }

  lemma NamedAt(rules: seq<(string, Class)>, path: string)
    ensures Named(rules, path) <==> exists i :: 0 <= i < |rules| && Matches(rules[i].0, path)
  {
    hide Matches;
    if i :| 0 <= i < |rules| && Matches(rules[i].0, path) {
      assert rules[i] in rules;
    }
  }

  lemma FilesMean(path: string)
    ensures Named(FILES, path) <==> path in SINGLE
  {
    FilesAreSingle();
    hide Matches, FILES, SINGLE, Literal;
    forall i | 0 <= i < |FILES| ensures Matches(FILES[i].0, path) <==> path == SINGLE[i] {
      assert SINGLE[i] in SINGLE;
      LiteralMatches(SINGLE[i], path);
    }
    NamedAt(FILES, path);
  }

  /** The path that asks for every job is the one that no rule names: no prose
      page, no page kept from prose, in no listed directory and no listed file. */
  lemma FullIsUnnamed(path: string)
    ensures Classify(path) == FULL <==> !IsProsePage(path) && !IsKept(path) && !IsCode(path)
  {
    hide Matches, Named, IsProsePage, IsKept, AllOf, ClassBy;
    RuleClasses();
    TreeClasses();
    FileClasses();
    Blocks(KEPT, PROSE_PAGES, TREES, FILES, path);
    KeptMeans(path);
    ProseMeans(path);
    TreesMean(path);
    FilesMean(path);
  }
}
