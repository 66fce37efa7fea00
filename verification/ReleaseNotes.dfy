/** The changelog entry that becomes a release's body: `release_notes` of
    xtask/src/main.rs, against changelogs built section by section. */
module ReleaseNotes {
  import opened Wrappers
  import opened Text

  datatype NotesError = NoEntry(version: string) | EmptyEntry(version: string)

  /** The version a tag releases or rehearses: without `v`, up to the first `-`. */
  function VersionOf(tag: string): string {
    var bare := if "v" <= tag then tag[1..] else tag;
    bare[..Find(bare, '-')]
  }

  predicate Fence(line: string) { "```" <= line }
  predicate Heading(line: string) { "## " <= line }

  /** A heading whose first word is the whole version. */
  predicate Heads(line: string, version: string)
    requires Heading(line)
  {
    match StripPrefix(TrimStart(line[3..]), version)
    case None => false
    case Some(rest) => rest == "" || IsSpace(rest[0])
  }

  /** The lines the scan still collects, and whether it ends up in the entry. */
  datatype Found = Found(collecting: bool, body: seq<string>)

  function Scan(lines: seq<string>, version: string, collecting: bool, fenced: bool): Found {
    if lines == [] then Found(collecting, [])
    else
      var line, rest := lines[0], lines[1..];
      var taken := if collecting then [line] else [];
      if Fence(line) then Before(taken, Scan(rest, version, collecting, !fenced))
      else if !fenced && Heading(line) then
        if collecting then Found(true, []) else Scan(rest, version, Heads(line, version), fenced)
      else Before(taken, Scan(rest, version, collecting, fenced))
  }

  function Before(lines: seq<string>, found: Found): Found {
    found.(body := lines + found.body)
  }

  lemma BeforeSteps(a: seq<string>, b: seq<string>, found: Found)
    ensures Before(a, Before(b, found)) == Before(a + b, found) && Before([], found) == found
    ensures Before(a, Found(true, [])) == Found(true, a) && Before(a, Found(false, [])) == Found(false, a)
  {
    Associate(a, b, found.body);
    assert a + [] == a && [] + found.body == found.body;
  }

  function Entry(found: Found): Option<seq<string>> {
    if found.collecting then Some(found.body) else None
  }

  /** What an entry's lines make of the release's body. */
  function Notes(version: string, entry: Option<seq<string>>): Result<string, NotesError> {
    match entry
    case None => Err(NoEntry(version))
    case Some(body) =>
      var text := Trim(Join(body, "\n"));
      if text == "" then Err(EmptyEntry(version)) else Ok(text)
  }

  function NotesOf(changelog: string, tag: string): Result<string, NotesError> {
    Notes(VersionOf(tag), Entry(Scan(Lines(changelog), VersionOf(tag), false, false)))
  }

  method ReleaseNotes(changelog: string, tag: string) returns (r: Result<string, NotesError>)
    ensures r == NotesOf(changelog, tag)
  {
    hide Lines, Fence, Heading, Heads, Before;
    var version := VersionOf(tag);
    var lines := Lines(changelog);
    var body: seq<string> := [];
    var collecting, fenced := false, false;
    var i := 0;
    ghost var all := Scan(lines, version, false, false);
    BeforeSteps([], [], all);
    while i < |lines|
      invariant i <= |lines|
      invariant all == Before(body, Scan(lines[i..], version, collecting, fenced))
    {
      var line := lines[i];
      assert lines[i..][1..] == lines[i + 1..];
      i := i + 1;
      if Fence(line) {
        fenced := !fenced;
      } else if !fenced && Heading(line) {
        if collecting {
          break;
        }
        collecting := Heads(line, version);
        continue;
      }
      BeforeSteps(body, if collecting then [line] else [], Scan(lines[i..], version, collecting, fenced));
      if collecting {
        body := body + [line];
      } else {
        assert body + [] == body;
      }
    }
    BeforeSteps(body, [], all);
    r := Notes(version, Entry(Found(collecting, body)));
  }

  // ---------------------------------------------- a changelog, as written --

  /** `rest` is what follows the version in the heading: nothing, or a date after a space. */
  datatype Section = Section(version: string, rest: string, body: seq<string>)

  /** One word: what a heading's version must be to be matched whole. */
  predicate Word(s: string) {
    s != "" && forall c | c in s :: !IsSpace(c)
  }

  function HeadingOf(s: Section): string {
    "## " + s.version + s.rest
  }

  /** No heading outside a fence, and every fence closed. */
  predicate Closed(body: seq<string>, fenced: bool) {
    if body == [] then !fenced
    else if Fence(body[0]) then Closed(body[1..], !fenced)
    else (fenced || !Heading(body[0])) && Closed(body[1..], fenced)
  }

  predicate Curated(s: Section) {
    Word(s.version) && (s.rest == "" || IsSpace(s.rest[0])) && Closed(s.body, false)
  }

  function SectionLines(sections: seq<Section>): seq<string> {
    if sections == [] then []
    else [HeadingOf(sections[0])] + sections[0].body + SectionLines(sections[1..])
  }

  function FirstBody(sections: seq<Section>, version: string): Option<seq<string>> {
    if sections == [] then None
    else if sections[0].version == version then Some(sections[0].body)
    else FirstBody(sections[1..], version)
  }

  // --------------------------------------------------------- the proofs --

  /** A heading names one version: not one it is a prefix of, nor one it extends. */
  lemma HeadsIsWhole(s: Section, version: string)
    requires Curated(s) && Word(version)
    ensures Heading(HeadingOf(s)) && !Fence(HeadingOf(s))
    ensures Heads(HeadingOf(s), version) <==> s.version == version
  {
    var line := HeadingOf(s);
    var text := s.version + s.rest;
    assert line[0] == '#' && line[3..] == text;
    assert s.version[0] in s.version;
    assert TrimStart(text) == text;
    hide TrimStart, Word;
    FirstWord(s.version, s.rest, version);
  }

  lemma FirstWord(word: string, rest: string, version: string)
    requires Word(word) && Word(version) && (rest == "" || IsSpace(rest[0]))
    ensures version <= word + rest && (|version| == |word + rest| || IsSpace((word + rest)[|version|]))
            <==> word == version
  {
    var text := word + rest;
    assert text[..|word|] == word && text[|word|..] == rest;
    assert forall i :: 0 <= i < |word| ==> word[i] in word && text[i] == word[i];
    assert forall i :: 0 <= i < |version| ==> version[i] in version;
    assert |word| < |text| ==> IsSpace(text[|word|]);
    assert version <= text ==> forall i :: 0 <= i < |version| ==> version[i] == text[i];
  }

  /** A closed body is skipped whole, or collected whole. */
  lemma {:induction false} ScanBody(body: seq<string>, rest: seq<string>, version: string,
                                    collecting: bool, fenced: bool)
    requires Closed(body, fenced)
    ensures Scan(body + rest, version, collecting, fenced)
         == Before(if collecting then body else [], Scan(rest, version, collecting, false))
  {
    hide Fence, Heading, Heads, Before;
    var after := Scan(rest, version, collecting, false);
    if body == [] {
      assert body + rest == rest;
      BeforeSteps([], [], after);
    } else {
      assert (body + rest)[1..] == body[1..] + rest && body == [body[0]] + body[1..];
      ScanBody(body[1..], rest, version, collecting, if Fence(body[0]) then !fenced else fenced);
      BeforeSteps([body[0]], body[1..], after);
      BeforeSteps([], [], after);
    }
  }

  lemma ScanSection(s: Section, rest: seq<string>, version: string)
    requires Curated(s) && Word(version)
    ensures Scan([HeadingOf(s)] + s.body + rest, version, false, false)
         == Before(if s.version == version then s.body else [],
                   Scan(rest, version, s.version == version, false))
  {
    hide Fence, Heading, Heads, HeadingOf, Word, Before;
    HeadsIsWhole(s, version);
    var lines := [HeadingOf(s)] + s.body + rest;
    assert lines[0] == HeadingOf(s) && lines[1..] == s.body + rest;
    ScanBody(s.body, rest, version, s.version == version, false);
  }

  lemma {:induction false} ScanSections(sections: seq<Section>, version: string)
    requires (forall s | s in sections :: Curated(s)) && Word(version)
    ensures Entry(Scan(SectionLines(sections), version, false, false)) == FirstBody(sections, version)
  {
    hide HeadingOf, Word, Curated, Scan, Before;
    if sections == [] {
      NothingFound(version);
    } else {
      var s, rest := sections[0], SectionLines(sections[1..]);
      ScanSection(s, rest, version);
      if s.version == version {
        ScanStops(sections[1..], version);
        BeforeSteps(s.body, [], Found(true, []));
      } else {
        ScanSections(sections[1..], version);
        BeforeSteps([], [], Scan(rest, version, false, false));
      }
    }
  }

  lemma NothingFound(version: string)
    ensures Scan([], version, false, false) == Found(false, [])
  {
  }

  /** The next heading, or the end of the file, ends the entry. */
  lemma ScanStops(sections: seq<Section>, version: string)
    requires (forall s | s in sections :: Curated(s)) && Word(version)
    ensures Scan(SectionLines(sections), version, true, false) == Found(true, [])
  {
    if sections != [] {
      HeadsIsWhole(sections[0], version);
    }
  }

  /** The version, tagged and with any pre-release suffix. */
  lemma VersionOfTag(version: string, suffix: string)
    requires '-' !in version && (suffix == "" || suffix[0] == '-')
    ensures VersionOf("v" + version + suffix) == version
  {
    var bare := version + suffix;
    assert ("v" + version + suffix)[1..] == bare;
    assert forall i :: 0 <= i < |version| ==> bare[i] == version[i];
    FindIs(bare, '-', |version|);
    assert bare[..|version|] == version;
  }

  /** Whatever fenced headings and near-miss versions the changelog holds: a
      release's notes are its first section's body, trimmed, or an error when
      there is none or it is empty; a pre-release gets the same notes. */
  lemma NotesOfRenderedChangelog(preamble: seq<string>, sections: seq<Section>, version: string, suffix: string)
    requires Closed(preamble, false) && forall s | s in sections :: Curated(s)
    requires forall l | l in preamble + SectionLines(sections) :: IsLine(l)
    requires Word(version) && '-' !in version && (suffix == "" || suffix[0] == '-')
    ensures NotesOf(Unlines(preamble + SectionLines(sections)), "v" + version + suffix)
         == Notes(version, FirstBody(sections, version))
  {
    hide VersionOf, Lines, Curated, Closed, Word, Notes, Scan, Before;
    var lines := preamble + SectionLines(sections);
    VersionOfTag(version, suffix);
    LinesOfUnlines(lines, "");
    assert Unlines(lines) + "" == Unlines(lines);
    assert Lines("") == [] by { NoLines(); }
    assert lines + [] == lines;
    ScanBody(preamble, SectionLines(sections), version, false, false);
    BeforeSteps([], [], Scan(SectionLines(sections), version, false, false));
    ScanSections(sections, version);
  }

  lemma NoLines()
    ensures Lines("") == []
  {
  }
}
