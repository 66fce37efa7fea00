# wolf-lang: decision tools and benchmark kernels, verified

A Dafny model of the logic around the wolf compiler: the `xtask` tools that
decide what a measurement, a corpus header, a changelog or a pair of
observation records means, the CI planner in `ci/tiers.py`, and the benchmark
kernels whose lanes must compute the same number. `dafny verify dfyconfig.toml`
checks everything.

Each module models one component.

- `Calendar`, `IsoStamp`: the Gregorian day arithmetic and the minute stamps of
  the nightly ritual, over all integers and again in 64 bits.
- `TickRule`, `TickLedger`: the count of consecutive nightly holds, as the
  comments state it and as the code computes it, over every run of the ledger.
- `SpecAnchors`: the anchor scanner, the link checker and the anchor index.
- `RunCheck`, `Directives`: the corpus header language, `run(..)` values first.
- `Protocol`, `Differ`: observation records, their comparison, one pass of the
  differential and the control diff of two passes.
- `ReleaseNotes`: cutting one release's notes out of the changelog.
- `Stats`, `Gate`, `Ratchet`: the robust statistics, the M2 gate live and from
  its stored report (`StoredGate`), and the IR-volume ratchet with its record.
- `PathRules`, `Tiers`: the path classes, the planner and the verdict on a run.
- `ListAlloc`, `Utf8`, `MaskedLoops`, `HoistedLoad`: the kernels.
- `Text`, `Sorting`, `Reals`, `Wrappers`: the library operations they share.

Loops of the source are methods with invariants, tied to a specification
function; what the source promises is proved of that function. Files, clocks,
processes and the git repository are inputs.

Four places where the code and its text part, or where a property holds only on
a condition:

- The ledger's comment counts a hold twelve hours after the last COUNTED hold;
  the code compares with the last entry, which may be an uncounted re-render. The
  code's count is at most the rule's, and equal exactly when no such hold was
  missed (`TickRule.CountAgainstRule`, `TickRule.CountCanFallShort`).
- A stamp reads back only while its year prints in four characters
  (`IsoStamp.IsoRoundTrip`).
- A printed `run(..)` reads back only when each comma of its output follows an
  even number of quotes in it (`RunCheck.RunRoundTrip`).
- Agreement of records passes through a record exactly when it carries its
  warnings, its digest if it trapped, and its row if it is `ub`
  (`Protocol.TransitiveIffComplete`); a missing field agrees with any.

## Model

| member | source | states |
|---|---|---|
| `Calendar.DaysOfCivil` | xtask/src/ritual.rs:479-499 | for every integer day, `civil_from_days` gives a valid Gregorian date and `days_from_civil` of it is that day |
| `Calendar.CivilOfDays` | xtask/src/ritual.rs:479-499 | the other round trip, for every valid date |
| `Calendar.NextDayIsOneLater` | xtask/src/ritual.rs:479-486 | the next calendar day, under the 4/100/400 leap rule, is exactly one day number later |
| `Calendar.NextDayUndoesPrevious` | xtask/src/ritual.rs:479-499 | the day-by-day calendar the conversions are measured against: next and previous day undo each other and keep dates valid |
| `Calendar.CountingIsUnique` | xtask/src/ritual.rs:488-499 | only one map of day numbers to dates starts at 1970-01-01 and turns a page a day, both ways, for every day |
| `Calendar.CivilIsCounted` | xtask/src/ritual.rs:488-499 | `civil_from_days` is that map: the date got by counting day by day from 1970-01-01, for every integer |
| `Calendar.EpochIsDayZero` | xtask/src/ritual.rs:488-499 | day 0 is 1970-01-01 |
| `Calendar.YearBegins` | xtask/src/ritual.rs:479-499 | a day falls in a year or later exactly from that year's 1 January on |
| `Calendar.YearOfEraBounds` | xtask/src/ritual.rs:488-499 | the era arithmetic finds a year whose days hold the given day of the 400-year era |
| `Calendar.YearOfEraUnique` | xtask/src/ritual.rs:488-499 | no other year of the era does |
| `IsoStamp.IsoRoundTrip` | xtask/src/ritual.rs:456-477 | for every integer time, printing and reading back gives the minute, `secs - secs % 60`, exactly when the year prints in four characters (-999 to 9999); past that the stamp is refused |
| `IsoStamp.IsoReadsBack` | xtask/src/ritual.rs:456-477 | the same in seconds: a stamp reads back exactly from -93692592000, the first of year -999, to 253402300799, the last of year 9999 |
| `IsoStamp.ParseStamp` | xtask/src/ritual.rs:467-477 | any date, hour and minute in the fixed columns reads back as its epoch minute, from a stamp of seventeen characters that ends in Z |
| `IsoStamp.PrintStamp` | xtask/src/ritual.rs:456-465 | the minute of a valid date prints as that date, hour and minute |
| `IsoStamp.CivilFromDays64` | xtask/src/ritual.rs:488-499 | the 64-bit conversion is the unbounded one and overflows nowhere, for every day an i64 of seconds can hold |
| `IsoStamp.EpochToIso64` | xtask/src/ritual.rs:456-465 | the 64-bit printer is the unbounded one on every i64 |
| `IsoStamp.DaysFromCivil64` | xtask/src/ritual.rs:479-486 | the 64-bit day count is the unbounded one wherever none of its own sums and products overflows |
| `IsoStamp.FieldsFit` | xtask/src/ritual.rs:467-486 | the fields that the fixed columns can carry overflow none of them |
| `IsoStamp.IsoToEpoch64` | xtask/src/ritual.rs:467-477 | the 64-bit reader returns the unbounded reading of every string, or none where that is none: no sum it takes overflows |
| `TickRule.CountedIsSeparated` | xtask/src/ritual.rs:28-34 | the commented rule counts holds of one unbroken run, pairwise at least twelve hours apart |
| `TickRule.CountedIsLargest` | xtask/src/ritual.rs:28-34 | no other choice of separated holds is larger, so the rule is the most nights a run can claim |
| `TickRule.CountAgainstRule` | xtask/src/ritual.rs:252-287 | over every chronological run of appends the recorded count is at most the commented rule's, and equal exactly when no hold of the unbroken run was missed for following an uncounted re-render |
| `TickRule.CountIsEarned` | xtask/src/ritual.rs:252-287 | a recorded count `k` rests on `k` holds of the unbroken run, pairwise at least twelve hours apart |
| `TickRule.CountCanFallShort` | xtask/src/ritual.rs:276-286 | three holds eleven hours apart: the rule counts two, the code one |
| `TickLedger.LastEntryIsLastTick` | xtask/src/ritual.rs:289-294 | the entry read back past comments and blank lines is the last one appended |
| `TickLedger.EntryIsTick` | xtask/src/ritual.rs:223-287 | the row written carries the count of the tick rule on its own stamp and verdict |
| `TickLedger.NotedIffUncounted` | xtask/src/ritual.rs:256-287 | exactly a hold that leaves the last row's count as it was is noted as a re-render |
| `TickLedger.ClockOrder` | xtask/src/ritual.rs:445-477 | a later clock never prints an earlier-reading stamp; once a stamp is too wide to read, so is every later one |
| `TickLedger.StampedIsChronological` | xtask/src/ritual.rs:445-477 | rows stamped by a clock that never goes back are chronological |
| `TickLedger.ShortfallOnTheClock` | xtask/src/ritual.rs:276-286 | the shortfall happens on real stamps: 0, 11 and 22 hours after the epoch |
| `TickLedger.Ledger.constructor` | xtask/src/ritual.rs:296-304 | an empty ledger is a valid one |
| `TickLedger.Ledger.Append` | xtask/src/ritual.rs:221-304 | every append keeps the ledger's invariant, adds one row with its stamp, commit, mean and joined note and changes none, and its count is earned by separated holds and never above the rule |
| `TickLedger.Ledger.Comment` | xtask/src/ritual.rs:289-294 | header and blank lines change nothing that is counted |
| `SpecAnchors.AnchorsIn` | xtask/src/spec.rs:234-258 | the cursor scan returns the names of `Hits`, in order: one per `[` that opens an anchor |
| `SpecAnchors.AnchorAtIsBracketed` | xtask/src/spec.rs:241-246 | a `[` opens the anchor `a` exactly when `[a]` is written there with `a` dotted and of the allowed characters |
| `SpecAnchors.HitsAreOccurrences` | xtask/src/spec.rs:225-258 | the hits are exactly the occurrences of dotted `[a]`, by position: a bare `[` never swallows a later anchor |
| `SpecAnchors.HitsInOrder` | xtask/src/spec.rs:234-258 | the hits come in the order of their positions, each position once |
| `SpecAnchors.HitsAreComplete` | xtask/src/spec.rs:225-258 | no anchor from the scan position on is missed |
| `SpecAnchors.AnchorsAreOccurrences` | xtask/src/spec.rs:225-258 | `a` is returned exactly when `a` is dotted and `[a]` occurs in the document |
| `SpecAnchors.LinkCheck` | xtask/src/spec.rs:197-223 | the sorted, deduplicated errors are exactly the complaints over every document and cited anchor |
| `SpecAnchors.OwnerOfMeans` | xtask/src/spec.rs:289-320 | an anchor belongs to a document exactly when the registry gives the document the anchor, or what stands before its first dot, as a namespace |
| `SpecAnchors.ComplaintMeans` | xtask/src/spec.rs:203-219 | which complaint a citation draws, word for word: "cites missing document" when no document has the owner's name, "dangling" when the first that has it does not hold the bracketed anchor, none when it does |
| `SpecAnchors.AnchorIndex` | xtask/src/spec.rs:262-273 | the index holds exactly the anchors written in their owning documents, under the owner's name |
| `SpecAnchors.ComplaintAgainstIndex` | xtask/src/spec.rs:197-273 | with distinct document names, a cited anchor draws no complaint exactly when its namespace is unregistered or its owner is present and the index has it |
| `SpecAnchors.CleanIffIndexed` | xtask/src/spec.rs:197-273 | with distinct document names, the link check is empty exactly when every cited anchor of a registered namespace is in the index |
| `SpecAnchors.PassesDisagreeIff` | xtask/src/spec.rs:197-273 | on any documents, what the link check accepts the index has; it refuses what the index has exactly when the first document of the owner's name lacks the anchor and a later one has it |
| `SpecAnchors.DuplicateNamesDisagree` | xtask/src/spec.rs:207-213 | for every anchor of a registered namespace there are two documents of one name on which they do disagree |
| `ListAlloc.TotalClosedForm` | bench/kernels/list_alloc/ref.c:13-30 | the total of the elements in closed form |
| `ListAlloc.WalkSlots` | bench/kernels/list_alloc/ref.c:21-26 | the index-linked walk reads only live nodes, visits each once, last first, and sums them modulo 2^20 |
| `ListAlloc.BuildWalkHeap` | bench/kernels/list_alloc/ref.c:13-30 | a node per element: the same total for every count, every block allocated is freed exactly once, nothing is read after free, and no other block is touched |
| `ListAlloc.BuildWalkArena` | bench/kernels/list_alloc/expert.c:12-25 | the arena program returns the same total, for every count, from one allocation freed once |
| `ListAlloc.BuildWalkVec` | bench/kernels/list_alloc/ref.rs:14-30 | the growing vector returns the same total, for negative sizes too; it holds no block to free |
| `Utf8.ValidateC` | bench/kernels/d1_utf8_validate/ref.c:15-37 | the C loop is the state machine `Run` on the first `len` bytes |
| `Utf8.ValidateRust` | bench/kernels/d1_utf8_validate/ref.rs:13-40 | the Rust loop is the same state machine |
| `Utf8.GroupsAreAccepted` | bench/kernels/d1_utf8_validate/ref.c:15-37 | any sequence of lead and continuation groups is accepted, and counted |
| `Utf8.AcceptedIsGroups` | bench/kernels/d1_utf8_validate/ref.c:15-37 | any accepted buffer splits into such groups, as many as the result |
| `Utf8.GroupsAreUnique` | bench/kernels/d1_utf8_validate/ref.c:15-37 | it splits in one way only |
| `Utf8.AcceptedIffGroups` | bench/kernels/d1_utf8_validate/ref.c:15-37 | the result is `r >= 0` exactly when the buffer splits into `r` groups |
| `Utf8.RunAdds` | bench/kernels/d1_utf8_validate/ref.c:15-37 | behind an accepted buffer the counts add, and a refusal of the rest refuses the whole |
| `Utf8.RepeatedChunk` | bench/kernels/d1_utf8_validate/ref.c:10-37 | an accepted chunk repeated `n` times counts `n` times its count, as the benchmark repeats it |
| `Utf8.EncodeIsStrict` | bench/kernels/d1_utf8_validate/ref.c:15-37 | the encoding of every Unicode scalar value (section 3 of RFC 3629) is one accepted group and decodes back |
| `Utf8.DecodeIsScalar` | bench/kernels/d1_utf8_validate/ref.c:15-37 | every accepted group that is neither overlong, a surrogate nor past U+10FFFF (section 4 of RFC 3629) encodes a scalar value |
| `Utf8.EncodedIsAccepted` | bench/kernels/d1_utf8_validate/ref.c:15-37 | the encoding of every sequence of scalar values is accepted with its length as the count |
| `Utf8.AcceptedAndStrict` | bench/kernels/d1_utf8_validate/ref.c:15-37 | an accepted buffer is UTF-8 exactly when every group is strict |
| `Utf8.AcceptsOverlong` | bench/kernels/d1_utf8_validate/ref.c:29-30 | the scan is structural: it accepts the overlong E0 80 80, which encodes nothing |
| `MaskedLoops.Walk` | bench/kernels/e3_index_arith/ref.c:10-15 | masking at every step and every depth equals `4n(n-1)(depth+1) mod 2^20`, with no int64 overflow for `n` up to 2^60 - 2^17 + 362 |
| `MaskedLoops.StepsFit` | bench/kernels/e3_index_arith/ref.c:12-12 | that bound is exact: every earlier step fits an int64 and the next one does not |
| `MaskedLoops.Checksum` | bench/kernels/e2_checksum/ref.c:9-13 | the masked hash equals the whole polynomial reduced once; from a masked seed every intermediate stays below 2^25 |
| `MaskedLoops.ReduceEarly` | bench/kernels/e2_checksum/ref.c:9-13 | reducing before a step of either kernel does not change what the step leaves |
| `MaskedLoops.ChecksumStep` | bench/kernels/e2_checksum/ref.c:9-13 | one more round of the loop is one more term of the polynomial `31^n seed + sum of 31^(n-1-i) (i mod 256)` |
| `HoistedLoad.Bump` | bench/kernels/a5_hoist_call/ref.c:63-66 | stores and returns the masked sum, and touches one cell |
| `HoistedLoad.ProbeReloading` | bench/kernels/a5_hoist_call/ref.c:68-77 | the reloading loop, aliased or not: accumulator and scratch as `Reloading` says, the rest of scratch untouched |
| `HoistedLoad.ProbeHoisted` | bench/kernels/a5_hoist_call/expert.c:30-39 | the hoisted loop on distinct buffers: as `Hoisted` says |
| `HoistedLoad.HoistingIsSound` | bench/kernels/a5_hoist_call/ref.c:68-77 | on distinct buffers both loops give the same accumulator and scratch, for every `n`; the accumulator is in [0, 2^20) |
| `HoistedLoad.HoistedClosedForm` | bench/kernels/a5_hoist_call/expert.c:30-39 | the accumulator and the scratch cell in closed form |
| `HoistedLoad.SmallLoadsFit` | bench/kernels/a5_hoist_call/ref.c:63-77 | for loads and counts of 62 bits no sum of either loop overflows |
| `HoistedLoad.AliasedClosedForm` | bench/kernels/a5_hoist_call/ref.c:68-77 | what the reloading loop computes on one shared buffer, in closed form |
| `HoistedLoad.AliasedAgreesIff` | bench/kernels/a5_hoist_call/ref.c:68-77 | on one shared buffer the two loops agree exactly when `2 sum of sides - last side + s - 2ns` is 0 modulo 2^20 |
| `HoistedLoad.AliasingIsSeen` | bench/kernels/a5_hoist_call/ref.c:68-77 | on one shared buffer two iterations already tell the programs apart: disjointness is needed |
| `Stats.MedianMinimises` | xtask/src/stats.rs:5-17 | the sort-based median minimises the sum of absolute deviations over all centres |
| `Stats.MedianIsMiddle` | xtask/src/stats.rs:5-17 | in any ordered arrangement of the sample the median is the middle one, or half way between the middle two |
| `Stats.MadIsMedian` | xtask/src/stats.rs:21-25 | the spread is the median of the distances from the median |
| `Stats.MedianIsRobust` | xtask/src/stats.rs:5-17 | with strictly fewer than half the samples replaced arbitrarily, the median stays within the range of the others |
| `Stats.HalfIsTooMany` | xtask/src/stats.rs:5-17 | the bound is tight at every size: half of any sample replaced, rounded up, moves the median past any bound |
| `Stats.MedianOfPermutation` | xtask/src/stats.rs:5-17 | the median depends on the multiset only |
| `Stats.MadOfPermutation` | xtask/src/stats.rs:21-25 | so does the median absolute deviation |
| `Stats.CompareOfPermutations` | xtask/src/stats.rs:38-51 | so does the comparison, in either sample |
| `Stats.SignificantMeans` | xtask/src/stats.rs:36-51 | a change is significant exactly when the medians move by more than three times either spread and by more than 2%; its size is in per cent of the baseline median, or infinite with the sign of the move exactly when that is zero |
| `Stats.CompareWithItself` | xtask/src/stats.rs:38-51 | a sample compared with a reordering of itself is Unchanged |
| `Stats.MedianOfScale` | xtask/src/stats.rs:5-17 | the median scales with the unit |
| `Stats.MadOfScale` | xtask/src/stats.rs:21-25 | the deviation scales with the unit |
| `Stats.CompareOfScale` | xtask/src/stats.rs:38-51 | the verdict, percentage included, does not depend on the unit of measure |
| `RunCheck.UnescapeStdout` | xtask/src/corpus.rs:347-369 | the character loop decodes as `Unescaped` does, every string |
| `RunCheck.UnescapeOfEscape` | xtask/src/corpus.rs:342-369 | decoding undoes the escape printer on every string |
| `RunCheck.EscapesMean` | xtask/src/corpus.rs:347-369 | five escapes stand for their characters; any other backslash stays with what follows it, and so does a last one |
| `RunCheck.SplitArgs` | xtask/src/corpus.rs:372-388 | the quote-toggling loop cuts at exactly the commas outside quotes |
| `RunCheck.HeldIsCounted` | xtask/src/corpus.rs:371-388 | a value's commas are held together exactly when each stands after an even number of quotes in it |
| `RunCheck.PiecesOfEscaped` | xtask/src/corpus.rs:371-388 | a printed value comes through the splitter whole exactly when its commas are held, and in more pieces otherwise |
| `RunCheck.CutPieceIsRefused` | xtask/src/corpus.rs:303-340 | the last piece of a cut value is always refused as an argument |
| `RunCheck.ParseRun` | xtask/src/corpus.rs:303-340 | the argument loop, on every text: the first piece that is no argument refuses them with its error; else the last exit and the last stdout stand, and a missing exit is the error |
| `RunCheck.ArgumentsMean` | xtask/src/corpus.rs:303-340 | the same of any pieces behind any earlier settings |
| `RunCheck.ParseArgumentMeans` | xtask/src/corpus.rs:308-336 | a piece is read as an exit, a stdout or nothing exactly when, trimmed, it spells that |
| `RunCheck.ParseExitMeans` | xtask/src/corpus.rs:308-327 | a text is read as an exit expectation exactly when it spells it; no other trap kind and no wider integer is |
| `RunCheck.ParseCheckMeans` | xtask/src/corpus.rs:284-301 | a `check:` value is read as a check exactly when it is `pass`, `fail(..)` round a code, or `run(..)` round arguments that read so |
| `RunCheck.ExitRoundTrip` | xtask/src/corpus.rs:308-327 | every exit form prints and reads back as itself, and prints nothing that splits or trims |
| `RunCheck.RunRoundTrip` | xtask/src/corpus.rs:284-388 | a printed `run(..)` reads back as itself exactly when its trap kind is known and its commas are held; with commas not held it is refused |
| `RunCheck.FailRoundTrip` | xtask/src/corpus.rs:288-294 | a printed `fail(..)` reads back exactly when its code is non-empty and trimmed |
| `RunCheck.ParsedIsKnown` | xtask/src/corpus.rs:303-340 | whatever parses names a trap kind of the closed set |
| `Directives.ParseDirectives` | xtask/src/corpus.rs:182-282 | the header loop, on every source text: accepted exactly when no single-valued key is repeated, no value is bad and no `member: true` stands beside `check:` or `phase:`; then every field is what the lines of its key say, in order; and an error blames the first line at fault, by number and by what is wrong with it |
| `Directives.ParsedMeans` | xtask/src/corpus.rs:182-282 | the same of the parse as a function of the source text |
| `Directives.MemberIsSaid` | xtask/src/corpus.rs:260-268 | an accepted file is marked a member exactly when a line of its block says `member:` true, and marked as none exactly when one says false |
| `Directives.ItemsOfList` | xtask/src/corpus.rs:215-237 | a comma list is read back as its items, trimmed and in order |
| `Directives.BlockEnds` | xtask/src/corpus.rs:188-197 | nothing after the first line outside the `//!` block changes the result |
| `Directives.WarnsAccumulate` | xtask/src/corpus.rs:223-237 | sorting and deduplicating at every `warns:` line equals doing it once over all the codes |
| `Directives.WarnsAreListed` | xtask/src/corpus.rs:223-237 | `warns` is the strictly sorted list of exactly the codes listed |
| `Directives.HeaderRoundTrip` | xtask/src/corpus.rs:182-204 | any check whose value reads back is read from a header line, with whatever source below it |
| `Directives.RunHeaderRoundTrip` | xtask/src/corpus.rs:182-388 | so every run expectation with held commas survives a whole source file |
| `Protocol.VerdictRoundTrip` | xtask/src/protocol.rs:20-46 | a printed verdict reads back as itself exactly when it is spellable: an exit status in range, a trap kind of the closed set |
| `Protocol.ParseVerdictMeans` | xtask/src/protocol.rs:20-46 | a text is read as a verdict exactly when it spells it, an exit status in any spelling of an i64 |
| `Protocol.ValidMeans` | xtask/src/protocol.rs:50-141 | validation accepts exactly the well-formed records, with the verdict they spell: header texts, coded spans, a file index for all diagnostics or for none, and a `trap_message` on traps only |
| `Protocol.MatchesMeans` | xtask/src/corpus.rs:93-104 | an exit expectation is met by a printed verdict exactly when the verdict is of that class |
| `Protocol.CompareIsReflexive` | xtask/src/protocol.rs:168-315 | a record never diverges from itself |
| `Protocol.CompareIsSymmetric` | xtask/src/protocol.rs:168-315 | the divergence class does not depend on which side is which |
| `Protocol.ClassMeans` | xtask/src/protocol.rs:168-315 | which pairs of valid records get the soundness, verdict, output and width classes, exactly; a width drift is one code in one file from one byte on with another span |
| `Protocol.SameVerdictCompared` | xtask/src/protocol.rs:168-315 | the class of any two valid records of one verdict in plain values: `SpanWidth` exactly when the first diagnostics share code, path and start and differ in the end, `Diag` when they differ in any other way or only one record has one, then the digests, then the warnings as a multiset |
| `Protocol.AgreeIffSameAnswer` | xtask/src/protocol.rs:168-315 | records that carry every field their verdict is asked for agree exactly when they give the same answer |
| `Protocol.AgreeMeans` | xtask/src/protocol.rs:168-315 | two records that answer agree exactly when nothing both carry, and their verdict is compared on, tells them apart |
| `Protocol.AgreeIsTransitive` | xtask/src/protocol.rs:168-315 | agreement passes through a record that carries what its verdict is compared on, whatever its neighbours leave out |
| `Protocol.TransitiveIffComplete` | xtask/src/protocol.rs:168-315 | and through no other: a record passes agreement on between any two that answer exactly when it carries its warnings, a trap's digest unless the comparison is structural, and a `ub` row |
| `Protocol.TransitiveAmongAll` | xtask/src/protocol.rs:168-315 | among all valid records, refusals and clean stops included, exactly a rejection with warnings passes agreement on |
| `Protocol.MissingDigestBreaksTransitivity` | xtask/src/protocol.rs:276-288 | three valid traps, the middle one without a digest, agree pairwise at both steps and not end to end |
| `Protocol.NoDigestIsNotTransitive` | xtask/src/protocol.rs:276-288 | three concrete records that do so |
| `Protocol.CoveredAgreeOnVerdict` | xtask/src/protocol.rs:345-356 | two lanes that both ran the program and do not diverge gave the same dynamic verdict |
| `Protocol.CoveredMeans` | xtask/src/protocol.rs:345-356 | a lane ran the program exactly when it reached `run` and its verdict spells an exit, a trap or a `ub` |
| `Protocol.KeyTextIsInjective` | xtask/src/protocol.rs:294-305 | two warnings share a `code@span` key only if they are the same |
| `Protocol.WarningsAgreeIffSameBag` | xtask/src/protocol.rs:293-312 | the sorted warning keys are equal exactly when the warnings are the same multiset |
| `ReleaseNotes.ReleaseNotes` | xtask/src/main.rs:4960-5000 | the flag-driven loop returns what `NotesOf` reads, for every changelog and tag |
| `ReleaseNotes.HeadsIsWhole` | xtask/src/main.rs:4977-4982 | a heading matches a version as a whole word only |
| `ReleaseNotes.ScanBody` | xtask/src/main.rs:4970-4987 | a body with closed fences is carried through line by line: a fenced `## ` never ends it |
| `ReleaseNotes.ScanSections` | xtask/src/main.rs:4970-4987 | the scan of any rendered sections finds the first section of the version |
| `ReleaseNotes.VersionOfTag` | xtask/src/main.rs:4965-4966 | a pre-release suffix selects the same version |
| `ReleaseNotes.NotesOfRenderedChangelog` | xtask/src/main.rs:4960-5000 | for every changelog of curated sections behind a preamble, the notes of `v<version>` are the trimmed body of its first section, or the error when it is absent or empty |
| `Differ.DifferPass` | xtask/src/main.rs:4588-4718 | after any pass every counter is the number of files whose two records earn it, by their verdicts: soundness findings are A exiting or passing against B trapping or hitting `ub`, and so on for all nine; the ledger holds a row for every entry and no other file, and its counts are the counts of its rows exactly when no two entries share a path |
| `Differ.Entry` | xtask/src/main.rs:4609-4715 | one entry adds one row and B's answer, adds one to exactly the counters it earns, and keeps every count equal to the rows that carry its class |
| `Differ.RowMeans` | xtask/src/main.rs:4609-4715 | a row lists, once each and in order, exactly the classes its two verdicts earn: under triage a rejection is agreement when B is the very trap it foresees and a completeness note otherwise, an acceptance against a fault is a soundness finding; every other pair is filed by the plain comparison |
| `Differ.StaticTrapIsTabled` | xtask/src/main.rs:4387-4412 | the eleven codes that foresee a trap and the trap of each; no other code foresees one |
| `Differ.NoDivergence` | xtask/src/main.rs:4601-4715 | no divergence is counted exactly when every file that is not a member ran on both sides and no class of its row is a fault |
| `Differ.ControlDiff` | xtask/src/main.rs:4449-4492 | `moved` and `below` list, in file order and once each, exactly the class moves and the moves of B's answer no class shows |
| `Differ.MovesTell` | xtask/src/main.rs:4449-4492 | a move shows the control first and the measured pass second: both rows, a missing one and an empty one by their words, or B's two verdicts, or under one verdict the two digests cut at eight |
| `Differ.ClassMovedIsTextual` | xtask/src/main.rs:4453-4465 | comparing rows of classes is comparing the rows of class names that the source keeps |
| `Differ.NoMoveNoChange` | xtask/src/main.rs:4445-4492 | with no class move between two passes their ledgers and all published counts are equal |
| `Differ.ListsPartitionMoves` | xtask/src/main.rs:4445-4492 | a file is in `moved` exactly when its class changed, and in `below` exactly when B's verdict or digest changed under an unchanged class |
| `Ratchet.IrVolumeRatchet` | xtask/src/t1.rs:274-299 | every measured path is reported under its one fate and no other, in path order, once each, and exactly the recorded paths not measured are named |
| `Ratchet.FateMeans` | xtask/src/t1.rs:274-299 | the fates by the counts: regressed exactly above the recorded ratio and its slack, improved exactly below it, new exactly without a record |
| `Ratchet.WriteTable` | xtask/src/bench_t1.rs:209-234 | the recorded table is every rated path with its counts and its ratio at three decimals, and no other |
| `Ratchet.RecordingIsAFixpoint` | xtask/src/bench_t1.rs:204-234 | re-running on the measurements just recorded finds nothing new or unmeasured, and every ratio whose rounding its slack covers silent |
| `Ratchet.CoveredIsSilent` | xtask/src/t1.rs:284-290 | a covered ratio lies within its own record's slack |
| `Ratchet.LargeRatioIsCovered` | xtask/src/bench_t1.rs:225-225 | every ratio of at least `0.0005 (1 + slack) / slack` is covered |
| `Ratchet.UncoveredRegresses` | xtask/src/t1.rs:284-286 | the cover is needed: under every uncovered count of thousandths some measurement regresses against its own record |
| `Gate.ScoreOfRatio` | xtask/src/t1.rs:183-200 | scoring the stored ratio gives the verdict of the two medians, percentage included |
| `Gate.LossIsTheOthersWin` | xtask/src/t1.rs:183-200 | a loss seen from the other lane is a win by the same percentage; a win is a loss by as much, or inside the band |
| `Gate.TieMeans` | xtask/src/t1.rs:183-190 | a tie is two medians within 2% of wolf's, or within the kernel's own noise floor |
| `Gate.LossBeyondTen` | xtask/src/t1.rs:167-200 | a loss of more than 10% is a speedup from 0 to below 10/11 outside the kernel's own noise; the 2% floor of the band never excuses it |
| `Gate.LayoutNoiseFloor` | xtask/src/t1.rs:130-144 | the min/max loop is the relative spread of the medians, none from fewer than two or from one not positive |
| `Gate.FloorIsSpread` | xtask/src/t1.rs:120-144 | the floor is the least that covers every layout's median from every other's |
| `Gate.MeasureGeomean` | xtask/src/t1.rs:205-219 | the mean's product and count, none for an empty sample or an entry not positive |
| `Gate.MeanAboveOne` | xtask/src/t1.rs:205-219 | whatever the root is, it is at least one exactly when the product is |
| `Gate.MeasureFamilies` | xtask/src/t1.rs:471-481 | the loop that pushes speedups family by family yields exactly the families' means, in the families' order |
| `Gate.FamiliesMakeTheSuite` | xtask/src/t1.rs:471-481 | the families' products multiply to the suite's: no kernel is lost or counted twice |
| `Gate.EvaluateGate` | xtask/src/t1.rs:471-504 | the whole decision with its reasons, from the two loops |
| `Gate.LossesInPlace` | xtask/src/t1.rs:482-492 | the excepted and the undocumented losses named are exactly the big losses that are and are not in the ledger, each at its place in the suite's order |
| `Gate.FamilyMeansAre` | xtask/src/t1.rs:471-481 | the families reported are exactly those whose speedups have a mean, with it, once each and in order |
| `Gate.GateHolds` | xtask/src/t1.rs:471-504 | the gate in raw ratios: measured, on the whole not slower, at most three exceptions, and every kernel slower than 10/11 by more than its own noise is one of them |
| `StoredGate.MeasureFloors` | xtask/src/bench_t1.rs:846-887 | a kernel's floor is the widest of its lanes' floors, and each lane's is reported under the same metric name |
| `StoredGate.FloorIsWidest` | xtask/src/bench_t1.rs:846-887 | the floor is one of the two lanes' own and no lane's is wider; none exactly when neither lane has one |
| `StoredGate.ScoredMeans` | xtask/src/bench_t1.rs:871-1030 | a kernel is scored exactly when both lanes took a hundredth of a nanosecond or more, and then by the ratio of its medians |
| `StoredGate.Run` | xtask/src/bench_t1.rs:871-1030 | the records and the scores a run pushes, kernel by kernel |
| `StoredGate.FloorsOfRun` | xtask/src/bench_t1.rs:2149-2159 | read back, the report's floors are each kernel's own; a lane's floor is never taken for one |
| `StoredGate.RescoreIsLive` | xtask/src/bench_t1.rs:2177-2196 | a stored row with its floor scores as it did live |
| `StoredGate.ReadReport` | xtask/src/bench_t1.rs:2146-2170 | the loop over the lines stops at the first garbled one, and otherwise reads exactly the suite floors and the gated rows; a value that is no number is skipped |
| `StoredGate.GateEval` | xtask/src/bench_t1.rs:2142-2202 | the stored gate on every report: malformed exactly when a line is garbled; of the records read, "no rows" exactly without a gated row, "diverged" exactly when a stored label is not the one its ratio and its kernel's last suite floor give, naming the first such row's kernel; else the scores row by row, with floor and verdict, and their outcome |
| `StoredGate.GateDecides` | xtask/src/bench_t1.rs:2142-2202 | the same of every list of records written out as a report |
| `StoredGate.StoredGateIsLive` | xtask/src/bench_t1.rs:2142-2202 | for every suite of distinctly named kernels the gate over the run's own records gives the live scores and the live outcome, and never the "diverged" error |
| `StoredGate.StoredGateHolds` | xtask/src/bench_t1.rs:2142-2202 | so the stored gate holds exactly when the run's raw ratios meet the contract |
| `PathRules.FitsMeans` | ci/tiers.py:143-147 | a path fits a glob exactly when its stars can be filled in, each within one segment, to spell the path |
| `PathRules.FitKeepsDepth` | ci/tiers.py:96-97 | `*` never crosses a segment: a path that fits has exactly its glob's slashes |
| `PathRules.OneStarFits` | ci/tiers.py:146-147 | a glob with one star fits exactly prefix, slash-free run, suffix |
| `PathRules.BlockDecides` | ci/tiers.py:150-155 | the first rule that matches decides, block by block |
| `PathRules.ProseIsNarrow` | ci/tiers.py:98-155 | of all paths, prose are exactly CHANGELOG.md, CONTRIBUTING.md and the pages directly under docs/ and docs/release/, less the generated pages |
| `PathRules.FullIsUnnamed` | ci/tiers.py:98-155 | a path asks for every job exactly when it is no prose page, not kept from prose, in none of the twelve directories and none of the eleven files |
| `Tiers.TiersNest` | ci/tiers.py:179-187 | noop, pr, full and release run ever more jobs, whatever the workflow's jobs |
| `Tiers.JobsOfPermutation` | ci/tiers.py:179-187 | a tier picks the same jobs from a reordered list |
| `Tiers.TierOfPaths` | ci/tiers.py:273-289 | the counting loop gives full if any path is unnamed or none is given, else pr if any is code, else noop |
| `Tiers.UnionIsJoin` | ci/tiers.py:277-289 | the tier of two changes together is the join of their tiers |
| `Tiers.MorePathsMoreJobs` | ci/tiers.py:210-289 | adding paths to an unlabelled pull-request push never removes a job |
| `Tiers.WordsOfJoin` | ci/tiers.py:223-223 | the jobs a dispatch names are read back from their spaced list |
| `Tiers.LabelsOfJoin` | ci/tiers.py:222-222 | the labels are read back from their comma list |
| `Tiers.MakePlan` | ci/tiers.py:210-289 | every plan is its event's: the nightly gets release, a dispatch what it names, a pull request what its labels and then its changed paths ask, all else full, and in the workflow's order exactly that tier's jobs; and every refusal names something that is so |
| `Tiers.PlanMeans` | ci/tiers.py:210-289 | the same of the plan as a function of the request |
| `Tiers.RefusedIff` | ci/tiers.py:213-245 | a plan is refused exactly for a tier job the workflow lacks, or a dispatch with jobs and a tier, an unknown tier, an unknown job, or a job without what it needs |
| `Tiers.PartialIsClosed` | ci/tiers.py:237-246 | a partial plan holds every selectable job its jobs need |
| `Tiers.PlanIsATier` | ci/tiers.py:218-220 | every plan chooses exactly its tier's jobs, or for a partial run some selectable jobs |
| `Tiers.Verdict` | ci/tiers.py:292-330 | the exit code is 0 exactly for a green run: the plan succeeded and named its tier's jobs, each succeeded and every other was skipped |
| `Tiers.GreenMeans` | ci/tiers.py:292-330 | a green run job by job: the plan succeeded and chose its tier's jobs, each once (a partial one some jobs there are), every chosen job succeeded and every other was skipped |
| `Tiers.PlannedRunIsGreen` | ci/tiers.py:210-330 | for every event not refused, a run of that plan is green exactly when the plan and the planned jobs succeeded and all others were skipped |
| `Tiers.OneResultChanged` | ci/tiers.py:320-330 | changing any one job's result turns a green run red |
| `Sorting.SortOfPermutation` | xtask/src/stats.rs:10-10 | sorting is a function of the multiset, whatever the algorithm |
| `Text.LinesOfUnlines` | xtask/src/corpus.rs:188-188 | lines written out are read back as lines |
| `Text.ParsePadded` | xtask/src/ritual.rs:456-477 | a zero-padded decimal in range reads back as its number |

## Left out

- MaskedLoops.Walk: counts past the exact bound, where the C program is undefined.
- MaskedLoops.Checksum: asks that the seed survive its first multiplication, since beyond that the C program is undefined.
- HoistedLoad.ProbeReloading: asks that no sum of its own iterations overflow, since beyond that the C program is undefined.
- HoistedLoad.ProbeHoisted: the same, and distinct buffers, which `restrict` asserts.
- ListAlloc.BuildWalkHeap: malloc never fails for a count that is not negative; block sizes are not modelled, and node indices are unbounded. For a negative count, where the request is too large to succeed, the one call is counted and its result only freed.
- ListAlloc.BuildWalkArena: the same.
- IsoStamp.DaysFromCivil64: fields on which its own arithmetic overflows.
- Gate.ScoreOfRatio: over exact reals; in binary floating point the two quotients may round apart.
- Gate.MeasureGeomean: the mean stands as its product and its count; the logarithms and the root are not taken, and "at least 1" is said of the product, which `Gate.MeanAboveOne` justifies.
- Gate.Score: a negative zero, whose sign exact reals do not have.
- StoredGate.GateEval: the unreadable file; blank lines come removed.
- Stats.CompareOfScale: over exact reals; a baseline median of zero gives an infinite percentage with its sign, and NaN samples, on which the source stops, are not modelled.
- Ratchet.WriteTable: the rest of the document and the write to disk.
- Ratchet.RecordingIsAFixpoint: ratios and their rounding are exact; the JSON numbers are taken as printed exactly.
- TickLedger.Ledger.Append: the mean comes printed at three decimals; the row's texts hold no quote or backslash, so that the row is JSON; an unreadable last line, which the source takes as no entry, is a value of `LastEntry` that no append writes.
- Protocol.CompareIsSymmetric: the class only; the detail text names the sides in order.
- Protocol.SameVerdictCompared: for diagnostics and warnings whose span is two byte offsets; other spans are compared as they print, and `Protocol.ClassMeans` says so.
- Protocol.WarningsAgreeIffSameBag: for well-formed warnings, a code with a span of two non-negative numbers.
- Protocol.AgreeIffSameAnswer: of the JSON escapes only `\n`, `\r`, `\t`, the backslash and the quote are printed when spans and keys are rendered as text.
- ReleaseNotes.ReleaseNotes: the wording of the two errors.
- Differ.DifferPass: running the two implementations, the divergence lines printed, and the header parse are inputs; a file's run is a value.
- Tiers.MakePlan: the log of reasons, and reading the paths from git or a file; a path list arrives read and stripped.
- Tiers.Verdict: job results and chosen jobs are strings; a JSON list of anything else is not modelled.
- PathRules.FitsMeans: regular expressions; the glob is matched directly.
- The YAML scan of the workflow file, and the job conditions written in it.
- `Coverage` (xtask/src/protocol.rs:369-440): unions and intersections of sets only.
- The manifest, exception-ledger and climb-table parsers, `delta_is_readable`, `sinks_agree` and the IR and remark counters: straight-line readers.
- The floating-point kernels, the timing code and the printed reports of every kernel.
- The quiet-machine check, the bench-data branch and every process, file and network step of `ritual`, `bench_t1` and `main`.
- The compiler, interpreter and runtime crates: not part of this model.
