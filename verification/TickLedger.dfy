/** The ritual's ledger file: xtask/src/ritual.rs. Each append computes the
    count of consecutive nightly holds from the file's own last row. */
module TickLedger {
  import opened Wrappers
  import opened Calendar
  import opened IsoStamp
  import opened Text
  import opened TickRule

  /** One row. The mean comes printed at three decimals; an empty note is left out of the row. */
  datatype Entry = Entry(ts: string, commit: string, geomean: Option<string>, verdict: string,
                         consecutive: nat, note: string)

  /** A line of the file: a blank or `#` line, a row, or text that is not JSON. */
  datatype Line = Header | Row(entry: Entry) | Unreadable

  function LastEntry(lines: seq<Line>): Option<Entry> {
    if lines == [] then None
    else match lines[|lines| - 1]
      case Header => LastEntry(lines[..|lines| - 1])
      case Row(e) => Some(e)
      case Unreadable => None
  }

  /** The count a row gets, and the note that a re-render of the same night adds to it. */
  function NextConsecutive(tail: Option<Entry>, ts: string, verdict: string): (nat, string) {
    if verdict != "HOLDS" then (0, "")
    else if tail.None? || tail.value.verdict != "HOLDS" || tail.value.consecutive == 0 then (1, "")
    else
      var gap := Gap(IsoToEpoch(tail.value.ts), IsoToEpoch(ts));
      if gap >= NIGHT_SECONDS then (tail.value.consecutive + 1, "")
      else (tail.value.consecutive, RerenderNote(gap))
  }

  function RerenderNote(gap: int): string {
    "same-night re-render (" + Padded(TruncDiv(gap, 60), 0) + "m after the counted hold); count unchanged"
  }

  function JoinNotes(note: string, more: string): string {
    if note == "" then more else if more == "" then note else note + "; " + more
  }

  function LedgerEntry(tail: Option<Entry>, ts: string, commit: string, geomean: Option<string>,
                       verdict: string, note: string): Entry
  {
    var (count, more) := NextConsecutive(tail, ts, verdict);
    Entry(ts, commit, geomean, verdict, count, JoinNotes(note, more))
  }

  /** Only a hold that leaves the count where the last row had it is noted as a re-render. */
  lemma NotedIffUncounted(tail: Option<Entry>, ts: string, verdict: string)
    ensures NextConsecutive(tail, ts, verdict).1 != "" <==>
              verdict == "HOLDS" && tail.Some? && tail.value.verdict == "HOLDS" && tail.value.consecutive > 0
              && NextConsecutive(tail, ts, verdict).0 == tail.value.consecutive
  {
    hide IsoToEpoch;
  }

  // ------------------------------------------------------ rows as ticks --

  function TickOf(e: Entry): Tick {
    Tick(IsoToEpoch(e.ts), e.verdict == "HOLDS", e.consecutive)
  }

  /** The file's rows, read. */
  function Ticks(lines: seq<Line>): seq<Tick> {
    if lines == [] then []
    else
      var rest := Ticks(lines[..|lines| - 1]);
      match lines[|lines| - 1]
      case Row(e) => rest + [TickOf(e)]
      case _ => rest
  }

  /** The last readable row is the one the next count starts from. */
  lemma {:induction false} LastEntryIsLastTick(lines: seq<Line>)
    requires Unreadable !in lines
    ensures match LastEntry(lines)
            case None => Ticks(lines) == []
            case Some(e) => Last(Ticks(lines)) == Some(TickOf(e))
  {
    if lines != [] && lines[|lines| - 1].Header? {
      LastEntryIsLastTick(lines[..|lines| - 1]);
    }
  }

  lemma EntryIsTick(tail: Option<Entry>, ts: string, verdict: string)
    ensures NextConsecutive(tail, ts, verdict).0
         == NextCount(if tail.Some? then Some(TickOf(tail.value)) else None,
                      IsoToEpoch(ts), verdict == "HOLDS")
  {
  }

  // ------------------------------------------------- the clock's stamps --

  /** Two readings of a clock that never goes back, and their stamps. */
  lemma ClockOrder(a: nat, b: nat)
    requires a <= b
    ensures NotBefore(IsoToEpoch(EpochToIso(a)), IsoToEpoch(EpochToIso(b)))
  {
    hide IsoToEpoch, EpochToIso, CivilFromDays;
    IsoRoundTrip(a);
    IsoRoundTrip(b);
    EpochIsDayZero();
    YearNeverFalls(0, a / 86_400);
    YearNeverFalls(a / 86_400, b / 86_400);
    MinuteOrder(a, b);
  }

  lemma MinuteOrder(a: nat, b: nat)
    requires a <= b
    ensures a - a % 60 <= b - b % 60
  {
    assert a - a % 60 == 60 * (a / 60) && b - b % 60 == 60 * (b / 60);
  }

  ghost predicate Stamped(es: seq<Tick>, times: seq<nat>) {
    && |times| == |es|
    && (forall i :: 0 <= i < |es| ==> es[i].time == IsoToEpoch(EpochToIso(times[i])))
    && (forall i, j :: 0 <= i < j < |times| ==> times[i] <= times[j])
  }

  lemma StampedIsChronological(es: seq<Tick>, times: seq<nat>)
    requires Stamped(es, times)
    ensures Chronological(es)
  {
    forall i, j | 0 <= i < j < |es| ensures NotBefore(es[i].time, es[j].time) {
      ClockOrder(times[i], times[j]);
    }
  }

  lemma WrittenExtends(es: seq<Tick>, e: Tick)
    requires Written(es) && e.count == NextCount(Last(es), e.time, e.holds)
    ensures Written(es + [e])
  {
    var all := es + [e];
    assert all[..|es|] == es;
    forall i | 0 <= i < |es| ensures all[i].count == NextCount(Last(all[..i]), all[i].time, all[i].holds) {
      assert all[..i] == es[..i];
    }
  }

  lemma TicksOfAppend(lines: seq<Line>, e: Entry)
    requires Unreadable !in lines && Written(Ticks(lines))
    requires e.consecutive == NextConsecutive(LastEntry(lines), e.ts, e.verdict).0
    ensures Ticks(lines + [Row(e)]) == Ticks(lines) + [TickOf(e)]
    ensures Written(Ticks(lines + [Row(e)]))
  {
    hide IsoToEpoch;
    assert (lines + [Row(e)])[..|lines|] == lines;
    LastEntryIsLastTick(lines);
    EntryIsTick(LastEntry(lines), e.ts, e.verdict);
    WrittenExtends(Ticks(lines), TickOf(e));
  }

  lemma StampedExtends(es: seq<Tick>, times: seq<nat>, e: Tick, now: nat)
    requires Stamped(es, times) && e.time == IsoToEpoch(EpochToIso(now))
    requires times != [] ==> times[|times| - 1] <= now
    ensures Stamped(es + [e], times + [now])
  {
    hide IsoToEpoch, EpochToIso;
    assert forall i :: 0 <= i < |times| - 1 ==> times[i] <= times[|times| - 1];
  }

  /** Rituals that hold at 0 h, 11 h and 22 h on the epoch's day: the recorded
      count is 1, though two of the holds are a night apart. */
  lemma ShortfallOnTheClock() returns (es: seq<Tick>)
    ensures Written(es) && Stamped(es, [0, 39_600, 79_200])
    ensures Count(es) == 1 && Separated(es, [0, 2])
  {
    hide IsoToEpoch, EpochToIso, Written, Separated;
    es := CountCanFallShort();
    EpochIsDayZero();
    IsoRoundTrip(0);
    IsoRoundTrip(39_600);
    IsoRoundTrip(79_200);
  }

  // ---------------------------------------------------------- the ledger --

  /** The ledger file, written by rituals whose clock (`times`) never goes back. */
  class Ledger {
    var lines: seq<Line>
    ghost var times: seq<nat>

    ghost predicate Valid()
      reads this
    {
      Unreadable !in lines && Written(Ticks(lines)) && Stamped(Ticks(lines), times)
    }

    constructor ()
      ensures Valid() && lines == [] && times == []
    {
      lines, times := [], [];
    }

    /** A ritual's last step. The count it records rests on that many holds,
        unbroken up to this row, any two of them at least twelve hours apart,
        and is never more than the commented rule's. */
    method Append(now: nat, commit: string, geomean: Option<string>, verdict: string, note: string)
        returns (e: Entry)
      requires Valid()
      requires times != [] ==> times[|times| - 1] <= now
      modifies this
      ensures Valid() && times == old(times) + [now]
      ensures lines == old(lines) + [Row(e)]
      ensures e == LedgerEntry(LastEntry(old(lines)), EpochToIso(now), commit, geomean, verdict, note)
      ensures Last(Ticks(lines)) == Some(TickOf(e))
      ensures exists idx :: |idx| == e.consecutive && Separated(Ticks(lines), idx)
      ensures e.consecutive <= |Counted(Ticks(lines))|
    {
      hide IsoToEpoch, EpochToIso, Written, Separated, Chronological, Stamped;
      e := LedgerEntry(LastEntry(lines), EpochToIso(now), commit, geomean, verdict, note);
      TicksOfAppend(lines, e);
      StampedExtends(Ticks(lines), times, TickOf(e), now);
      lines := lines + [Row(e)];
      times := times + [now];
      StampedIsChronological(Ticks(lines), times);
      CountAgainstRule(Ticks(lines));
      ghost var idx := CountIsEarned(Ticks(lines));
    }

    /** A header or blank line changes nothing that is counted. */
    method Comment()
      requires Valid()
      modifies this
      ensures Valid() && lines == old(lines) + [Header]
      ensures times == old(times) && LastEntry(lines) == LastEntry(old(lines))
    {
      hide IsoToEpoch, EpochToIso;
      lines := lines + [Header];
      assert lines[..|lines| - 1] == old(lines);
    }
  }
}
