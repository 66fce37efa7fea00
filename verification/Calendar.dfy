/** Proleptic Gregorian dates and day numbers: xtask/src/ritual.rs, the two
    integer-only conversions, against counting days one at a time. */
module Calendar {
  datatype Date = Date(year: int, month: int, day: int)

  // ------------------------------------------------ the calendar itself --

  predicate Leap(y: int) {
    y % 4 == 0 && (y % 100 != 0 || y % 400 == 0)
  }

  function DaysInMonth(y: int, m: int): int {
    if m == 2 then (if Leap(y) then 29 else 28)
    else if m == 4 || m == 6 || m == 9 || m == 11 then 30
    else 31
  }

  predicate Valid(c: Date) {
    1 <= c.month <= 12 && 1 <= c.day <= DaysInMonth(c.year, c.month)
  }

  function NextDay(c: Date): Date {
    if c.day < DaysInMonth(c.year, c.month) then c.(day := c.day + 1)
    else if c.month < 12 then Date(c.year, c.month + 1, 1)
    else Date(c.year + 1, 1, 1)
  }

  function PreviousDay(c: Date): Date {
    if c.day > 1 then c.(day := c.day - 1)
    else if c.month > 1 then Date(c.year, c.month - 1, DaysInMonth(c.year, c.month - 1))
    else Date(c.year - 1, 12, 31)
  }

  /** The date `z` days after 1970-01-01 (before it, for a negative `z`),
      found by turning one calendar page at a time. */
  function CountedDate(z: int): Date
    decreases if z < 0 then -z else z
  {
    if z == 0 then Date(1970, 1, 1)
    else if z > 0 then NextDay(CountedDate(z - 1))
    else PreviousDay(CountedDate(z + 1))
  }

  // -------------------------------------------------- the source's code --

  /** Rust's `/`, which truncates toward zero; `div_euclid` is Dafny's `/`. */
  function TruncDiv(a: int, b: int): int
    requires b > 0
  {
    if a >= 0 then a / b else -(-a / b)
  }

  function DaysFromCivil(y: int, m: int, d: int): int {
    var y := if m <= 2 then y - 1 else y;
    var era := y / 400;
    var yoe := y - era * 400;
    var doy := TruncDiv(153 * (m + if m > 2 then -3 else 9) + 2, 5) + d - 1;
    var doe := yoe * 365 + yoe / 4 - yoe / 100 + doy;
    era * 146_097 + doe - 719_468
  }

  function CivilFromDays(z: int): Date {
    var z := z + 719_468;
    var era := z / 146_097;
    var doe := z - era * 146_097;
    var yoe := YearOfEra(doe);
    var y := yoe + era * 400;
    var doy := doe - YearStart(yoe);
    var mp := (5 * doy + 2) / 153;
    var d := doy - (153 * mp + 2) / 5 + 1;
    var m := mp + if mp < 10 then 3 else -9;
    Date(if m <= 2 then y + 1 else y, m, d)
  }

  function YearOfEra(doe: int): int {
    (doe - doe / 1460 + doe / 36_524 - doe / 146_096) / 365
  }

  /** Days from the era's 1 March to the 1 March that opens year `yoe`. */
  function YearStart(yoe: int): int {
    365 * yoe + yoe / 4 - yoe / 100
  }

  // --------------------------------------------------------- the proofs --

  /** The March-based year `yoe` of an era has 366 days when it ends in a leap February. */
  function YearLength(yoe: int): int {
    if Leap(yoe + 1) then 366 else 365
  }

  /** Centuries, four-year cycles and years of an era, in days. */
  lemma YearStartSplit(c: int, q: int, r: int)
    requires 0 <= c < 4 && 0 <= q < 25 && 0 <= r < 4
    ensures YearStart(100 * c + 4 * q + r) == 36_524 * c + 1_461 * q + 365 * r
    ensures Leap(100 * c + 4 * q + r + 1) <==> r == 3 && (q < 24 || c == 3)
  {
    var yoe := 100 * c + 4 * q + r;
    assert yoe / 4 == 25 * c + q && yoe / 100 == c;
    if r == 3 {
      assert yoe + 1 == 4 * (25 * c + q + 1);
      assert (yoe + 1) % 4 == 0;
      if q == 24 {
        assert yoe + 1 == 100 * (c + 1);
      } else {
        assert (yoe + 1) / 100 == c;
      }
    } else {
      assert (yoe + 1) / 4 == 25 * c + q;
    }
  }

  lemma YearOfEraSplit(c: int, q: int, r: int, k: int)
    requires 0 <= c < 4 && 0 <= q < 25 && 0 <= r < 4
    requires 0 <= k < if r == 3 && (q < 24 || c == 3) then 366 else 365
    ensures var doe := 36_524 * c + 1_461 * q + 365 * r + k;
            0 <= doe < 146_097 && YearOfEra(doe) == 100 * c + 4 * q + r
  {
    var doe := 36_524 * c + 1_461 * q + 365 * r + k;
    var over := 24 * c + q + 365 * r + k;
    var e := if over >= 1_460 then 1 else 0;
    assert doe == 1_460 * (25 * c + q + e) + (over - 1_460 * e);
    assert doe / 1_460 == 25 * c + q + e;
    assert doe / 36_524 - doe / 146_096 == c;
    var yoe := 100 * c + 4 * q + r;
    assert doe - doe / 1_460 + doe / 36_524 - doe / 146_096 == 365 * yoe + (k - e);
    assert 0 <= k - e < 365;
  }

  lemma YearOfEraUnique(doe: int, yoe: int)
    requires 0 <= yoe < 400
    requires YearStart(yoe) <= doe < YearStart(yoe) + YearLength(yoe)
    ensures 0 <= doe < 146_097 && YearOfEra(doe) == yoe
  {
    var c, q, r := yoe / 100, yoe % 100 / 4, yoe % 4;
    assert yoe == 100 * c + 4 * q + r;
    YearStartSplit(c, q, r);
    YearOfEraSplit(c, q, r, doe - YearStart(yoe));
  }

  lemma YearOfEraBounds(doe: int)
    requires 0 <= doe < 146_097
    ensures var yoe := YearOfEra(doe);
            0 <= yoe < 400 && YearStart(yoe) <= doe < YearStart(yoe) + YearLength(yoe)
  {
    var c := if doe / 36_524 < 4 then doe / 36_524 else 3;
    var s := doe - 36_524 * c;
    var q := s / 1_461;
    var t := s - 1_461 * q;
    var r := if t / 365 < 4 then t / 365 else 3;
    YearStartSplit(c, q, r);
    YearOfEraSplit(c, q, r, t - 365 * r);
  }

  /** The day of a March-based year on which its month `mp` (0 = March) opens. */
  function MonthStart(mp: int): int {
    (153 * mp + 2) / 5
  }

  lemma MonthOfYear(mp: int, doy: int)
    requires 0 <= mp < 12 && MonthStart(mp) <= doy < MonthStart(mp + 1)
    ensures (5 * doy + 2) / 153 == mp
  {
  }

  /** The two conversions, seen from a March-based year: the shared shape of both proofs. */
  function MarchDays(era: int, yoe: int, mp: int, d: int): int {
    era * 146_097 + YearStart(yoe) + MonthStart(mp) + d - 1 - 719_468
  }

  function MarchDate(era: int, yoe: int, mp: int, d: int): Date {
    var m := mp + if mp < 10 then 3 else -9;
    Date(era * 400 + yoe + if m <= 2 then 1 else 0, m, d)
  }

  predicate MarchValid(yoe: int, mp: int, d: int) {
    0 <= yoe < 400 && 0 <= mp < 12 && 1 <= d &&
    (if mp < 11 then d <= MonthStart(mp + 1) - MonthStart(mp)
     else d <= YearLength(yoe) - MonthStart(11))
  }

  lemma Mod4Shift(k: int, a: int)
    ensures (4 * k + a) % 4 == a % 4
  {
  }

  lemma Mod100Shift(k: int, a: int)
    ensures (100 * k + a) % 100 == a % 100
  {
  }

  lemma Mod400Shift(k: int, a: int)
    ensures (400 * k + a) % 400 == a % 400
  {
  }

  lemma LeapInEra(era: int, yoe: int)
    ensures Leap(era * 400 + yoe) <==> Leap(yoe)
  {
    Mod4Shift(100 * era, yoe);
    Mod100Shift(4 * era, yoe);
    Mod400Shift(era, yoe);
  }

  lemma MonthLengths(mp: int, y: int)
    requires 0 <= mp < 11
    ensures var m := mp + if mp < 10 then 3 else -9;
            MonthStart(mp + 1) - MonthStart(mp) == DaysInMonth(y, m)
  {
  }

  lemma MarchIsValid(era: int, yoe: int, mp: int, d: int)
    requires 0 <= yoe < 400 && 0 <= mp < 12
    ensures MarchValid(yoe, mp, d) <==> Valid(MarchDate(era, yoe, mp, d))
  {
    if mp < 11 {
      MonthLengths(mp, MarchDate(era, yoe, mp, d).year);
    } else {
      LeapInEra(era, yoe + 1);
    }
  }

  lemma MarchDayOfYear(yoe: int, mp: int, d: int)
    requires MarchValid(yoe, mp, d)
    ensures var doy := MonthStart(mp) + d - 1;
            0 <= doy < YearLength(yoe) && (5 * doy + 2) / 153 == mp
  {
    var doy := MonthStart(mp) + d - 1;
    if mp < 11 {
      MonthOfYear(mp, doy);
      assert MonthStart(mp + 1) <= MonthStart(11) == 337;
    }
  }

  lemma MarchToDays(era: int, yoe: int, mp: int, d: int)
    requires MarchValid(yoe, mp, d)
    ensures var c := MarchDate(era, yoe, mp, d);
            DaysFromCivil(c.year, c.month, c.day) == MarchDays(era, yoe, mp, d)
  {
    assert (era * 400 + yoe) / 400 == era;
  }

  lemma MarchFromDays(era: int, yoe: int, mp: int, d: int)
    requires MarchValid(yoe, mp, d)
    ensures CivilFromDays(MarchDays(era, yoe, mp, d)) == MarchDate(era, yoe, mp, d)
  {
    var doy := MonthStart(mp) + d - 1;
    MarchDayOfYear(yoe, mp, d);
    var doe := YearStart(yoe) + doy;
    YearOfEraUnique(doe, yoe);
    assert (era * 146_097 + doe) / 146_097 == era;
  }

  lemma MarchOfDays(z: int) returns (era: int, yoe: int, mp: int, d: int)
    ensures MarchValid(yoe, mp, d) && MarchDays(era, yoe, mp, d) == z
  {
    var days := z + 719_468;
    era := days / 146_097;
    var doe := days - era * 146_097;
    yoe := YearOfEra(doe);
    YearOfEraBounds(doe);
    var doy := doe - YearStart(yoe);
    mp := (5 * doy + 2) / 153;
    d := doy - MonthStart(mp) + 1;
  }

  lemma MarchOfDate(c: Date) returns (era: int, yoe: int, mp: int)
    requires Valid(c)
    ensures MarchValid(yoe, mp, c.day) && MarchDate(era, yoe, mp, c.day) == c
  {
    var y := if c.month <= 2 then c.year - 1 else c.year;
    era, yoe := y / 400, y % 400;
    mp := if c.month > 2 then c.month - 3 else c.month + 9;
    MarchIsValid(era, yoe, mp, c.day);
  }

  // ------------------------------------------------------- main results --

  /** Every day number is the number of exactly one valid date. */
  lemma DaysOfCivil(z: int)
    ensures var c := CivilFromDays(z);
            Valid(c) && DaysFromCivil(c.year, c.month, c.day) == z
  {
    var era, yoe, mp, d := MarchOfDays(z);
    MarchToDays(era, yoe, mp, d);
    MarchFromDays(era, yoe, mp, d);
    MarchIsValid(era, yoe, mp, d);
  }

  lemma CivilOfDays(c: Date)
    requires Valid(c)
    ensures CivilFromDays(DaysFromCivil(c.year, c.month, c.day)) == c
  {
    var era, yoe, mp := MarchOfDate(c);
    MarchToDays(era, yoe, mp, c.day);
    MarchFromDays(era, yoe, mp, c.day);
  }

  lemma NextDayIsOneLater(c: Date)
    requires Valid(c)
    ensures var n := NextDay(c);
            DaysFromCivil(n.year, n.month, n.day) == DaysFromCivil(c.year, c.month, c.day) + 1
  {
    hide DaysFromCivil, YearStart;
    var era, yoe, mp := MarchOfDate(c);
    MarchToDays(era, yoe, mp, c.day);
    MarchIsValid(era, yoe, mp, c.day + 1);
    if MarchValid(yoe, mp, c.day + 1) {
      MarchToDays(era, yoe, mp, c.day + 1);
    } else if mp < 11 {
      assert MarchValid(yoe, mp + 1, 1);
      assert NextDay(c) == MarchDate(era, yoe, mp + 1, 1);
      MarchToDays(era, yoe, mp + 1, 1);
    } else {
      MarchNewYear(era, yoe);
    }
  }

  /** 1 March follows the last day of February, and is one day later. */
  lemma MarchNewYear(era: int, yoe: int)
    requires 0 <= yoe < 400
    ensures var d := YearLength(yoe) - MonthStart(11);
            var n := NextDay(MarchDate(era, yoe, 11, d));
            n == Date(era * 400 + yoe + 1, 3, 1) &&
            DaysFromCivil(n.year, n.month, n.day) == MarchDays(era, yoe, 11, d) + 1
  {
    LeapInEra(era, yoe + 1);
    var (era', yoe') := if yoe < 399 then (era, yoe + 1) else (era + 1, 0);
    assert MarchDate(era', yoe', 0, 1) == Date(era * 400 + yoe + 1, 3, 1);
    MarchToDays(era', yoe', 0, 1);
    YearEnd(yoe);
  }

  lemma YearEnd(yoe: int)
    requires 0 <= yoe < 400
    ensures YearStart(yoe) + YearLength(yoe) == if yoe < 399 then YearStart(yoe + 1) else 146_097
  {
    var c, q, r := yoe / 100, yoe % 100 / 4, yoe % 4;
    assert yoe == 100 * c + 4 * q + r;
    YearStartSplit(c, q, r);
    if r < 3 {
      YearStartSplit(c, q, r + 1);
    } else if q < 24 {
      YearStartSplit(c, q + 1, 0);
    } else if c < 3 {
      YearStartSplit(c + 1, 0, 0);
    }
  }

  lemma NextDayUndoesPrevious(c: Date)
    requires Valid(c)
    ensures Valid(NextDay(c)) && PreviousDay(NextDay(c)) == c
    ensures Valid(PreviousDay(c)) && NextDay(PreviousDay(c)) == c
  {
  }

  /** `f` turns one calendar page between the days `z` and `z + 1`, in both directions. */
  predicate TurnsPage(f: int -> Date, z: int) {
    f(z + 1) == NextDay(f(z)) && f(z) == PreviousDay(f(z + 1))
  }

  lemma CivilTurnsPage(c: Date, z: int)
    requires Valid(c) && DaysFromCivil(c.year, c.month, c.day) == z
    ensures CivilFromDays(z) == c && CivilFromDays(z + 1) == NextDay(c)
    ensures PreviousDay(NextDay(c)) == c
  {
    hide CivilFromDays, DaysFromCivil, NextDay, PreviousDay, Valid;
    NextDayUndoesPrevious(c);
    NextDayIsOneLater(c);
    CivilOfDays(c);
    CivilOfDays(NextDay(c));
  }

  /** Counting days is the only numbering that turns one page a day from 1970-01-01. */
  lemma {:induction false} CountingIsUnique(f: int -> Date, z: int)
    requires f(0) == Date(1970, 1, 1) && forall z :: TurnsPage(f, z)
    ensures f(z) == CountedDate(z)
    decreases if z < 0 then -z else z
  {
    if z > 0 {
      CountingIsUnique(f, z - 1);
      assert TurnsPage(f, z - 1);
    } else if z < 0 {
      CountingIsUnique(f, z + 1);
      assert TurnsPage(f, z);
    }
  }

  lemma EpochIsDayZero()
    ensures CivilFromDays(0) == Date(1970, 1, 1)
  {
    assert MarchDays(4, 369, 10, 1) == 0;
    MarchFromDays(4, 369, 10, 1);
  }

  lemma CivilTurnsEveryPage(f: int -> Date)
    requires f == CivilFromDays
    ensures f(0) == Date(1970, 1, 1) && forall z :: TurnsPage(f, z)
  {
    EpochIsDayZero();
    forall z ensures TurnsPage(f, z) {
      DaysOfCivil(z);
      CivilTurnsPage(f(z), z);
    }
  }

  lemma YearStep(z: int)
    ensures CivilFromDays(z).year <= CivilFromDays(z + 1).year
  {
    var c := CivilFromDays(z);
    DaysOfCivil(z);
    hide CivilFromDays, DaysFromCivil;
    CivilTurnsPage(c, z);
  }

  lemma {:induction false} YearNeverFalls(z: int, later: int)
    requires z <= later
    ensures CivilFromDays(z).year <= CivilFromDays(later).year
    decreases later - z
  {
    hide CivilFromDays;
    if z < later {
      YearNeverFalls(z, later - 1);
      YearStep(later - 1);
    }
  }

  /** A year's days are those from its own 1 January on. */
  lemma YearBegins(y: int, z: int)
    ensures CivilFromDays(z).year >= y <==> z >= DaysFromCivil(y, 1, 1)
  {
    hide CivilFromDays, DaysFromCivil;
    var eve := Date(y - 1, 12, 31);
    CivilOfDays(eve);
    NextDayIsOneLater(eve);
    CivilOfDays(Date(y, 1, 1));
    if z >= DaysFromCivil(y, 1, 1) {
      YearNeverFalls(DaysFromCivil(y, 1, 1), z);
    } else {
      YearNeverFalls(z, DaysFromCivil(y - 1, 12, 31));
    }
  }

  /** The closed form is the count: `CivilFromDays` turns calendar pages. */
  lemma CivilIsCounted(z: int)
    ensures CivilFromDays(z) == CountedDate(z)
  {
    var f := CivilFromDays;
    assert f(z) == CountedDate(z) by {
      CivilTurnsEveryPage(f);
      CountingIsUnique(f, z);
    }
  }
}
