/** Minute-precision UTC stamps, `YYYY-MM-DDTHH:MMZ`: xtask/src/ritual.rs.
    A character stands for a byte: a stamp with any other character fails to
    parse whichever way its bytes are counted. */
module IsoStamp {
  import opened Wrappers
  import opened Text
  import opened Calendar

  const I64_MIN: int := -0x8000_0000_0000_0000
  const I64_MAX: int := 0x7FFF_FFFF_FFFF_FFFF

  function Stamp(c: Date, hh: int, mm: int): string {
    Padded(c.year, 4) + "-" + Padded(c.month, 2) + "-" + Padded(c.day, 2)
    + "T" + Padded(hh, 2) + ":" + Padded(mm, 2) + "Z"
  }

  function EpochToIso(secs: int): string {
    var rem := secs % 86_400;
    Stamp(CivilFromDays(secs / 86_400), rem / 3_600, rem % 3_600 / 60)
  }

  function Field(s: string, lo: nat, hi: nat): Option<int>
    requires lo <= hi
  {
    if hi <= |s| then ParseInt(s[lo..hi], I64_MIN, I64_MAX) else None
  }

  predicate Columned(s: string) {
    |s| >= 16 && s[4] == '-' && s[7] == '-' && s[10] == 'T' && s[13] == ':'
  }

  function IsoToEpoch(s: string): Option<int> {
    if !Columned(s) then None
    else match (Field(s, 0, 4), Field(s, 5, 7), Field(s, 8, 10), Field(s, 11, 13), Field(s, 14, 16))
      case (Some(y), Some(m), Some(d), Some(hh), Some(mm)) =>
        Some(DaysFromCivil(y, m, d) * 86_400 + hh * 3_600 + mm * 60)
      case _ => None
  }

  /** The years that print in four characters, sign included. */
  predicate FourWide(y: int) { -999 <= y <= 9_999 }

  lemma TwoDigits(n: int)
    requires 0 <= n < 100
    ensures |Padded(n, 2)| == 2
  {
    DecimalWidth(n);
  }

  lemma YearWidth(y: int)
    ensures |Padded(y, 4)| >= 4
    ensures FourWide(y) <==> |Padded(y, 4)| == 4
    ensures !FourWide(y) ==> IsDigit(Padded(y, 4)[4])
  {
    var digits := Decimal(if y < 0 then -y else y);
    DecimalWidth(if y < 0 then -y else y);
    if !FourWide(y) {
      if y < 0 {
        assert Padded(y, 4)[4] == digits[3];
      } else {
        assert Padded(y, 4)[4] == digits[4];
      }
    }
  }

  /** A stamp of the fixed width, cut at the fixed columns. */
  lemma StampColumns(y: string, m: string, d: string, hh: string, mm: string)
    requires |y| == 4 && |m| == |d| == |hh| == |mm| == 2
    ensures var s := y + "-" + m + "-" + d + "T" + hh + ":" + mm + "Z";
            Columned(s) && s[0..4] == y && s[5..7] == m && s[8..10] == d
            && s[11..13] == hh && s[14..16] == mm
  {
  }

  lemma TwoDigitField(n: int)
    requires 0 <= n < 100
    ensures |Padded(n, 2)| == 2 && ParseInt(Padded(n, 2), I64_MIN, I64_MAX) == Some(n)
  {
    TwoDigits(n);
    hide Padded, ParseInt;
    ParsePadded(n, 2, I64_MIN, I64_MAX);
  }

  lemma ParseStamp(c: Date, hh: int, mm: int)
    requires FourWide(c.year) && Valid(c) && 0 <= hh < 24 && 0 <= mm < 60
    ensures IsoToEpoch(Stamp(c, hh, mm))
         == Some(DaysFromCivil(c.year, c.month, c.day) * 86_400 + hh * 3_600 + mm * 60)
    ensures |Stamp(c, hh, mm)| == 17 && Stamp(c, hh, mm)[16] == 'Z'
  {
    hide DaysFromCivil;
    TwoDigitField(c.month);
    assert c.day <= 31;
    TwoDigitField(c.day);
    TwoDigitField(hh);
    TwoDigitField(mm);
    YearWidth(c.year);
    ParsePadded(c.year, 4, I64_MIN, I64_MAX);
    hide Padded, ParseInt;
    StampColumns(Padded(c.year, 4), Padded(c.month, 2), Padded(c.day, 2), Padded(hh, 2), Padded(mm, 2));
  }

  /** Printing a time and reading it back drops the seconds, for exactly the
      years whose four columns hold them; any other stamp is unreadable. */
  lemma IsoRoundTrip(secs: int)
    ensures IsoToEpoch(EpochToIso(secs))
         == if FourWide(CivilFromDays(secs / 86_400).year) then Some(secs - secs % 60) else None
  {
    var c, rem := CivilFromDays(secs / 86_400), secs % 86_400;
    var hh, mm := rem / 3_600, rem % 3_600 / 60;
    DaysOfCivil(secs / 86_400);
    assert EpochToIso(secs) == Stamp(c, hh, mm);
    hide CivilFromDays, DaysFromCivil, EpochToIso, IsoToEpoch, Stamp;
    if FourWide(c.year) {
      ParseStamp(c, hh, mm);
      MinuteOfDay(secs);
    } else {
      WideStamp(c, hh, mm);
    }
  }

  /** A year too wide for its columns leaves no dash where the reader wants one. */
  lemma WideStamp(c: Date, hh: int, mm: int)
    requires !FourWide(c.year)
    ensures IsoToEpoch(Stamp(c, hh, mm)) == None
  {
    YearWidth(c.year);
    hide Padded;
    assert Stamp(c, hh, mm)[4] == Padded(c.year, 4)[4];
    hide Stamp;
  }

  /** In seconds: the stamps that read back are those from the first second of
      year -999 to the last of year 9999. */
  lemma IsoReadsBack(secs: int)
    ensures DaysFromCivil(-999, 1, 1) * 86_400 == -93_692_592_000
    ensures DaysFromCivil(10_000, 1, 1) * 86_400 == 253_402_300_800
    ensures IsoToEpoch(EpochToIso(secs))
         == if -93_692_592_000 <= secs < 253_402_300_800 then Some(secs - secs % 60) else None
  {
    WidthBounds();
    hide IsoToEpoch, EpochToIso, CivilFromDays, DaysFromCivil;
    IsoRoundTrip(secs);
    YearBegins(-999, secs / 86_400);
    YearBegins(10_000, secs / 86_400);
  }

  lemma WidthBounds()
    ensures DaysFromCivil(-999, 1, 1) == -1_084_405 && DaysFromCivil(10_000, 1, 1) == 2_932_897
  {
  }

  lemma MinuteOfDay(secs: int)
    ensures var rem := secs % 86_400;
            secs / 86_400 * 86_400 + rem / 3_600 * 3_600 + rem % 3_600 / 60 * 60 == secs - secs % 60
  {
    var days, rem := secs / 86_400, secs % 86_400;
    var hours, t := rem / 3_600, rem % 3_600;
    var minutes, s := t / 60, t % 60;
    assert secs == 86_400 * days + rem && rem == 3_600 * hours + t && t == 60 * minutes + s;
    SecondsLeft(secs, days * 1_440 + hours * 60 + minutes, s);
  }

  lemma SecondsLeft(secs: int, minutes: int, s: int)
    requires secs == 60 * minutes + s && 0 <= s < 60
    ensures secs % 60 == s
  {
  }

  lemma SplitMinute(z: int, hh: int, mm: int)
    requires 0 <= hh < 24 && 0 <= mm < 60
    ensures var t := hh * 3_600 + mm * 60;
            (z * 86_400 + t) / 86_400 == z && (z * 86_400 + t) % 86_400 == t
            && t / 3_600 == hh && t % 3_600 / 60 == mm
  {
    var t := hh * 3_600 + mm * 60;
    assert 0 <= t < 86_400;
    assert t / 3_600 == hh;
    assert t % 3_600 == mm * 60;
  }

  lemma PrintMinute(z: int, c: Date, hh: int, mm: int)
    requires CivilFromDays(z) == c && 0 <= hh < 24 && 0 <= mm < 60
    ensures EpochToIso(z * 86_400 + hh * 3_600 + mm * 60) == Stamp(c, hh, mm)
  {
    SplitMinute(z, hh, mm);
    assert z * 86_400 + hh * 3_600 + mm * 60 == z * 86_400 + (hh * 3_600 + mm * 60);
  }

  /** The second that `ParseStamp` reads prints back as the same stamp. */
  lemma PrintStamp(c: Date, z: int, hh: int, mm: int)
    requires Valid(c) && DaysFromCivil(c.year, c.month, c.day) == z
    requires 0 <= hh < 24 && 0 <= mm < 60
    ensures EpochToIso(z * 86_400 + hh * 3_600 + mm * 60) == Stamp(c, hh, mm)
  {
    assert CivilFromDays(z) == c by { CivilOfDays(c); }
    PrintMinute(z, c, hh, mm);
  }

  // ------------------------------------------ the same code in 64 bits --

  /** No step overflows, on any day an i64 second falls on. */
  method CivilFromDays64(z: i64) returns (y: i64, m: i64, d: i64)
    requires -106_751_991_167_301 <= z <= 106_751_991_167_300
    ensures Date(y as int, m as int, d as int) == CivilFromDays(z as int)
  {
    var z0 := z + 719_468;
    var era := z0 / 146_097;
    var doe := z0 - era * 146_097;
    assert era as int == z0 as int / 146_097 && 0 <= doe < 146_097;
    var yoe, doy := YearAndDay64(doe);
    y := yoe + era * 400;
    m, d := MarchMonth64(doy);
    if m <= 2 {
      y := y + 1;
    }
  }

  method YearAndDay64(doe: i64) returns (yoe: i64, doy: i64)
    requires 0 <= doe < 146_097
    ensures yoe as int == YearOfEra(doe as int) && doy as int == doe as int - YearStart(yoe as int)
    ensures 0 <= yoe < 400 && 0 <= doy <= 365
  {
    yoe := (doe - doe / 1_460 + doe / 36_524 - doe / 146_096) / 365;
    YearOfEraBounds(doe as int);
    doy := doe - (365 * yoe + yoe / 4 - yoe / 100);
  }

  method MarchMonth64(doy: i64) returns (m: i64, d: i64)
    requires 0 <= doy <= 365
    ensures var mp := (5 * doy as int + 2) / 153;
            d as int == doy as int - (153 * mp + 2) / 5 + 1 && m as int == mp + if mp < 10 then 3 else -9
  {
    var mp := (5 * doy + 2) / 153;
    d := doy - (153 * mp + 2) / 5 + 1;
    m := mp + if mp < 10 then 3 else -9;
  }

  method EpochToIso64(secs: i64) returns (s: string)
    ensures s == EpochToIso(secs as int)
  {
    var rem := secs % 86_400;
    var y, m, d := CivilFromDays64(secs / 86_400);
    s := Stamp(Date(y as int, m as int, d as int), (rem / 3_600) as int, (rem % 3_600 / 60) as int);
  }

  predicate Fits(x: int) { I64_MIN <= x <= I64_MAX }

  /** Every sum and product of `days_from_civil` stays inside an i64. */
  predicate DaysFit(y: int, m: int, d: int) {
    var y0 := if m <= 2 then y - 1 else y;
    var era := y0 / 400;
    var yoe := y0 - era * 400;
    var mp := m + if m > 2 then -3 else 9;
    var doy := TruncDiv(153 * mp + 2, 5) + d - 1;
    var doe := yoe * 365 + yoe / 4 - yoe / 100 + doy;
    && Fits(y0) && Fits(era * 400) && Fits(153 * mp) && Fits(153 * mp + 2)
    && Fits(TruncDiv(153 * mp + 2, 5) + d) && Fits(doy) && Fits(doe)
    && Fits(era * 146_097) && Fits(era * 146_097 + doe) && Fits(era * 146_097 + doe - 719_468)
  }

  /** The fields that four and two columns can hold overflow nothing. */
  lemma FieldsFit(y: int, m: int, d: int)
    requires -999 <= y <= 9_999 && -9 <= m <= 99 && -9 <= d <= 99
    ensures DaysFit(y, m, d) && -1_100_000 <= DaysFromCivil(y, m, d) <= 3_000_000
  {
  }

  /** Rust's `/` on an i64 truncates; Dafny's is Euclidean. */
  method Fifths64(a: i64) returns (q: i64)
    ensures q as int == TruncDiv(a as int, 5)
  {
    q := a / 5;
    if a < 0 && a % 5 != 0 {
      q := q + 1;
    }
  }

  /** The 64-bit day count, wherever none of its steps overflows. */
  method DaysFromCivil64(y: i64, m: i64, d: i64) returns (z: i64)
    requires DaysFit(y as int, m as int, d as int)
    ensures z as int == DaysFromCivil(y as int, m as int, d as int)
  {
    var y0 := if m <= 2 then y - 1 else y;
    var era := y0 / 400;
    var yoe := y0 - era * 400;
    var fifths := Fifths64(153 * (m + if m > 2 then -3 else 9) + 2);
    var doy := fifths + d - 1;
    var doe := yoe * 365 + yoe / 4 - yoe / 100 + doy;
    z := era * 146_097 + doe - 719_468;
  }

  lemma FieldRange(s: string, w: nat)
    requires |s| == w && (w == 2 || w == 4)
    ensures ParseInt(s, I64_MIN, I64_MAX).Some? ==>
              var n := ParseInt(s, I64_MIN, I64_MAX).value;
              if w == 2 then -9 <= n <= 99 else -999 <= n <= 9_999
  {
    var digits := if s[0] == '+' || s[0] == '-' then s[1..] else s;
    if digits != "" && forall c | c in digits :: IsDigit(c) {
      DigitsBound(digits);
    }
  }

  lemma {:induction false} DigitsBound(s: string)
    requires |s| <= 4 && forall c | c in s :: IsDigit(c)
    ensures DigitsValue(s) < [1, 10, 100, 1_000, 10_000][|s|]
  {
    if s != "" {
      assert IsDigit(s[|s| - 1]);
      DigitsBound(s[..|s| - 1]);
    }
  }

  method IsoToEpoch64(s: string) returns (r: Option<i64>)
    ensures r.Some? <==> IsoToEpoch(s).Some?
    ensures r.Some? ==> r.value as int == IsoToEpoch(s).value
  {
    if !Columned(s) {
      return None;
    }
    FieldRange(s[0..4], 4);
    FieldRange(s[5..7], 2);
    FieldRange(s[8..10], 2);
    FieldRange(s[11..13], 2);
    FieldRange(s[14..16], 2);
    match (Field(s, 0, 4), Field(s, 5, 7), Field(s, 8, 10), Field(s, 11, 13), Field(s, 14, 16)) {
      case (Some(y), Some(m), Some(d), Some(hh), Some(mm)) =>
        FieldsFit(y, m, d);
        var z := DaysFromCivil64(y as i64, m as i64, d as i64);
        r := Some(z * 86_400 + hh as i64 * 3_600 + mm as i64 * 60);
      case _ =>
        r := None;
    }
  }
}
