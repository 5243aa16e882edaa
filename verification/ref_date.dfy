/** The reference-time helpers of bufr2nc.py: `SplitDate`, `MakeDate` and
    `FindRefDate` on integer dates of the form YYYYMMDDHH, with Python's
    `datetime` validation and calendar carry. */
module RefDate {
  import opened Wrappers
  import opened Decimal

  /** The two exceptions Python's `datetime` raises on this path. */
  datatype DateError = ValueError | OverflowError

  /** A `datetime` truncated to the hour, the only resolution the script uses. */
  datatype DateTime = DateTime(year: int, month: int, day: int, hour: int)

  const MinYear := 1
  const MaxYear := 9999

  predicate IsLeapYear(y: int) {
    y % 4 == 0 && (y % 100 != 0 || y % 400 == 0)
  }

  function DaysInMonth(y: int, m: int): (n: int)
    requires 1 <= m <= 12
    ensures 28 <= n <= 31
  {
    if m == 2 then (if IsLeapYear(y) then 29 else 28)
    else if m == 4 || m == 6 || m == 9 || m == 11 then 30
    else 31
  }

  /** What `datetime(year, month, day, hour)` accepts. */
  predicate Valid(t: DateTime) {
    && MinYear <= t.year <= MaxYear
    && 1 <= t.month <= 12
    && 1 <= t.day <= DaysInMonth(t.year, t.month)
    && 0 <= t.hour <= 23
  }

  /** The `datetime` constructor: a value for a real calendar hour, ValueError otherwise. */
  function NewDateTime(y: int, m: int, d: int, h: int): (r: Result<DateTime, DateError>)
    ensures r.Ok? <==> Valid(DateTime(y, m, d, h))
    ensures r.Ok? ==> r.value == DateTime(y, m, d, h)
    ensures r.Err? ==> r.error == ValueError
  {
    var t := DateTime(y, m, d, h);
    if Valid(t) then Ok(t) else Err(ValueError)
  }

  /** The YYYYMMDDHH integer of a date, by arithmetic. */
  function Encode(t: DateTime): int {
    t.year * 1000000 + t.month * 10000 + t.day * 100 + t.hour
  }

  /** The date fields a YYYYMMDDHH integer spells, by arithmetic. */
  function Fields(d: nat): DateTime {
    DateTime(d / 1000000, d / 10000 % 100, d / 100 % 100, d % 100)
  }

  /** `SplitDate`: slice `str(d)` at 0:4, 4:6, 6:8 and 8:10, read each slice
      with `int()` and build a `datetime` from the four numbers. */
  function SplitDate(d: nat): (r: Result<DateTime, DateError>)
    ensures r.Ok? ==> Valid(r.value)
  {
    var s := Show(d);
    var y := PySlice(s, 0, 4);
    var m := PySlice(s, 4, 6);
    var dd := PySlice(s, 6, 8);
    var h := PySlice(s, 8, 10);
    if y == [] || m == [] || dd == [] || h == [] then Err(ValueError)
    else NewDateTime(Parse(y), Parse(m), Parse(dd), Parse(h))
  }

  /** `MakeDate`: format year, month, day and hour as "%0.4i%0.2i%0.2i%0.2i"
      and read the text back with `int()`. The text reads as the arithmetic
      encoding of the date. */
  function MakeDate(t: DateTime): (r: nat)
    requires Valid(t)
    ensures r == Encode(t)
  {
    var a := Pad(t.year, 4);
    var b := Pad(t.month, 2);
    var c := Pad(t.day, 2);
    var e := Pad(t.hour, 2);
    PadWidth(t.month, 2);
    PadWidth(t.day, 2);
    PadWidth(t.hour, 2);
    assert Pow10(2) == 100;
    ParseConcat(a, b);
    ParseConcat(a + b, c);
    ParseConcat(a + b + c, e);
    Parse(a + b + c + e)
  }

  /** `datetime + timedelta(days=1)` at the level of calendar fields. */
  function NextDay(t: DateTime): (r: Result<DateTime, DateError>)
    requires Valid(t)
    ensures r.Ok? ==> Valid(r.value) && r.value.hour == t.hour
    ensures r.Ok? ==> Encode(t) + 100 <= Encode(r.value)
    ensures r.Err? <==> t.year == MaxYear && t.month == 12 && t.day == 31
    ensures r.Err? ==> r == Err(OverflowError)
    ensures r.Ok? ==> forall u :: Valid(u) && u.hour == t.hour && Encode(t) < Encode(u) ==> Encode(r.value) <= Encode(u)
  {
    if t.year == MaxYear && t.month == 12 && t.day == 31 then Err(OverflowError)
    else
      DayAfterIsNext(t);
      Ok(DayAfter(t))
  }

  /** The same hour of the following calendar day, with no upper bound on
      the year. */
  function DayAfter(t: DateTime): DateTime
    requires Valid(t)
  {
    if t.day < DaysInMonth(t.year, t.month) then t.(day := t.day + 1)
    else if t.month < 12 then t.(month := t.month + 1, day := 1)
    else t.(year := t.year + 1, month := 1, day := 1)
  }

  /** A later valid time at the same hour is in a later year, a later month
      of the same year, or on a later day of the same month. */
  lemma LaterSameHour(t: DateTime, u: DateTime)
    requires Valid(t) && Valid(u) && u.hour == t.hour && Encode(t) < Encode(u)
    ensures || u.year > t.year
            || (u.year == t.year && u.month > t.month)
            || (u.year == t.year && u.month == t.month && u.day > t.day)
  {
  }

  /** The day after is the earliest later valid time at the same hour. */
  lemma DayAfterIsNext(t: DateTime)
    requires Valid(t) && !(t.year == MaxYear && t.month == 12 && t.day == 31)
    ensures Valid(DayAfter(t)) && DayAfter(t).hour == t.hour
    ensures Encode(t) + 100 <= Encode(DayAfter(t))
    ensures forall u :: Valid(u) && u.hour == t.hour && Encode(t) < Encode(u) ==> Encode(DayAfter(t)) <= Encode(u)
  {
    forall u | Valid(u) && u.hour == t.hour && Encode(t) < Encode(u)
      ensures Encode(DayAfter(t)) <= Encode(u)
    {
      LaterSameHour(t, u);
    }
  }

  /** `datetime + timedelta(hours=k)` for a shift of less than one day past
      the end of the current day. */
  function AddHours(t: DateTime, k: int): (r: Result<DateTime, DateError>)
    requires Valid(t) && 0 <= k && t.hour + k < 48
    ensures r.Ok? ==> Valid(r.value) && r.value.hour == (t.hour + k) % 24
    ensures t.hour + k < 24 ==> r == Ok(t.(hour := t.hour + k))
    ensures t.hour + k >= 24 ==> r == NextDay(t.(hour := t.hour + k - 24))
  {
    if t.hour + k < 24 then Ok(t.(hour := t.hour + k))
    else NextDay(t.(hour := t.hour + k - 24))
  }

  /** The analysis times of a day, with 24 standing for 00Z of the next day. */
  const AnalysisHours: seq<int> := [0, 6, 12, 18, 24]

  function FirstPositive(xs: seq<int>): (r: Option<nat>)
    ensures r.Some? ==> r.value < |xs| && xs[r.value] > 0
    ensures r.Some? ==> forall i :: 0 <= i < r.value ==> xs[i] <= 0
    ensures r.None? ==> forall i :: 0 <= i < |xs| ==> xs[i] <= 0
  {
    if xs == [] then None
    else if xs[0] > 0 then Some(0)
    else match FirstPositive(xs[1..])
      case None => None
      case Some(i) =>
        assert forall j :: 1 <= j < i + 1 ==> xs[j] == xs[1..][j - 1];
        Some(i + 1)
  }

  /** The hour increment `FindRefDate` adds: the first strictly positive entry
      of `AnalysisHours - hour`, which is the smallest such entry because the
      analysis hours increase. */
  function HourIncrement(h: int): (inc: int)
    requires 0 <= h <= 23
    ensures 1 <= inc <= 6
    ensures h + inc in AnalysisHours
    ensures forall a :: a in AnalysisHours && a - h > 0 ==> inc <= a - h
  {
    var diffs := [AnalysisHours[0] - h, AnalysisHours[1] - h, AnalysisHours[2] - h,
                  AnalysisHours[3] - h, AnalysisHours[4] - h];
    assert diffs[4] > 0;
    assert forall j :: 0 <= j < 5 ==> diffs[j] == AnalysisHours[j] - h;
    match FirstPositive(diffs)
    case Some(i) =>
      assert AnalysisHours[i] == h + diffs[i];
      assert forall j :: 0 <= j < 5 && diffs[j] > 0 ==> diffs[i] <= diffs[j];
      assert 0 < diffs[h / 6 + 1] <= 6;
      assert forall a :: a in AnalysisHours ==> exists j :: 0 <= j < 5 && a - h == diffs[j];
      diffs[i]
    case None => assert false; 0
  }

  /** `FindRefDate`: the next analysis time (00, 06, 12 or 18Z) strictly after
      the date `d`, as a YYYYMMDDHH integer. */
  function FindRefDate(d: nat): (r: Result<nat, DateError>)
    ensures SplitDate(d).Err? ==> r == Err(SplitDate(d).error)
    ensures SplitDate(d).Ok? ==> r == NextAnalysisTime(SplitDate(d).value)
    ensures r.Ok? ==> var h := r.value % 100; h == 0 || h == 6 || h == 12 || h == 18
  {
    var t :- SplitDate(d);
    NextAnalysisTime(t)
  }

  /** The loop of `FindRefDate` after the split: add the hour increment and
      format the result. */
  function NextAnalysisTime(t: DateTime): (r: Result<nat, DateError>)
    requires Valid(t)
    ensures r.Ok? ==> var h := r.value % 100; h == 0 || h == 6 || h == 12 || h == 18
  {
    var u :- AddHours(t, HourIncrement(t.hour));
    EncodeHour(u);
    Ok(MakeDate(u))
  }

  /** `"seconds since %0.4i-%0.2i-%0.2i %0.2i:00 UTC"` of the reference date. */
  function TimeUnits(t: DateTime): (s: string)
    requires Valid(t)
    ensures |s| == 34 && s[..14] == "seconds since " && s[27..] == ":00 UTC"
    ensures s[18] == '-' && s[21] == '-' && s[24] == ' '
  {
    PadWidth(t.year, 4);
    PadWidth(t.month, 2);
    PadWidth(t.day, 2);
    PadWidth(t.hour, 2);
    "seconds since " + Pad(t.year, 4) + "-" + Pad(t.month, 2) + "-" + Pad(t.day, 2)
      + " " + Pad(t.hour, 2) + ":00 UTC"
  }

  // ---------------------------------------------------------------------------
  // Arithmetic facts about the YYYYMMDDHH encoding

  /** A field below 100 formats to exactly two characters. */
  lemma PadWidth(n: nat, width: nat)
    requires width >= 1 && n < Pow10(width)
    ensures |Pad(n, width)| == width
  {
    ShowLengthAtMost(n, width);
  }

  lemma EncodeHour(t: DateTime)
    requires 0 <= t.hour < 100
    ensures Encode(t) % 100 == t.hour
  {
    assert Encode(t) == (t.year * 10000 + t.month * 100 + t.day) * 100 + t.hour;
  }

  /** Reading the fields back from an encoding recovers the date. */
  lemma FieldsOfEncode(t: DateTime)
    requires 0 <= t.year && 0 <= t.month < 100 && 0 <= t.day < 100 && 0 <= t.hour < 100
    ensures Encode(t) >= 0 && Fields(Encode(t)) == t
  {
    var n := Encode(t);
    assert n == (t.year * 10000 + t.month * 100 + t.day) * 100 + t.hour;
    assert n / 100 == t.year * 10000 + t.month * 100 + t.day;
    assert n % 100 == t.hour;
    assert n / 10000 == t.year * 100 + t.month;
    assert n / 100 % 100 == t.day;
    assert n / 1000000 == t.year;
    assert n / 10000 % 100 == t.month;
  }

  /** Encoding the fields of a number gives the number back. */
  lemma EncodeOfFields(d: nat)
    ensures Encode(Fields(d)) == d
  {
    var f := Fields(d);
    var a, b := d / 100, d / 10000;
    DivHundred(d);
    DivHundred(a);
    DivHundred(b);
    DivDiv(d);
    DivDiv(a);
    assert b / 100 == d / 1000000 by { DivDivTwice(d); }
    assert d == a * 100 + f.hour;
    assert a == b * 100 + f.day;
    assert b == f.year * 100 + f.month;
  }

  lemma DivHundred(x: nat)
    ensures x == x / 100 * 100 + x % 100
  {
  }

  lemma DivDiv(x: nat)
    ensures x / 100 / 100 == x / 10000
  {
    var q, r := x / 100, x % 100;
    var q2, r2 := q / 100, q % 100;
    assert x == q2 * 10000 + (r2 * 100 + r);
    assert 0 <= r2 * 100 + r < 10000;
  }

  lemma DivDivTwice(x: nat)
    ensures x / 10000 / 100 == x / 1000000
  {
    var q, r := x / 10000, x % 10000;
    var q2, r2 := q / 100, q % 100;
    assert x == q2 * 1000000 + (r2 * 10000 + r);
    assert 0 <= r2 * 10000 + r < 1000000;
  }

  /** A ten-digit text reads as the encoding of its four date fields. */
  lemma ParseDateText(s: string)
    requires IsDigits(s) && |s| == 10
    ensures IsDigits(s[0..4]) && IsDigits(s[4..6]) && IsDigits(s[6..8]) && IsDigits(s[8..10])
    ensures Parse(s[4..6]) < 100 && Parse(s[6..8]) < 100 && Parse(s[8..10]) < 100
    ensures Parse(s) == Encode(DateTime(Parse(s[0..4]), Parse(s[4..6]), Parse(s[6..8]), Parse(s[8..10])))
  {
    var y, m, dd, h := s[0..4], s[4..6], s[6..8], s[8..10];
    DigitSlices(s);
    assert s == y + m + dd + h;
    ParseFour(y, m, dd, h);
  }

  lemma ParseFour(y: string, m: string, dd: string, h: string)
    requires IsDigits(y) && IsDigits(m) && IsDigits(dd) && IsDigits(h)
    requires |m| == 2 && |dd| == 2 && |h| == 2
    ensures IsDigits(y + m + dd + h)
    ensures Parse(m) < 100 && Parse(dd) < 100 && Parse(h) < 100
    ensures Parse(y + m + dd + h) == Encode(DateTime(Parse(y), Parse(m), Parse(dd), Parse(h)))
  {
    TwoDigits(m);
    TwoDigits(dd);
    TwoDigits(h);
    ParseConcat(y, m);
    ParseConcat(y + m, dd);
    ParseConcat(y + m + dd, h);
    Horner(Parse(y), Parse(m), Parse(dd), Parse(h));
  }

  lemma DigitSlices(s: string)
    requires IsDigits(s) && |s| == 10
    ensures IsDigits(s[0..4]) && IsDigits(s[4..6]) && IsDigits(s[6..8]) && IsDigits(s[8..10])
  {
  }

  lemma TwoDigits(s: string)
    requires IsDigits(s) && |s| == 2
    ensures Parse(s) < 100 && Pow10(|s|) == 100
  {
    ParseUpperBound(s);
  }

  lemma Horner(a: int, b: int, c: int, e: int)
    ensures ((a * 100 + b) * 100 + c) * 100 + e == a * 1000000 + b * 10000 + c * 100 + e
  {
  }

  /** On a ten-digit number, `SplitDate`'s string slicing reads exactly the
      arithmetic fields YYYY, MM, DD and HH. */
  lemma SplitDateTenDigits(d: nat)
    requires 1000000000 <= d < 10000000000
    ensures SplitDate(d) == NewDateTime(Fields(d).year, Fields(d).month, Fields(d).day, Fields(d).hour)
  {
    var s := Show(d);
    TenDigits(d);
    assert PySlice(s, 0, 4) == s[0..4] && PySlice(s, 4, 6) == s[4..6];
    assert PySlice(s, 6, 8) == s[6..8] && PySlice(s, 8, 10) == s[8..10];
    ParseDateText(s);
    FieldsOfEncode(DateTime(Parse(s[0..4]), Parse(s[4..6]), Parse(s[6..8]), Parse(s[8..10])));
  }

  /** `MakeDate(SplitDate(d)) == d` for every valid ten-digit YYYYMMDDHH integer. */
  lemma MakeDateOfSplitDate(d: nat)
    requires 1000000000 <= d < 10000000000
    requires SplitDate(d).Ok?
    ensures MakeDate(SplitDate(d).value) == d
  {
    SplitDateTenDigits(d);
    EncodeOfFields(d);
  }

  /** `SplitDate(MakeDate(t)) == t` for every `datetime` from year 1000 on;
      earlier years lose their leading zero in `int()` and do not round-trip. */
  lemma SplitDateOfMakeDate(t: DateTime)
    requires Valid(t) && t.year >= 1000
    ensures SplitDate(MakeDate(t)) == Ok(t)
  {
    var n := MakeDate(t);
    assert 1000000000 <= n < 10000000000;
    SplitDateTenDigits(n);
    FieldsOfEncode(t);
  }

  /** A year-999 date is an example of the failed round trip. */
  lemma SplitDateOfMakeDateEarlyYear()
    ensures MakeDate(DateTime(999, 1, 1, 0)) == 999010100
    ensures SplitDate(999010100) != Ok(DateTime(999, 1, 1, 0))
  {
    var s := Show(999010100);
    ShowLength(999010100);
    assert Pow10(8) == 100000000 && Pow10(9) == 1000000000;
    ShowLengthExact(999010100, 9);
    var y := s[0..4];
    var rest := s[4..];
    assert s == y + rest;
    ParseConcat(y, rest);
    ParseUpperBound(rest);
    assert Pow10(5) == 100000;
    assert Parse(y) == 9990;
  }

  // ---------------------------------------------------------------------------
  // What FindRefDate computes

  /** The next analysis hour by an independent formula: the next multiple of
      six strictly above the hour. */
  lemma HourIncrementIsNextMultipleOfSix(h: int)
    requires 0 <= h <= 23
    ensures h + HourIncrement(h) == (h / 6 + 1) * 6
  {
    var inc := HourIncrement(h);
    var next := (h / 6 + 1) * 6;
    assert next in AnalysisHours;
    assert (h + inc) % 6 == 0;
  }

  /** `FindRefDate` on a valid date: the same day at the next analysis hour
      when the hour is below 18, otherwise 00Z of the next day (or an
      OverflowError past the last day `datetime` can represent). */
  lemma FindRefDateCases(d: nat)
    requires SplitDate(d).Ok?
    ensures var t := SplitDate(d).value;
      && (t.hour < 18 ==> FindRefDate(d) == Ok(Encode(t.(hour := (t.hour / 6 + 1) * 6))))
      && (t.hour >= 18 ==> FindRefDate(d) == NextDayDate(t.(hour := 0)))
  {
    var t := SplitDate(d).value;
    NextAnalysisTimeCases(t);
    var r := FindRefDate(d);
    assert r == NextAnalysisTime(t);
  }

  lemma NextAnalysisTimeCases(t: DateTime)
    requires Valid(t)
    ensures t.hour < 18 ==> NextAnalysisTime(t) == Ok(Encode(t.(hour := (t.hour / 6 + 1) * 6)))
    ensures t.hour >= 18 ==> NextAnalysisTime(t) == NextDayDate(t.(hour := 0))
  {
    HourIncrementIsNextMultipleOfSix(t.hour);
    var inc := HourIncrement(t.hour);
    if t.hour >= 18 {
      assert t.hour + inc == 24;
      assert AddHours(t, inc) == NextDay(t.(hour := 0));
    }
  }

  /** The YYYYMMDDHH integer of the next day, or the error of getting there. */
  function NextDayDate(t: DateTime): Result<nat, DateError>
    requires Valid(t)
  {
    match NextDay(t)
    case Ok(u) => Ok(MakeDate(u))
    case Err(e) => Err(e)
  }

  /** The reference date is strictly later than a valid ten-digit start date. */
  lemma FindRefDateIsLater(d: nat)
    requires 1000000000 <= d < 10000000000
    requires FindRefDate(d).Ok?
    ensures d < FindRefDate(d).value
  {
    var t := SplitDate(d).value;
    MakeDateOfSplitDate(d);
    assert d == Encode(t);
    FindRefDateCases(d);
    if t.hour >= 18 {
      var t0 := t.(hour := 0);
      assert Encode(t) == Encode(t0) + t.hour;
      assert NextDay(t0).Ok?;
    }
  }

  /** `FindRefDate` fails on a valid date only at the end of year 9999. */
  lemma FindRefDateOverflow(d: nat)
    requires SplitDate(d).Ok?
    ensures var t := SplitDate(d).value;
      FindRefDate(d).Err? <==> t.year == MaxYear && t.month == 12 && t.day == 31 && t.hour >= 18
    ensures FindRefDate(d).Err? ==> FindRefDate(d) == Err(OverflowError)
  {
    FindRefDateCases(d);
  }

  /** The worked examples: 05Z goes to 06Z, 23Z rolls to 00Z of the next day,
      and an analysis time itself moves on to the next one. The start date is
      a parameter so that the verifier reasons through the lemmas above
      rather than by evaluating the decimal text. */
  lemma FindRefDateExampleMorning(d: nat)
    requires d == 2023010105
    ensures FindRefDate(d) == Ok(2023010106)
  {
    var t := DateTime(2023, 1, 1, 5);
    assert Fields(d) == t;
    FindRefDateByFields(d);
    assert Encode(t.(hour := 6)) == 2023010106;
  }

  lemma FindRefDateExampleMidnight(d: nat)
    requires d == 2023010123
    ensures FindRefDate(d) == Ok(2023010200)
  {
    var t := DateTime(2023, 1, 1, 23);
    assert Fields(d) == t;
    FindRefDateByFields(d);
    NextDayDateExample();
  }

  lemma NextDayDateExample()
    ensures NextDayDate(DateTime(2023, 1, 1, 0)) == Ok(2023010200)
  {
    assert NextDay(DateTime(2023, 1, 1, 0)) == Ok(DateTime(2023, 1, 2, 0));
    assert Encode(DateTime(2023, 1, 2, 0)) == 2023010200;
  }

  lemma FindRefDateExampleOnTheHour(d: nat)
    requires d == 2023010100
    ensures FindRefDate(d) == Ok(2023010106)
  {
    var t := DateTime(2023, 1, 1, 0);
    assert Fields(d) == t;
    FindRefDateByFields(d);
    assert Encode(t.(hour := 6)) == 2023010106;
  }

  /** `FindRefDateCases` stated on the arithmetic fields of a ten-digit date. */
  lemma FindRefDateByFields(d: nat)
    requires 1000000000 <= d < 10000000000 && Valid(Fields(d))
    ensures var t := Fields(d);
      && (t.hour < 18 ==> FindRefDate(d) == Ok(Encode(t.(hour := (t.hour / 6 + 1) * 6))))
      && (t.hour >= 18 ==> FindRefDate(d) == NextDayDate(t.(hour := 0)))
  {
    var t := Fields(d);
    SplitDateTenDigits(d);
    SplitDateIs(d, t);
    FindRefDateCases(d);
  }

  lemma SplitDateIs(d: nat, t: DateTime)
    requires SplitDate(d) == NewDateTime(t.year, t.month, t.day, t.hour) && Valid(t)
    ensures SplitDate(d) == Ok(t)
  {
  }

  /** The units string spells the reference date: each field reads back from
      its fixed position. */
  lemma TimeUnitsFields(t: DateTime)
    requires Valid(t) && t.year >= 1000
    ensures |TimeUnits(t)| == 34
    ensures TimeUnits(t)[..14] == "seconds since "
    ensures IsDigits(TimeUnits(t)[14..18]) && Parse(TimeUnits(t)[14..18]) == t.year
    ensures IsDigits(TimeUnits(t)[19..21]) && Parse(TimeUnits(t)[19..21]) == t.month
    ensures IsDigits(TimeUnits(t)[22..24]) && Parse(TimeUnits(t)[22..24]) == t.day
    ensures IsDigits(TimeUnits(t)[25..27]) && Parse(TimeUnits(t)[25..27]) == t.hour
    ensures TimeUnits(t)[27..] == ":00 UTC"
  {
    assert Pow10(2) == 100 && Pow10(4) == 10000;
    PadWidth(t.year, 4);
    PadWidth(t.month, 2);
    PadWidth(t.day, 2);
    PadWidth(t.hour, 2);
    var y, m, d, h := Pad(t.year, 4), Pad(t.month, 2), Pad(t.day, 2), Pad(t.hour, 2);
    var p1 := "seconds since ";
    var p2 := p1 + y;
    var p3 := p2 + "-";
    var p4 := p3 + m;
    var p5 := p4 + "-";
    var p6 := p5 + d;
    var p7 := p6 + " ";
    var p8 := p7 + h;
    var u := p8 + ":00 UTC";
    assert u == TimeUnits(t);
    assert |p1| == 14 && |p3| == 19 && |p5| == 22 && |p7| == 25 && |p8| == 27;
    PrefixSlice(p8, ":00 UTC", 0, 14);
    PrefixSlice(p7, h, 0, 14);
    PrefixSlice(p6, " ", 0, 14);
    PrefixSlice(p5, d, 0, 14);
    PrefixSlice(p4, "-", 0, 14);
    PrefixSlice(p3, m, 0, 14);
    PrefixSlice(p2, "-", 0, 14);
    PrefixSlice(p1, y, 0, 14);
    assert p1[0..14] == p1;
    PrefixSlice(p8, ":00 UTC", 14, 18);
    PrefixSlice(p7, h, 14, 18);
    PrefixSlice(p6, " ", 14, 18);
    PrefixSlice(p5, d, 14, 18);
    PrefixSlice(p4, "-", 14, 18);
    PrefixSlice(p3, m, 14, 18);
    PrefixSlice(p2, "-", 14, 18);
    LastSlice(p1, y);
    PrefixSlice(p8, ":00 UTC", 19, 21);
    PrefixSlice(p7, h, 19, 21);
    PrefixSlice(p6, " ", 19, 21);
    PrefixSlice(p5, d, 19, 21);
    PrefixSlice(p4, "-", 19, 21);
    LastSlice(p3, m);
    PrefixSlice(p8, ":00 UTC", 22, 24);
    PrefixSlice(p7, h, 22, 24);
    PrefixSlice(p6, " ", 22, 24);
    LastSlice(p5, d);
    PrefixSlice(p8, ":00 UTC", 25, 27);
    LastSlice(p7, h);
    LastSlice(p8, ":00 UTC");
  }

  /** Slicing inside the left operand of a concatenation. */
  lemma PrefixSlice(p: string, q: string, i: nat, j: nat)
    requires i <= j <= |p|
    ensures (p + q)[i..j] == p[i..j]
  {
  }

  /** The right operand of a concatenation sits after the left one. */
  lemma LastSlice(p: string, x: string)
    ensures (p + x)[|p|..|p| + |x|] == x
    ensures (p + x)[|p|..] == x
  {
  }
}
