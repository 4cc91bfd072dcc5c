/** Proleptic Gregorian dates as Python's `datetime.date` has them (years
    1 to 9999), with the arithmetic `get_prev_month` needs: the first of a
    month, one day back, and `str(date)`. */
module Calendar {
  import opened Wrappers
  import opened Strings

  datatype Date = Date(year: int, month: int, day: int)

  const MinYear := 1
  const MaxYear := 9999

  predicate IsLeapYear(y: int) {
    y % 4 == 0 && (y % 100 != 0 || y % 400 == 0)
  }

  function DaysInMonth(y: int, m: int): (n: int)
    requires 1 <= m <= 12
    ensures 28 <= n <= 31
    ensures m == 2 ==> (n == 29 <==> IsLeapYear(y))
  {
    if m == 2 then (if IsLeapYear(y) then 29 else 28)
    else if m == 4 || m == 6 || m == 9 || m == 11 then 30
    else 31
  }

  predicate ValidDate(d: Date) {
    && MinYear <= d.year <= MaxYear
    && 1 <= d.month <= 12
    && 1 <= d.day <= DaysInMonth(d.year, d.month)
  }

  /** Chronological order. */
  predicate Before(a: Date, b: Date) {
    a.year < b.year || (a.year == b.year && (a.month < b.month || (a.month == b.month && a.day < b.day)))
  }

  /** `d + timedelta(days=1)`, or OverflowError past 9999-12-31. */
  function NextDay(d: Date): (r: Result<Date>)
    requires ValidDate(d)
    ensures r.Success? ==> ValidDate(r.value) && Before(d, r.value)
    ensures r.Failure? <==> d == Date(MaxYear, 12, 31)
  {
    if d.day < DaysInMonth(d.year, d.month) then Success(d.(day := d.day + 1))
    else if d.month < 12 then Success(Date(d.year, d.month + 1, 1))
    else if d.year < MaxYear then Success(Date(d.year + 1, 1, 1))
    else Failure(Error(OverflowError, "date value out of range"))
  }

  /** `d - timedelta(days=1)`, or OverflowError before 0001-01-01. */
  function PrevDay(d: Date): (r: Result<Date>)
    requires ValidDate(d)
    ensures r.Success? ==> ValidDate(r.value) && Before(r.value, d)
    ensures r.Failure? <==> d == Date(MinYear, 1, 1)
  {
    if d.day > 1 then Success(d.(day := d.day - 1))
    else if d.month > 1 then Success(Date(d.year, d.month - 1, DaysInMonth(d.year, d.month - 1)))
    else if d.year > MinYear then Success(Date(d.year - 1, 12, 31))
    else Failure(Error(OverflowError, "date value out of range"))
  }

  /** Stepping back one day and forward one day returns to the same date. */
  lemma PrevNextDay(d: Date)
    requires ValidDate(d) && PrevDay(d).Success?
    ensures NextDay(PrevDay(d).value) == Success(d)
  {
  }

  /** `get_prev_month(date)`: `end = date.replace(day=1) - timedelta(days=1)`,
      `start = end.replace(day=1)`. Only a date in January of year 1 has no
      previous month. */
  function PrevMonth(d: Date): (r: Result<(Date, Date)>)
    requires ValidDate(d)
    ensures r.Failure? <==> d.year == MinYear && d.month == 1
    ensures r.Success? ==>
              var (start, end) := r.value;
              && ValidDate(start) && ValidDate(end)
              && start.day == 1
              && start.year == end.year && start.month == end.month
              && end.day == DaysInMonth(end.year, end.month)
              && NextDay(end) == Success(Date(d.year, d.month, 1))
              && !Before(end, start)
  {
    var first := d.(day := 1);
    var end :- PrevDay(first);
    Success((end.(day := 1), end))
  }

  /** The window `get_prev_month` returns is the calendar month before the
      given date: its month number is one less, wrapping to December of the
      previous year. */
  lemma PrevMonthIsPreviousMonth(d: Date)
    requires ValidDate(d) && !(d.year == MinYear && d.month == 1)
    ensures var (start, end) := PrevMonth(d).value;
            if d.month == 1 then start.year == d.year - 1 && start.month == 12
            else start.year == d.year && start.month == d.month - 1
  {
  }

  /** `str(date)`: `YYYY-MM-DD`, zero-padded. */
  function IsoFormat(d: Date): (r: string)
    requires ValidDate(d)
    ensures |r| == 10 && r[4] == '-' && r[7] == '-'
  {
    ZeroPadWidth(d.year, 4);
    ZeroPadWidth(d.month, 2);
    ZeroPadWidth(d.day, 2);
    ZeroPad(d.year, 4) + "-" + ZeroPad(d.month, 2) + "-" + ZeroPad(d.day, 2)
  }

  /** A number below `10^w` pads to exactly `w` characters. */
  lemma ZeroPadWidth(n: nat, w: nat)
    requires w >= 1 && n < Pow10(w)
    ensures |ZeroPad(n, w)| == w
  {
    NatToStringLength(n, w);
  }

  /** A zero-padded number reads back as the number. */
  lemma ZeroPadValue(n: nat, w: nat)
    ensures DecimalValue(ZeroPad(n, w)) == n
  {
    var s := NatToString(n);
    DecimalRoundTrip(n);
    if |s| < w {
      LeadingZeros(w - |s|, s);
    }
  }

  /** Zeros in front of a digit string do not change its value. */
  lemma {:induction false} LeadingZeros(k: nat, s: string)
    requires forall i :: 0 <= i < |s| ==> IsDigit(s[i])
    ensures forall i :: 0 <= i < |Repeat('0', k) + s| ==> IsDigit((Repeat('0', k) + s)[i])
    ensures DecimalValue(Repeat('0', k) + s) == DecimalValue(s)
    decreases |s|
  {
    var z := Repeat('0', k) + s;
    if |s| == 0 {
      assert z == Repeat('0', k);
      AllZeros(k);
    } else {
      assert z[..|z| - 1] == Repeat('0', k) + s[..|s| - 1];
      LeadingZeros(k, s[..|s| - 1]);
    }
  }

  lemma {:induction false} AllZeros(k: nat)
    ensures DecimalValue(Repeat('0', k)) == 0
    decreases k
  {
    if k > 0 {
      assert Repeat('0', k)[..k - 1] == Repeat('0', k - 1);
      AllZeros(k - 1);
    }
  }

  /** The rendering is injective on valid dates: the year, month and day
      can be read back from their fixed positions. */
  lemma IsoFormatInjective(a: Date, b: Date)
    requires ValidDate(a) && ValidDate(b) && IsoFormat(a) == IsoFormat(b)
    ensures a == b
  {
    var sa := IsoFormat(a);
    var sb := IsoFormat(b);
    ZeroPadWidth(a.year, 4);
    ZeroPadWidth(b.year, 4);
    ZeroPadWidth(a.month, 2);
    ZeroPadWidth(b.month, 2);
    ZeroPadWidth(a.day, 2);
    ZeroPadWidth(b.day, 2);
    assert sa[..4] == ZeroPad(a.year, 4) && sb[..4] == ZeroPad(b.year, 4);
    assert sa[5..7] == ZeroPad(a.month, 2) && sb[5..7] == ZeroPad(b.month, 2);
    assert sa[8..] == ZeroPad(a.day, 2) && sb[8..] == ZeroPad(b.day, 2);
    ZeroPadValue(a.year, 4);
    ZeroPadValue(b.year, 4);
    ZeroPadValue(a.month, 2);
    ZeroPadValue(b.month, 2);
    ZeroPadValue(a.day, 2);
    ZeroPadValue(b.day, 2);
  }

  /** A number below `10^w` has at most `w` digits (`w >= 1`, as zero
      itself has one digit). */
  lemma {:induction false} NatToStringLength(n: nat, w: nat)
    requires w >= 1 && n < Pow10(w)
    ensures |NatToString(n)| <= w
    decreases w
  {
    if n >= 10 {
      assert w >= 2 && n / 10 < Pow10(w - 1);
      NatToStringLength(n / 10, w - 1);
    }
  }

  function Pow10(w: nat): nat {
    if w == 0 then 1 else 10 * Pow10(w - 1)
  }

  /** `get_prev_month` as the scripts call it: the two dates rendered. */
  function GetPrevMonth(today: Date): (r: Result<(string, string)>)
    requires ValidDate(today)
    ensures r.Failure? <==> today.year == MinYear && today.month == 1
    ensures r.Success? ==> |r.value.0| == 10 && |r.value.1| == 10
    ensures r.Success? ==> r.value.0[8..] == "01" && r.value.0[..8] == r.value.1[..8]
  {
    var (start, end) :- PrevMonth(today);
    assert ZeroPad(1, 2) == "01";
    Success((IsoFormat(start), IsoFormat(end)))
  }
}
