/** Conversion between a timestamp (64-bit seconds and nanoseconds since 1970) and a date
    (an interval since 2001).  Intervals are exact reals here, not doubles. */
module TimestampConversion {

  const MIN := -0x8000_0000_0000_0000
  const MAX := 0x7FFF_FFFF_FFFF_FFFF
  const GIGA := 1_000_000_000
  const SINCE_1970 := 978_307_200

  newtype Int64 = x: int | MIN <= x <= MAX
  newtype Int32 = x: int | -0x8000_0000 <= x <= 0x7FFF_FFFF

  datatype Timestamp = Null | Timestamp(seconds: Int64, nanoseconds: Int32)

  // timeIntervalSinceReferenceDate, which may not be a number; no date at all is NoDate
  datatype Date = NoDate | NotANumber | Date(interval: real)

  // What the constructor of Timestamp asserts.
  predicate Valid(ts: Timestamp) {
    ts.Timestamp? ==>
      && -GIGA < ts.nanoseconds as int < GIGA
      && ((ts.seconds >= 0 && ts.nanoseconds >= 0) || (ts.seconds <= 0 && ts.nanoseconds <= 0))
  }

  // ---------- meaning ----------

  // Nanoseconds since 1970.
  function Nanos(ts: Timestamp): int
    requires ts.Timestamp?
  {
    ts.seconds as int * GIGA + ts.nanoseconds as int
  }

  // Towards zero, as a cast does.
  function Trunc(x: real): int {
    if x >= 0.0 then x.Floor else -((-x).Floor)
  }

  // The whole nanoseconds since 1970 of an interval since 2001, truncated towards 2001.
  function NanosOf(interval: real): int {
    Trunc(interval * GIGA as real) + SINCE_1970 * GIGA
  }

  predicate TooLate(interval: real) {
    interval >= (MAX - SINCE_1970) as real
  }

  // The source subtracts the offset from the interval where the other bound adds it.
  predicate TooEarly(interval: real) {
    interval - SINCE_1970 as real < MIN as real
  }

  // RLMTimestampToNSDate
  function ToDate(ts: Timestamp): Date {
    if ts.Null? then NoDate
    else Date(ts.seconds as real - SINCE_1970 as real + ts.nanoseconds as real / GIGA as real)
  }

  // ---------- RLMTimestampForNSDate ----------

  // The result is the one valid timestamp with the truncated nanoseconds of the date; the
  // newtypes show that no cast or addition overflows.
  method ForDate(date: Date) returns (ts: Timestamp)
    ensures ts == TimestampOf(date)
  {
    if date == NoDate {
      return Null;
    }
    if date == NotANumber {
      return Timestamp(0, 0);
    }
    var interval := date.interval;
    if interval >= (MAX - SINCE_1970) as real {
      return Timestamp(MAX as Int64, 999_999_999);
    }
    if interval - SINCE_1970 as real < MIN as real {
      return Timestamp(MIN as Int64, -999_999_999);
    }
    TruncBounds(interval);
    var seconds := Trunc(interval) as Int64;
    TruncBounds((interval - seconds as real) * GIGA as real);
    var nanoseconds := Trunc((interval - seconds as real) * GIGA as real) as Int32;
    TruncShift(interval, seconds as int);
    seconds := seconds + SINCE_1970 as Int64;
    if nanoseconds < 0 && seconds > 0 {
      nanoseconds := nanoseconds + GIGA as Int32;
      seconds := seconds - 1;
    }
    ts := Timestamp(seconds, nanoseconds);
    OneValid(ts, TimestampOf(date));
  }

  // The specification: split the whole nanoseconds by division that truncates towards zero.
  function TimestampOf(date: Date): (ts: Timestamp)
    ensures Valid(ts)
    ensures date.Date? && !TooLate(date.interval) && !TooEarly(date.interval)
        ==> ts.Timestamp? && Nanos(ts) == NanosOf(date.interval)
  {
    if date.NoDate? then Null
    else if date.NotANumber? then Timestamp(0, 0)
    else if TooLate(date.interval) then Timestamp(MAX as Int64, 999_999_999)
    else if TooEarly(date.interval) then Timestamp(MIN as Int64, -999_999_999)
    else
      var n := NanosOf(date.interval);
      NanosBounds(date.interval);
      if n >= 0 then Timestamp((n / GIGA) as Int64, (n % GIGA) as Int32)
      else Timestamp((-((-n) / GIGA)) as Int64, (-((-n) % GIGA)) as Int32)
  }

  lemma TruncBounds(x: real)
    ensures x >= 0.0 ==> 0 <= Trunc(x) && Trunc(x) as real <= x < (Trunc(x) + 1) as real
    ensures x < 0.0 ==> Trunc(x) <= 0 && (Trunc(x) - 1) as real < x <= Trunc(x) as real
  {
  }

  lemma NanosBounds(interval: real)
    requires !TooLate(interval) && !TooEarly(interval)
    ensures (MIN + 2 * SINCE_1970) * GIGA <= NanosOf(interval) < MAX * GIGA
  {
    TruncBounds(interval * GIGA as real);
  }

  lemma TruncShift(x: real, k: int)
    requires k == Trunc(x)
    ensures Trunc(x * GIGA as real) == k * GIGA + Trunc((x - k as real) * GIGA as real)
  {
    TruncBounds(x);
    TruncBounds(x * GIGA as real);
    TruncBounds((x - k as real) * GIGA as real);
  }

  // A number of nanoseconds has one valid timestamp.
  lemma OneValid(a: Timestamp, b: Timestamp)
    requires a.Timestamp? && b.Timestamp? && Valid(a) && Valid(b) && Nanos(a) == Nanos(b)
    ensures a == b
  {
  }

  // ---------- round trips ----------

  // Converting to a date and back gives the same timestamp exactly when it lies below the
  // last second and not before 2 * 31 years after the first, or is one of the two extremes.
  lemma TimestampRoundTrip(ts: Timestamp)
    requires Valid(ts)
    ensures TimestampOf(ToDate(ts)) == ts
       <==> || ts.Null?
            || ((MIN + 2 * SINCE_1970) * GIGA <= Nanos(ts) && ts.seconds as int < MAX)
            || ts == Timestamp(MAX as Int64, 999_999_999)
            || ts == Timestamp(MIN as Int64, -999_999_999)
  {
    if ts.Timestamp? {
      var x := ToDate(ts).interval;
      assert x * GIGA as real == (Nanos(ts) - SINCE_1970 * GIGA) as real;
      TruncBounds(x * GIGA as real);
      assert NanosOf(x) == Nanos(ts);
      if !TooLate(x) && !TooEarly(x) {
        OneValid(ts, TimestampOf(ToDate(ts)));
      }
    }
  }

  // Converting a date and back moves it by less than a nanosecond, towards 2001.
  lemma DateRoundTrip(interval: real)
    requires !TooLate(interval) && !TooEarly(interval)
    ensures var back := ToDate(TimestampOf(Date(interval))).interval;
            if interval >= 0.0 then 0.0 <= (interval - back) * GIGA as real < 1.0
            else 0.0 <= (back - interval) * GIGA as real < 1.0
  {
    var ts := TimestampOf(Date(interval));
    var back := ToDate(ts).interval;
    assert back * GIGA as real == (Nanos(ts) - SINCE_1970 * GIGA) as real;
    TruncBounds(interval * GIGA as real);
  }

  // The reference date is 31 years, eight of them leap years, after 1970.
  lemma ReferenceDate()
    ensures SINCE_1970 == (31 * 365 + 8) * 24 * 60 * 60
    ensures ToDate(Timestamp(SINCE_1970 as Int64, 0)) == Date(0.0) && TimestampOf(Date(0.0)) == Timestamp(SINCE_1970 as Int64, 0)
    ensures ToDate(Timestamp(0, 0)) == Date(-(SINCE_1970 as real))
  {
  }

  // Dates that are clamped become the last and the first of all valid timestamps, and what is
  // not a number becomes the start of 1970.
  lemma ClampedToExtremes(date: Date, other: Timestamp)
    requires Valid(other) && other.Timestamp?
    ensures date.Date? && TooLate(date.interval) ==> Nanos(other) <= Nanos(TimestampOf(date))
    ensures date.Date? && TooEarly(date.interval) && !TooLate(date.interval) ==> Nanos(TimestampOf(date)) <= Nanos(other)
    ensures date.NotANumber? ==> Nanos(TimestampOf(date)) == 0
  {
  }

  // Conversion keeps the order of dates, clamped or not.
  lemma ConversionIsMonotone(x: real, y: real)
    requires x <= y
    ensures Nanos(TimestampOf(Date(x))) <= Nanos(TimestampOf(Date(y)))
  {
    TruncBounds(x * GIGA as real);
    TruncBounds(y * GIGA as real);
    assert x * GIGA as real <= y * GIGA as real;
    if !TooLate(x) && !TooEarly(x) {
      NanosBounds(x);
    }
    if !TooLate(y) && !TooEarly(y) {
      NanosBounds(y);
    }
  }
}
