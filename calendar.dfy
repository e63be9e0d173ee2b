/** Wall-clock arithmetic on instants counted in UTC seconds: the part of
    QDateTime, QDate and QTime that the clock service relies on. Division
    and remainder are Euclidean, so instants before 1970 fall on the right
    day and second, as they do for QDateTime. */
module Calendar {
  const SecondsPerMinute: int := 60
  const MinutesPerHour: int := 60
  const SecondsPerHour: int := 3600
  const SecondsPerDay: int := 86400

  /** A wall-clock reading without a zone: the calendar day, counted in days
      from 1970-01-01 (a QDate), and the time of day, counted in seconds from
      that day's midnight (a QTime). */
  datatype DateTime = DateTime(date: int, time: int) {
    predicate Valid() {
      0 <= time < SecondsPerDay
    }

    /** The minute field of the time of day (QTime::minute): the minute
        within the current hour. */
    function Minute(): (m: int)
      requires Valid()
      ensures 0 <= m < MinutesPerHour
      ensures m * SecondsPerMinute <= time % SecondsPerHour < m * SecondsPerMinute + SecondsPerMinute
    {
      time / SecondsPerMinute % MinutesPerHour
    }
  }

  /** The instant a reading denotes, in seconds. */
  function ToSeconds(d: DateTime): (x: int) {
    d.date * SecondsPerDay + d.time
  }

  /** The reading of an instant: its day and its second within that day. */
  function FromSeconds(x: int): (r: DateTime)
    ensures r.Valid() && ToSeconds(r) == x
  {
    DateTime(x / SecondsPerDay, x % SecondsPerDay)
  }

  /** A valid reading is the reading of the instant it denotes, so instants
      and valid readings are in one-to-one correspondence. */
  lemma FromSecondsOfReading(d: DateTime)
    requires d.Valid()
    ensures FromSeconds(ToSeconds(d)) == d
  {
    var r := FromSeconds(ToSeconds(d));
    assert (r.date - d.date) * SecondsPerDay == d.time - r.time;
  }

  /** The minute field of an instant's reading is its minute within the hour,
      whichever day it falls on. */
  lemma MinuteOfInstant(x: int)
    ensures FromSeconds(x).Minute() == x % SecondsPerHour / SecondsPerMinute
  {
    var r := FromSeconds(x);
    assert x == r.date * 24 * SecondsPerHour + r.time;
    assert r.time % SecondsPerHour == x % SecondsPerHour;
  }

  /** Quotient and remainder by a minute are those of any decomposition
      with a remainder in range. */
  lemma SplitMinute(x: int, q: int, r: int)
    requires 0 <= r < SecondsPerMinute && x == q * SecondsPerMinute + r
    ensures x / SecondsPerMinute == q && x % SecondsPerMinute == r
  {
  }

  /** Quotient and remainder by an hour, likewise. */
  lemma SplitHour(x: int, q: int, r: int)
    requires 0 <= r < SecondsPerHour && x == q * SecondsPerHour + r
    ensures x / SecondsPerHour == q && x % SecondsPerHour == r
  {
  }

  /** Quotient and remainder by a day, likewise. */
  lemma SplitDay(x: int, q: int, r: int)
    requires 0 <= r < SecondsPerDay && x == q * SecondsPerDay + r
    ensures x / SecondsPerDay == q && x % SecondsPerDay == r
  {
  }

  /** Shifting an instant by a whole number of hours keeps its minute field. */
  lemma WholeHourShiftKeepsMinute(x: int, offset: int)
    requires offset % SecondsPerHour == 0
    ensures FromSeconds(x + offset).Minute() == FromSeconds(x).Minute()
  {
    MinuteOfInstant(x);
    MinuteOfInstant(x + offset);
    var k, h, r := offset / SecondsPerHour, x / SecondsPerHour, x % SecondsPerHour;
    assert x + offset == (h + k) * SecondsPerHour + r;
    SplitHour(x + offset, h + k, r);
  }

  /** Shifting an instant by whole minutes that are not whole hours always
      changes its minute field. */
  lemma PartHourShiftChangesMinute(x: int, offset: int)
    requires offset % SecondsPerMinute == 0 && offset % SecondsPerHour != 0
    ensures FromSeconds(x + offset).Minute() != FromSeconds(x).Minute()
  {
    MinuteOfInstant(x);
    MinuteOfInstant(x + offset);
    var h, r := x / SecondsPerHour, x % SecondsPerHour;
    var a, s := r / SecondsPerMinute, r % SecondsPerMinute;
    assert x == h * SecondsPerHour + a * SecondsPerMinute + s;
    var k, o := offset / SecondsPerHour, offset % SecondsPerHour;
    var b, c := o / SecondsPerMinute, o % SecondsPerMinute;
    assert offset == (k * MinutesPerHour + b) * SecondsPerMinute + c;
    SplitMinute(offset, k * MinutesPerHour + b, c);
    assert c == 0 && 0 < b < MinutesPerHour;
    assert offset == k * SecondsPerHour + b * SecondsPerMinute;
    if a + b < MinutesPerHour {
      assert x + offset == (h + k) * SecondsPerHour + ((a + b) * SecondsPerMinute + s);
      SplitHour(x + offset, h + k, (a + b) * SecondsPerMinute + s);
      SplitMinute((a + b) * SecondsPerMinute + s, a + b, s);
    } else {
      assert x + offset == (h + k + 1) * SecondsPerHour + ((a + b - MinutesPerHour) * SecondsPerMinute + s);
      SplitHour(x + offset, h + k + 1, (a + b - MinutesPerHour) * SecondsPerMinute + s);
      SplitMinute((a + b - MinutesPerHour) * SecondsPerMinute + s, a + b - MinutesPerHour, s);
    }
  }

  /** Two instants in the same minute since the epoch have the same reading
      of day and minute. */
  lemma SameEpochMinute(x: int, y: int)
    requires x / SecondsPerMinute == y / SecondsPerMinute
    ensures FromSeconds(x).Minute() == FromSeconds(y).Minute()
    ensures FromSeconds(x).date == FromSeconds(y).date
  {
    SameEpochMinuteSide(x);
    SameEpochMinuteSide(y);
  }

  /** The day and minute field of an instant depend only on its minute
      since the epoch. */
  lemma SameEpochMinuteSide(x: int)
    ensures FromSeconds(x).Minute() == x / SecondsPerMinute % MinutesPerHour
    ensures FromSeconds(x).date == x / SecondsPerMinute / 1440
  {
    MinuteOfInstant(x);
    var q, s := x / SecondsPerMinute, x % SecondsPerMinute;
    var h, m := q / MinutesPerHour, q % MinutesPerHour;
    var d, e := h / 24, h % 24;
    assert q / 1440 == d by {
      assert q == d * 1440 + (e * MinutesPerHour + m);
    }
    assert x == h * SecondsPerHour + (m * SecondsPerMinute + s);
    SplitHour(x, h, m * SecondsPerMinute + s);
    SplitMinute(m * SecondsPerMinute + s, m, s);
    assert x == d * SecondsPerDay + (e * SecondsPerHour + m * SecondsPerMinute + s);
    SplitDay(x, d, e * SecondsPerHour + m * SecondsPerMinute + s);
  }
}
