/**
  The two grouping keys of a five-minute reading. Both follow the
  interval-ending convention: a reading stamped `t` describes the five
  minutes before `t`, and a bucket is labelled by the instant it ends.
*/
module Buckets {

  import opened Calendar

  /** Length of one raw reading interval, in minutes. */
  const IntervalMinutes := 5

  /**
    The UTC hour bucket of a reading stamped `t` (minutes since the epoch):
    shift back one interval, truncate to the hour, add one hour. The result
    is the whole hour `b` with `b - 60 <= t - 5 < b`.
  */
  function HourBucket(t: int): (b: int)
    ensures b % MinutesPerHour == 0
    ensures b - MinutesPerHour <= t - IntervalMinutes < b
  {
    (t - IntervalMinutes) / MinutesPerHour * MinutesPerHour + MinutesPerHour
  }

  /** On the five-minute grid the bucket is `t` rounded up to a whole hour. */
  lemma HourBucketRoundsUp(t: int)
    requires t % IntervalMinutes == 0
    ensures HourBucket(t) - MinutesPerHour < t <= HourBucket(t)
    ensures t % MinutesPerHour == 0 ==> HourBucket(t) == t
  {
    var b := HourBucket(t);
    assert (b - t) % IntervalMinutes == 0;
  }

  /** ... and it is the only whole hour that ends the reading's interval. */
  lemma HourBucketUnique(t: int, b: int)
    requires t % IntervalMinutes == 0 && b % MinutesPerHour == 0
    requires b - MinutesPerHour < t <= b
    ensures HourBucket(t) == b
  {
    HourBucketRoundsUp(t);
    var h := HourBucket(t);
    assert (h - b) % MinutesPerHour == 0;
  }

  lemma HourBucketMonotone(t1: int, t2: int)
    requires t1 <= t2
    ensures HourBucket(t1) <= HourBucket(t2)
  {
    var b1, b2 := HourBucket(t1), HourBucket(t2);
    assert (b1 - b2) % MinutesPerHour == 0;
  }

  /** 01:00 belongs to the hour ending 01:00, 01:05 to the hour ending 02:00, 00:00 to itself. */
  lemma HourBucketExamples()
    ensures HourBucket(60) == 60
    ensures HourBucket(65) == 120
    ensures HourBucket(0) == 0
    ensures HourBucket(55) == 60
  {
  }

  /**
    The local-day key exactly as the aggregator derives it: the `datetime64`
    of `LST_DATE` (in minutes), less one day when `LST_TIME` is midnight.
    The key is midnight of the local day: of the previous calendar day for a
    reading stamped 00:00 (it closes that day), of `LST_DATE` otherwise.
  */
  function LocalDayStamp(lstDate: Date, lstTime: real): (r: int)
    requires ValidDate(lstDate)
    ensures r == DayNumber(LocalDay(lstDate, lstTime)) * MinutesPerDay
  {
    if lstTime == 0.0 then
      DayNumberOfPrevDay(lstDate);
      DayNumber(lstDate) * MinutesPerDay - MinutesPerDay
    else
      DayNumber(lstDate) * MinutesPerDay
  }

  /** The local calendar day a reading belongs to. */
  function LocalDay(lstDate: Date, lstTime: real): (d: Date)
    requires ValidDate(lstDate)
    ensures ValidDate(d)
  {
    if lstTime == 0.0 then PrevDay(lstDate) else lstDate
  }

  /** Local-day keys are ordered as the local days are. */
  lemma LocalDayStampOrder(d1: Date, t1: real, d2: Date, t2: real)
    requires ValidDate(d1) && ValidDate(d2)
    ensures Before(LocalDay(d1, t1), LocalDay(d2, t2)) <==> LocalDayStamp(d1, t1) < LocalDayStamp(d2, t2)
    ensures LocalDay(d1, t1) == LocalDay(d2, t2) <==> LocalDayStamp(d1, t1) == LocalDayStamp(d2, t2)
  {
    var a, b := LocalDay(d1, t1), LocalDay(d2, t2);
    DayNumberMonotone(a, b);
    var na, nb := DayNumber(a), DayNumber(b);
    if na < nb {
      assert na * MinutesPerDay < nb * MinutesPerDay;
    } else if nb < na {
      assert nb * MinutesPerDay < na * MinutesPerDay;
    }
  }

  /** 2020-03-01, 2019-03-01 and 2021-01-01 at local midnight close the previous day. */
  lemma LocalDayExamples()
    ensures LocalDay(Date(2020, 3, 1), 0.0) == Date(2020, 2, 29)
    ensures LocalDay(Date(2019, 3, 1), 0.0) == Date(2019, 2, 28)
    ensures LocalDay(Date(2021, 1, 1), 0.0) == Date(2020, 12, 31)
    ensures LocalDay(Date(2020, 3, 15), 0.0) == Date(2020, 3, 14)
    ensures LocalDay(Date(2020, 3, 15), 5.0) == Date(2020, 3, 15)
  {
  }

}
