/**
 The commit-date picker of cola/widgets/commitmsg.py: the mapping between
 the time-of-day slider and seconds since midnight, `tick_time`, and the
 dialog's date, time and slider fields.
 */
module CommitDate {
  import opened Wrappers

  /** The slider runs over 0..SliderRange. */
  const SliderRange := 500
  const SecondsPerDay := 86400
  /** The slider's full range maps onto 00:00:00 .. 23:59:59. */
  const SecondsRange := SecondsPerDay - 1
  /** The seconds one slider step stands for, rounded down (172, that is 2m52s). */
  const OneTick := SecondsRange / SliderRange

  /**
   `_update_time_from_slider`: the seconds since midnight a slider value
   selects. The source computes `int(value / 500 * 86399)` in floating point;
   86399 and 500 are coprime, so for values in range the float product is
   never within rounding error of an integer it does not equal, and the
   truncation is exactly the integer quotient below.
   */
  function SliderToSeconds(value: int): (seconds: int)
    requires 0 <= value <= SliderRange
    ensures 0 <= seconds <= SecondsRange
    ensures seconds * SliderRange <= value * SecondsRange < (seconds + 1) * SliderRange
  {
    value * SecondsRange / SliderRange
  }

  /** `_update_slider_from_time`: the slider value for a time of day (the same float argument applies). */
  function SecondsToSlider(seconds: int): (value: int)
    requires 0 <= seconds <= SecondsRange
    ensures 0 <= value <= SliderRange
    ensures value * SecondsRange <= seconds * SliderRange < (value + 1) * SecondsRange
  {
    SliderRange * seconds / SecondsRange
  }

  /** The seconds since midnight of a clock time. */
  function TimeToSeconds(hour: int, minute: int, second: int): (seconds: int)
    requires 0 <= hour < 24 && 0 <= minute < 60 && 0 <= second < 60
    ensures 0 <= seconds <= SecondsRange
    ensures seconds / 3600 == hour && seconds / 60 % 60 == minute && seconds % 60 == second
  {
    60 * 60 * hour + 60 * minute + second
  }

  /** The slider's ends are midnight and 23:59:59. */
  lemma SliderEnds()
    ensures SliderToSeconds(0) == 0 && SliderToSeconds(SliderRange) == SecondsRange
    ensures SecondsToSlider(0) == 0 && SecondsToSlider(SecondsRange) == SliderRange
  {
  }

  lemma SliderToSecondsMonotone(v1: int, v2: int)
    requires 0 <= v1 <= v2 <= SliderRange
    ensures SliderToSeconds(v1) <= SliderToSeconds(v2)
  {
    var s1, s2 := SliderToSeconds(v1), SliderToSeconds(v2);
    assert s1 * SliderRange <= v1 * SecondsRange <= v2 * SecondsRange < (s2 + 1) * SliderRange;
  }

  lemma SecondsToSliderMonotone(t1: int, t2: int)
    requires 0 <= t1 <= t2 <= SecondsRange
    ensures SecondsToSlider(t1) <= SecondsToSlider(t2)
  {
    var v1, v2 := SecondsToSlider(t1), SecondsToSlider(t2);
    assert v1 * SecondsRange <= t1 * SliderRange <= t2 * SliderRange < (v2 + 1) * SecondsRange;
  }

  /** Moving the slider and reading it back from the time it set loses at most one step. */
  lemma SliderRoundTrip(value: int)
    requires 0 <= value <= SliderRange
    ensures value - 1 <= SecondsToSlider(SliderToSeconds(value)) <= value
  {
    var s := SliderToSeconds(value);
    var v := SecondsToSlider(s);
    assert v * SecondsRange <= s * SliderRange <= value * SecondsRange;
    assert (value - 1) * SecondsRange < s * SliderRange < (v + 1) * SecondsRange by {
      assert value * SecondsRange < (s + 1) * SliderRange;
    }
  }

  /** Setting a time and reading it back through the slider moves it back by at most one step. */
  lemma SecondsRoundTrip(seconds: int)
    requires 0 <= seconds <= SecondsRange
    ensures seconds - OneTick - 1 <= SliderToSeconds(SecondsToSlider(seconds)) <= seconds
  {
    var v := SecondsToSlider(seconds);
    var s := SliderToSeconds(v);
    assert s * SliderRange <= v * SecondsRange <= seconds * SliderRange;
    assert seconds * SliderRange < (v + 1) * SecondsRange;
    assert v * SecondsRange < (s + 1) * SliderRange;
    assert seconds * SliderRange < (s + 1) * SliderRange + SecondsRange;
  }

  /** A date together with a time of day, in seconds since midnight. */
  datatype DateTime = DateTime(day: int, second: int)

  predicate ValidDateTime(dt: DateTime)
  {
    0 <= dt.second < SecondsPerDay
  }

  /** The absolute position of `dt` on the time line, in seconds. */
  function Instant(dt: DateTime): int
  {
    dt.day * SecondsPerDay + dt.second
  }

  /** `tick_time`: the date and time one slider step later, carrying into the next day. */
  function TickTime(dt: DateTime): (r: DateTime)
    requires ValidDateTime(dt)
    ensures ValidDateTime(r)
    ensures Instant(r) == Instant(dt) + OneTick
  {
    var s := dt.second + OneTick;
    if s < SecondsPerDay then DateTime(dt.day, s) else DateTime(dt.day + 1, s - SecondsPerDay)
  }

  /** One step of `tick_time` is 172 seconds, and 500 of them stay within one day. */
  lemma OneTickValue()
    ensures OneTick == 172 && OneTick * SliderRange <= SecondsRange < (OneTick + 1) * SliderRange
  {
  }

  /**
   The date picker's state: the calendar's date, the time field and the
   slider. Each update of one of them writes the others with their change
   notifications blocked, so the slider and the time field always agree to
   within one step.
   */
  class CommitDateDialog {
    var date: int
    var time: int
    var slider: int

    ghost predicate Valid()
      reads this
    {
      0 <= time <= SecondsRange && 0 <= slider <= SliderRange &&
      SecondsToSlider(time) <= slider <= SecondsToSlider(time) + 1
    }

    /** Opens on `commitDatetime`, or one step after `latest` (the latest commit's time) when there is none. */
    constructor (commitDatetime: Option<DateTime>, latest: DateTime)
      requires ValidDateTime(latest)
      requires commitDatetime.Some? ==> ValidDateTime(commitDatetime.value)
      ensures Valid()
      ensures var dt := if commitDatetime.Some? then commitDatetime.value else TickTime(latest);
        date == dt.day && time == dt.second && slider == SecondsToSlider(dt.second)
    {
      var dt := if commitDatetime.Some? then commitDatetime.value else TickTime(latest);
      date := dt.day;
      time := dt.second;
      slider := SecondsToSlider(dt.second);
    }

    /** The slider moved to `value`: the time field follows it. */
    method SliderChanged(value: int)
      requires Valid()
      requires 0 <= value <= SliderRange
      modifies this
      ensures Valid()
      ensures slider == value && time == SliderToSeconds(value) && date == old(date)
    {
      slider := value;
      time := SliderToSeconds(value);
      SliderRoundTrip(value);
    }

    /** The time field changed to `hour:minute:second`: the slider follows it. */
    method TimeChanged(hour: int, minute: int, second: int)
      requires Valid()
      requires 0 <= hour < 24 && 0 <= minute < 60 && 0 <= second < 60
      modifies this
      ensures Valid()
      ensures time == TimeToSeconds(hour, minute, second) && slider == SecondsToSlider(time) && date == old(date)
    {
      time := TimeToSeconds(hour, minute, second);
      slider := SecondsToSlider(time);
    }

    /** `_reset_commit_time`: date, time and slider move to `latest`, the latest commit's time. */
    method ResetCommitTime(latest: DateTime)
      requires Valid()
      requires ValidDateTime(latest)
      modifies this
      ensures Valid()
      ensures date == latest.day && time == latest.second && slider == SecondsToSlider(latest.second)
    {
      time := latest.second;
      date := latest.day;
      slider := SecondsToSlider(latest.second);
    }

    /** `datetime`: the date and time the dialog shows. */
    function Chosen(): (dt: DateTime)
      reads this
      requires Valid()
      ensures ValidDateTime(dt) && dt.day == date && dt.second == time
    {
      DateTime(date, time)
    }
  }
}
