/**
 * app/focus.tsx: the countdown screen. A time of day picked in the time
 * picker becomes the countdown's duration in seconds; start, stop and reset
 * drive the timer, and a new `key` remounts it from the full duration.
 */
module Focus {
  type Hour = h: int | 0 <= h < 24
  type Minute = m: int | 0 <= m < 60
  type Second = s: int | 0 <= s < 60

  const SecondsPerDay: int := 86400

  /** `hours * 3600 + minutes * 60 + seconds`: a duration shorter than a day. */
  function SelectedTime(hours: Hour, minutes: Minute, seconds: Second): (r: int)
    ensures 0 <= r < SecondsPerDay
    ensures r / 3600 == hours && r % 3600 / 60 == minutes && r % 60 == seconds
  {
    hours * 3600 + minutes * 60 + seconds
  }

  /** Different picked times give different durations. */
  lemma SelectedTimeInjective(h1: Hour, m1: Minute, s1: Second, h2: Hour, m2: Minute, s2: Second)
    requires SelectedTime(h1, m1, s1) == SelectedTime(h2, m2, s2)
    ensures h1 == h2 && m1 == m2 && s1 == s2
  {
  }

  /** The screen's state: the `currentTime` ref, the timer `key`, the duration `time` and `isRunning`. */
  class CountdownScreen {
    var currentTime: int
    var key: int
    var time: int
    var isRunning: bool

    /** The timer always counts down from the last picked duration. */
    ghost predicate Valid()
      reads this
    {
      0 <= currentTime < SecondsPerDay && time == currentTime && key >= 0
    }

    constructor ()
      ensures Valid()
      ensures currentTime == 0 && key == 0 && time == 0 && !isRunning
    {
      currentTime := 0;
      key := 0;
      time := 0;
      isRunning := false;
    }

    /** `onConfirmSelectTime`: the picked time becomes the duration and the timer restarts from it. */
    method OnConfirmSelectTime(hours: Hour, minutes: Minute, seconds: Second)
      requires Valid()
      modifies this
      ensures Valid()
      ensures currentTime == SelectedTime(hours, minutes, seconds) && time == currentTime
      ensures key == old(key) + 1 && isRunning == old(isRunning)
    {
      var selectedTime := hours * 3600 + minutes * 60 + seconds;
      currentTime := selectedTime;
      time := selectedTime;
      key := key + 1;
    }

    /** `handleStart`. */
    method HandleStart()
      requires Valid()
      modifies this
      ensures Valid() && isRunning
      ensures currentTime == old(currentTime) && time == old(time) && key == old(key)
    {
      isRunning := true;
    }

    /** `handleStop`: pauses without resetting. */
    method HandleStop()
      requires Valid()
      modifies this
      ensures Valid() && !isRunning
      ensures currentTime == old(currentTime) && time == old(time) && key == old(key)
    {
      isRunning := false;
    }

    /** `handleReset`: back to the picked duration, remounted and stopped. */
    method HandleReset()
      requires Valid()
      modifies this
      ensures Valid() && !isRunning
      ensures time == old(currentTime) && currentTime == old(currentTime)
      ensures key == old(key) + 1
    {
      time := currentTime;
      key := key + 1;
      isRunning := false;
    }
  }
}
