/** One pass of the `while True` loop of `run_clock`: read the time, turn it
    into fractional second, minute and hour, look up a duty cycle for each
    dial and ease each needle there from where the previous pass left it. */
module ClockLoop {
  import opened Hardware
  import opened CalibrationStore
  import opened Interpolator
  import opened MotionController

  /** The fields of `datetime.datetime.now()` that the clock reads. */
  datatype Now = Now(hour: int, minute: int, second: int, microsecond: int)

  /** A time of day as `datetime` produces it. */
  predicate ValidNow(now: Now) {
    && 0 <= now.hour < 24 && 0 <= now.minute < 60
    && 0 <= now.second < 60 && 0 <= now.microsecond < 1000000
  }

  /** `now.hour % 12 or 12`: the hour on a twelve-hour face, 12 instead of
      0 (the modulus is positive, so Python's `%` agrees with Dafny's). */
  function HourBase(hour: int): (h: int)
    ensures 1 <= h <= 12
    ensures h % 12 == hour % 12
    ensures 1 <= hour <= 12 ==> h == hour
  {
    if hour % 12 == 0 then 12 else hour % 12
  }

  /** `current_second`: the second with its fraction. */
  function CurrentSecond(now: Now): real {
    now.second as real + now.microsecond as real / 1000000.0
  }

  /** `current_minute`: the minute with its fraction. */
  function CurrentMinute(now: Now): real {
    now.minute as real + CurrentSecond(now) / 60.0
  }

  /** `current_hour`: the twelve-hour-face hour with its fraction. */
  function CurrentHour(now: Now): real {
    HourBase(now.hour) as real + CurrentMinute(now) / 60.0
  }

  /** The fractional second and minute lie in [0, 60) and the fractional
      hour in [1, 13), so the hour dial's value never reaches key 13 and
      never falls below key 1. */
  lemma TimesInRange(now: Now)
    requires ValidNow(now)
    ensures 0.0 <= CurrentSecond(now) < 60.0
    ensures 0.0 <= CurrentMinute(now) < 60.0
    ensures 1.0 <= CurrentHour(now) < 13.0
    ensures now.second as real <= CurrentSecond(now) < now.second as real + 1.0
    ensures now.minute as real <= CurrentMinute(now) < now.minute as real + 1.0
  {
    var us := now.microsecond as real / 1000000.0;
    assert 0.0 <= us < 1.0;
    var s := CurrentSecond(now);
    assert 0.0 <= s / 60.0 < 1.0;
    var m := CurrentMinute(now);
    assert 0.0 <= m / 60.0 < 1.0;
  }

  /** The three dials' duty cycles. */
  datatype Pwms = Pwms(second: int, minute: int, hour: int)

  /** What `run_clock` needs of the loaded document: the three dials, none
      of them empty (`calibration_data[...]` raises on a missing one and
      `keys[-1]` on an empty one). */
  predicate Ready(calibration: CalibrationData) {
    && SecondsLabel in calibration && calibration[SecondsLabel].Keys != {}
    && MinutesLabel in calibration && calibration[MinutesLabel].Keys != {}
    && HoursLabel in calibration && calibration[HoursLabel].Keys != {}
  }

  /** The duty cycles one pass aims for at time `now`. */
  function Targets(calibration: CalibrationData, now: Now): Pwms
    requires Ready(calibration)
  {
    Pwms(Interpolate(calibration[SecondsLabel], CurrentSecond(now)),
         Interpolate(calibration[MinutesLabel], CurrentMinute(now)),
         Interpolate(calibration[HoursLabel], CurrentHour(now)))
  }

  /** With a document of valid duty cycles, a pass aims only at valid duty
      cycles, and easing from valid values writes only valid values. */
  lemma TickInRange(calibration: CalibrationData, now: Now, last: Pwms)
    requires Ready(calibration) && DutyData(calibration)
    requires InDutyRange(last.second) && InDutyRange(last.minute) && InDutyRange(last.hour)
    ensures var t := Targets(calibration, now);
      && InDutyRange(t.second) && InDutyRange(t.minute) && InDutyRange(t.hour)
      && DutyValues(EaseWrites(last.second, t.second))
      && DutyValues(EaseWrites(last.minute, t.minute))
      && DutyValues(EaseWrites(last.hour, t.hour))
  {
    assert DutyTable(calibration[SecondsLabel]) && DutyTable(calibration[MinutesLabel]) && DutyTable(calibration[HoursLabel]);
    InterpolateInRange(calibration[SecondsLabel], CurrentSecond(now), 0, MaxDuty);
    InterpolateInRange(calibration[MinutesLabel], CurrentMinute(now), 0, MaxDuty);
    InterpolateInRange(calibration[HoursLabel], CurrentHour(now), 0, MaxDuty);
    var t := Targets(calibration, now);
    EaseStaysBetween(last.second, t.second);
    EaseStaysBetween(last.minute, t.minute);
    EaseStaysBetween(last.hour, t.hour);
  }

  /** Each needle's last write in a pass is exactly its target, so the next
      pass really starts where the needle stands. */
  lemma TickEndsAtTargets(calibration: CalibrationData, now: Now, last: Pwms)
    requires Ready(calibration)
    ensures var t := Targets(calibration, now);
      && EaseWrites(last.second, t.second)[Steps - 1] == t.second
      && EaseWrites(last.minute, t.minute)[Steps - 1] == t.minute
      && EaseWrites(last.hour, t.hour)[Steps - 1] == t.hour
  {
    var t := Targets(calibration, now);
    EaseEndsAtTarget(last.second, t.second);
    EaseEndsAtTarget(last.minute, t.minute);
    EaseEndsAtTarget(last.hour, t.hour);
  }

  /** One dial of a pass: look up the dial's duty cycle for `value` and
      ease its needle there from `last`. */
  method DriveDial(channel: Channel, table: Table, value: real, last: int) returns (pwm: int)
    requires table.Keys != {}
    modifies channel
    ensures pwm == Interpolate(table, value)
    ensures channel.log == old(channel.log) + EaseWrites(last, pwm)
  {
    pwm := InterpolatePwm(table, value);
    MoveNeedleSmoothly(channel, last, pwm);
  }

  /** The running clock: the loaded document, the three needles' channels
      and the `last_*_pwm` variables of `run_clock`. */
  class Clock {
    const calibration: CalibrationData
    const secondsChannel: Channel
    const minutesChannel: Channel
    const hoursChannel: Channel
    var lastSecondPwm: int
    var lastMinutePwm: int
    var lastHourPwm: int

    /** The state of `run_clock` before its first pass: every needle is
        taken to start from 0. */
    constructor (calibration: CalibrationData, secondsChannel: Channel, minutesChannel: Channel, hoursChannel: Channel)
      ensures this.calibration == calibration
      ensures this.secondsChannel == secondsChannel && this.minutesChannel == minutesChannel && this.hoursChannel == hoursChannel
      ensures lastSecondPwm == 0 && lastMinutePwm == 0 && lastHourPwm == 0
    {
      this.calibration := calibration;
      this.secondsChannel := secondsChannel;
      this.minutesChannel := minutesChannel;
      this.hoursChannel := hoursChannel;
      lastSecondPwm := 0;
      lastMinutePwm := 0;
      lastHourPwm := 0;
    }

    /** One pass of the loop at time `now`: each needle eases from its
        previous target to the new one on its own channel, and the new
        targets become the previous ones. The pause after the pass is not
        modelled. */
    method Tick(now: Now)
      requires Ready(calibration)
      requires secondsChannel != minutesChannel && minutesChannel != hoursChannel && secondsChannel != hoursChannel
      modifies this, secondsChannel, minutesChannel, hoursChannel
      ensures Pwms(lastSecondPwm, lastMinutePwm, lastHourPwm) == Targets(calibration, now)
      ensures secondsChannel.log == old(secondsChannel.log) + EaseWrites(old(lastSecondPwm), lastSecondPwm)
      ensures minutesChannel.log == old(minutesChannel.log) + EaseWrites(old(lastMinutePwm), lastMinutePwm)
      ensures hoursChannel.log == old(hoursChannel.log) + EaseWrites(old(lastHourPwm), lastHourPwm)
    {
      var secondPwm := DriveDial(secondsChannel, calibration[SecondsLabel], CurrentSecond(now), lastSecondPwm);
      var minutePwm := DriveDial(minutesChannel, calibration[MinutesLabel], CurrentMinute(now), lastMinutePwm);
      var hourPwm := DriveDial(hoursChannel, calibration[HoursLabel], CurrentHour(now), lastHourPwm);
      lastSecondPwm, lastMinutePwm, lastHourPwm := secondPwm, minutePwm, hourPwm;
    }
  }
}
