/** The PWM channels of the PCA9685 board, seen only through the writes
    made to them. */
module Hardware {

  /** Largest duty cycle a channel accepts (16 bits). */
  const MaxDuty: int := 65535

  /** A duty cycle inside the range a channel accepts. */
  predicate InDutyRange(v: int) {
    0 <= v <= MaxDuty
  }

  /** Every value written is a valid duty cycle. */
  predicate DutyValues(ws: seq<int>) {
    forall i :: 0 <= i < |ws| ==> InDutyRange(ws[i])
  }

  lemma DutyValuesAppend(a: seq<int>, b: seq<int>)
    requires DutyValues(a) && DutyValues(b)
    ensures DutyValues(a + b)
  {
  }

  /** One PWM channel. Instead of driving hardware it records every value
      assigned to its `duty_cycle`, oldest first. */
  class Channel {
    var log: seq<int>

    constructor ()
      ensures log == []
    {
      log := [];
    }

    /** `channel.duty_cycle = value` */
    method SetDutyCycle(value: int)
      modifies this
      ensures log == old(log) + [value]
    {
      log := log + [value];
    }
  }
}
