/** `move_needle_smoothly`: ease a needle from one duty cycle to another in a
    fixed number of accumulated steps, in exact real arithmetic. */
module MotionController {
  import opened PyInt
  import opened Hardware

  /** Number of writes per move, whatever the duration. */
  const Steps: nat := 50

  /** `current_pwm` after k steps of (endPwm - startPwm) / Steps each. */
  function Accumulator(startPwm: int, endPwm: int, k: nat): real {
    startPwm as real + k as real * ((endPwm - startPwm) as real / Steps as real)
  }

  /** The k-th write (from 1): the accumulator truncated as `int(current_pwm)`
      does. */
  function EaseWrite(startPwm: int, endPwm: int, k: nat): int {
    Trunc(Accumulator(startPwm, endPwm, k))
  }

  /** The values one move writes to its channel, in order. */
  function EaseWrites(startPwm: int, endPwm: int): (ws: seq<int>)
    ensures |ws| == Steps
    ensures forall k :: 0 <= k < Steps ==> ws[k] == EaseWrite(startPwm, endPwm, k + 1)
  {
    seq(Steps, k requires 0 <= k < Steps => EaseWrite(startPwm, endPwm, k + 1))
  }

  /** `move_needle_smoothly(channel, start_pwm, end_pwm, duration)`: the
      channel receives exactly the writes of `EaseWrites`, appended to what
      it received before. The pause between writes is not modelled. */
  method MoveNeedleSmoothly(channel: Channel, startPwm: int, endPwm: int)
    modifies channel
    ensures channel.log == old(channel.log) + EaseWrites(startPwm, endPwm)
  {
    ghost var writes := EaseWrites(startPwm, endPwm);
    var pwmStep := (endPwm - startPwm) as real / Steps as real;
    var currentPwm := startPwm as real;
    for k := 0 to Steps
      invariant currentPwm == startPwm as real + k as real * pwmStep
      invariant channel.log == old(channel.log) + writes[..k]
    {
      currentPwm := currentPwm + pwmStep;
      assert currentPwm == startPwm as real + (k + 1) as real * pwmStep;
      assert currentPwm == Accumulator(startPwm, endPwm, k + 1);
      channel.SetDutyCycle(Trunc(currentPwm));
      assert writes[..k + 1] == writes[..k] + [writes[k]];
    }
    assert writes[..Steps] == writes;
  }

  // ---------------------------------------------------------------------
  // Properties of a move

  /** The accumulator after k steps lies between the two ends of the move. */
  lemma AccumulatorBetween(startPwm: int, endPwm: int, k: nat)
    requires k <= Steps
    ensures var x := Accumulator(startPwm, endPwm, k);
      && (startPwm <= endPwm ==> startPwm as real <= x <= endPwm as real)
      && (endPwm <= startPwm ==> endPwm as real <= x <= startPwm as real)
  {
    var f := k as real / Steps as real;
    DivMonotone(0.0, k as real, Steps as real);
    DivMonotone(k as real, Steps as real, Steps as real);
    var delta := (endPwm - startPwm) as real;
    assert k as real * (delta / Steps as real) == delta * f;
    ScaleMonotone(delta, 0.0, f);
    ScaleMonotone(delta, f, 1.0);
  }

  /** The accumulator moves in the direction of the move, step by step. */
  lemma AccumulatorMonotone(startPwm: int, endPwm: int, j: nat, k: nat)
    requires j <= k
    ensures startPwm <= endPwm ==> Accumulator(startPwm, endPwm, j) <= Accumulator(startPwm, endPwm, k)
    ensures endPwm <= startPwm ==> Accumulator(startPwm, endPwm, k) <= Accumulator(startPwm, endPwm, j)
  {
    var step := (endPwm - startPwm) as real / Steps as real;
    if startPwm <= endPwm {
      DivMonotone(0.0, (endPwm - startPwm) as real, Steps as real);
    } else {
      DivMonotone((endPwm - startPwm) as real, 0.0, Steps as real);
    }
    ScaleMonotone(step, j as real, k as real);
    assert step * j as real == j as real * step && step * k as real == k as real * step;
  }

  /** Later writes of a move are no lower (going up) or no higher (going
      down) than earlier ones. */
  lemma EaseWriteMonotone(startPwm: int, endPwm: int, j: nat, k: nat)
    requires j <= k
    ensures startPwm <= endPwm ==> EaseWrite(startPwm, endPwm, j) <= EaseWrite(startPwm, endPwm, k)
    ensures endPwm <= startPwm ==> EaseWrite(startPwm, endPwm, k) <= EaseWrite(startPwm, endPwm, j)
  {
    var x, y := Accumulator(startPwm, endPwm, j), Accumulator(startPwm, endPwm, k);
    AccumulatorMonotone(startPwm, endPwm, j, k);
    if startPwm <= endPwm {
      TruncMonotone(x, y);
    }
    if endPwm <= startPwm {
      TruncMonotone(y, x);
    }
  }

  /** The last write of a move is exactly its end value. */
  lemma {:induction false} EaseEndsAtTarget(startPwm: int, endPwm: int)
    ensures EaseWrites(startPwm, endPwm)[Steps - 1] == endPwm
  {
    assert Accumulator(startPwm, endPwm, Steps) == endPwm as real;
    TruncOfInt(endPwm);
  }

  /** The writes never leave the interval between the two ends; so a move
      between two valid duty cycles writes only valid duty cycles. */
  lemma EaseStaysBetween(startPwm: int, endPwm: int)
    ensures forall k :: 0 <= k < Steps ==>
      var w := EaseWrites(startPwm, endPwm)[k];
      && (startPwm <= endPwm ==> startPwm <= w <= endPwm)
      && (endPwm <= startPwm ==> endPwm <= w <= startPwm)
    ensures InDutyRange(startPwm) && InDutyRange(endPwm) ==>
      forall k :: 0 <= k < Steps ==> InDutyRange(EaseWrites(startPwm, endPwm)[k])
  {
    forall k | 0 <= k < Steps
      ensures var w := EaseWrites(startPwm, endPwm)[k];
        && (startPwm <= endPwm ==> startPwm <= w <= endPwm)
        && (endPwm <= startPwm ==> endPwm <= w <= startPwm)
    {
      var x := Accumulator(startPwm, endPwm, k + 1);
      AccumulatorBetween(startPwm, endPwm, k + 1);
      if startPwm <= endPwm {
        TruncBetween(startPwm, endPwm, x);
      } else {
        TruncBetween(endPwm, startPwm, x);
      }
    }
  }

  /** The writes are non-decreasing when the move goes up and non-increasing
      when it goes down. */
  lemma EaseMonotone(startPwm: int, endPwm: int)
    ensures var ws := EaseWrites(startPwm, endPwm);
      && (startPwm <= endPwm ==> forall i, j :: 0 <= i <= j < Steps ==> ws[i] <= ws[j])
      && (endPwm <= startPwm ==> forall i, j :: 0 <= i <= j < Steps ==> ws[j] <= ws[i])
  {
    var ws := EaseWrites(startPwm, endPwm);
    forall i, j | 0 <= i <= j < Steps
      ensures startPwm <= endPwm ==> ws[i] <= ws[j]
      ensures endPwm <= startPwm ==> ws[j] <= ws[i]
    {
      EaseWriteMonotone(startPwm, endPwm, i + 1, j + 1);
    }
  }

  /** When the distance is a multiple of the step count, every write is
      exact: the k-th write (from 1) is start + k * (distance / 50). */
  lemma EaseEvenSteps(startPwm: int, endPwm: int)
    requires (endPwm - startPwm) % Steps == 0
    ensures forall k :: 0 <= k < Steps ==>
      EaseWrites(startPwm, endPwm)[k] == startPwm + (k + 1) * ((endPwm - startPwm) / Steps)
  {
    var q := (endPwm - startPwm) / Steps;
    assert (endPwm - startPwm) as real / Steps as real == q as real;
    forall k | 0 <= k < Steps
      ensures EaseWrites(startPwm, endPwm)[k] == startPwm + (k + 1) * q
    {
      assert Accumulator(startPwm, endPwm, k + 1) == (startPwm + (k + 1) * q) as real;
      TruncOfInt(startPwm + (k + 1) * q);
    }
  }

  /** The worked example: from 1000 to 2000 the needle gets 1020, 1040, ...,
      2000. */
  lemma ExampleEase()
    ensures forall k :: 0 <= k < Steps ==> EaseWrites(1000, 2000)[k] == 1000 + 20 * (k + 1)
  {
    EaseEvenSteps(1000, 2000);
  }
}
