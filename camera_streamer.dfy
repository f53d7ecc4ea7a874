/**
 * The producer side of the control uplink (UCameraDataStreamer): on every
 * tick it advances a send timer, and when the timer fires it unwraps the
 * camera yaw into a continuous accumulated angle and queues one record of
 * pitch, accumulated yaw and roll for the worker thread.
 *
 * Angles and times are `real` here; the source uses `float`.
 */
module CameraStreamer {
  import opened Common

  /** A camera orientation in degrees, as the camera manager reports it. */
  datatype Rotator = Rotator(pitch: real, yaw: real, roll: real)

  /** One queued record, in the order it is formatted: pitch, accumulated yaw, roll. */
  datatype ControlRecord = ControlRecord(pitch: real, accumulatedYaw: real, roll: real)

  /** `SendInterval`'s initial value, in seconds. */
  const DefaultSendInterval: real := 0.001

  /**
   * The yaw delta after the wrap correction: at most one correction of
   * 360 degrees, none when the delta already lies in [-180, 180], and a
   * result in [-180, 180] whenever the raw delta lies in [-540, 540].
   */
  function CorrectDelta(delta: real): (r: real)
    ensures r - delta == 0.0 || r - delta == 360.0 || r - delta == -360.0
    ensures -180.0 <= delta <= 180.0 ==> r == delta
    ensures -540.0 <= delta <= 540.0 ==> -180.0 <= r <= 180.0
  {
    if delta > 180.0 then delta - 360.0
    else if delta < -180.0 then delta + 360.0
    else delta
  }

  /** `x` is a whole number. */
  predicate Whole(x: real)
  {
    x.Floor as real == x
  }

  /**
   * The accumulated yaw after each of a series of raw yaw readings, one per
   * firing of the send timer, starting from `previous` and `accumulated`:
   * each send adds the corrected change from the previous raw reading.
   */
  function Accumulate(previous: real, accumulated: real, yaws: seq<real>): (r: seq<real>)
    ensures |r| == |yaws|
    ensures |yaws| > 0 ==> r[0] == accumulated + CorrectDelta(yaws[0] - previous)
    ensures forall i :: 0 < i < |yaws| ==> r[i] == r[i - 1] + CorrectDelta(yaws[i] - yaws[i - 1])
    decreases |yaws|
  {
    if yaws == [] then []
    else
      var acc := accumulated + CorrectDelta(yaws[0] - previous);
      var rest := Accumulate(yaws[0], acc, yaws[1..]);
      assert forall i :: 0 <= i < |yaws| - 1 ==> yaws[1..][i] == yaws[i + 1];
      [acc] + rest
  }

  /** The 350, 355, 2, 10 example: starting at 350 the deltas are +5, +7, +8. */
  lemma CrossingZeroExample()
    ensures Accumulate(350.0, 0.0, [355.0, 2.0, 10.0]) == [5.0, 12.0, 20.0]
  {
    assert [355.0, 2.0, 10.0][1..] == [2.0, 10.0];
    assert [2.0, 10.0][1..] == [10.0];
  }

  /** For raw yaws in [0, 360), no step of the accumulated yaw exceeds 180 degrees. */
  lemma {:induction false} AccumulatedStepsBounded(previous: real, accumulated: real, yaws: seq<real>)
    requires 0.0 <= previous < 360.0
    requires forall i :: 0 <= i < |yaws| ==> 0.0 <= yaws[i] < 360.0
    ensures forall i :: 0 <= i < |yaws| ==>
      -180.0 <= Accumulate(previous, accumulated, yaws)[i] -
                (if i == 0 then accumulated else Accumulate(previous, accumulated, yaws)[i - 1]) <= 180.0
    decreases |yaws|
  {
    if yaws != [] {
      var acc := accumulated + CorrectDelta(yaws[0] - previous);
      var r := Accumulate(previous, accumulated, yaws);
      var tail := Accumulate(yaws[0], acc, yaws[1..]);
      assert r == [acc] + tail;
      AccumulatedStepsBounded(yaws[0], acc, yaws[1..]);
      forall i | 0 <= i < |yaws|
        ensures -180.0 <= r[i] - (if i == 0 then accumulated else r[i - 1]) <= 180.0
      {
        if i > 0 {
          assert yaws[1..][i - 1] == yaws[i];
          assert r[i] == tail[i - 1];
          assert r[i - 1] == if i == 1 then acc else tail[i - 2];
        }
      }
    }
  }

  /**
   * The accumulated yaw differs from the raw yaw's net change by a whole
   * number of turns: unwrapping only ever adds or removes full circles.
   */
  lemma {:induction false} AccumulateWholeTurns(previous: real, accumulated: real, yaws: seq<real>)
    ensures forall i :: 0 <= i < |yaws| ==>
      Whole((Accumulate(previous, accumulated, yaws)[i] - accumulated - (yaws[i] - previous)) / 360.0)
    decreases |yaws|
  {
    if yaws != [] {
      var acc := accumulated + CorrectDelta(yaws[0] - previous);
      var r := Accumulate(previous, accumulated, yaws);
      var tail := Accumulate(yaws[0], acc, yaws[1..]);
      assert r == [acc] + tail;
      AccumulateWholeTurns(yaws[0], acc, yaws[1..]);
      var first := (acc - accumulated - (yaws[0] - previous)) / 360.0;
      assert first == 0.0 || first == 1.0 || first == -1.0;
      forall i | 0 <= i < |yaws|
        ensures Whole((r[i] - accumulated - (yaws[i] - previous)) / 360.0)
      {
        if i > 0 {
          assert yaws[1..][i - 1] == yaws[i];
          assert r[i] == tail[i - 1];
          var rest := (tail[i - 1] - acc - (yaws[i] - yaws[0])) / 360.0;
          assert Whole(rest);
          assert (r[i] - accumulated - (yaws[i] - previous)) / 360.0 == rest + first;
          WholeSum(rest, first);
        }
      }
    }
  }

  lemma WholeSum(x: real, y: real)
    requires Whole(x)
    requires y == 0.0 || y == 1.0 || y == -1.0
    ensures Whole(x + y)
  {
    assert x + y == (x.Floor + y.Floor) as real;
  }

  /** The streaming component's per-tick state. */
  class CameraDataStreamer {
    /** Seconds since the last send. */
    var timeSinceLastSend: real
    /** Seconds between sends. */
    var sendInterval: real
    /** Raw yaw at the last send. */
    var previousYaw: real
    /** Unwrapped yaw accumulated since `BeginPlay`. */
    var accumulatedYaw: real
    /** `StreamerRunnable != nullptr`. */
    var hasRunnable: bool
    /** The records handed to the worker thread, oldest first. */
    var dataQueue: seq<ControlRecord>

    /** The raw yaw the accumulation started from. */
    ghost var initialYaw: real
    /** Full turns the unwrapping has added so far. */
    ghost var turns: int

    /** The accumulated yaw equals the raw yaw's net change up to whole turns. */
    ghost predicate Valid()
      reads this
    {
      accumulatedYaw - (previousYaw - initialYaw) == 360.0 * (turns as real)
    }

    constructor ()
      ensures Valid()
      ensures timeSinceLastSend == 0.0 && sendInterval == DefaultSendInterval
      ensures previousYaw == 0.0 && accumulatedYaw == 0.0
      ensures !hasRunnable && dataQueue == []
    {
      timeSinceLastSend := 0.0;
      sendInterval := DefaultSendInterval;
      previousYaw := 0.0;
      accumulatedYaw := 0.0;
      hasRunnable := false;
      dataQueue := [];
      initialYaw := 0.0;
      turns := 0;
    }

    /**
     * `BeginPlay`: starts the worker (so a runnable exists) and, when a
     * camera manager exists, starts the accumulation at the camera's yaw.
     */
    method BeginPlay(camera: Option<Rotator>)
      modifies this
      ensures Valid() && hasRunnable
      ensures camera.Some? ==> previousYaw == camera.value.yaw && accumulatedYaw == 0.0
      ensures camera.None? ==> previousYaw == old(previousYaw) && accumulatedYaw == old(accumulatedYaw)
      ensures initialYaw == previousYaw - accumulatedYaw
      ensures timeSinceLastSend == old(timeSinceLastSend) && sendInterval == old(sendInterval)
      ensures dataQueue == old(dataQueue)
    {
      hasRunnable := true;
      if camera.Some? {
        previousYaw := camera.value.yaw;
        accumulatedYaw := 0.0;
      }
      initialYaw := previousYaw - accumulatedYaw;
      turns := 0;
    }

    /**
     * `TickComponent`: the timer fires when the elapsed time reaches the
     * interval and is then reset to zero. A firing with a runnable and a
     * camera manager adds the corrected yaw delta to the accumulated yaw,
     * remembers the raw yaw and queues exactly one record; otherwise yaw
     * state and queue are unchanged.
     */
    method TickComponent(deltaTime: real, camera: Option<Rotator>)
      requires Valid()
      modifies this
      ensures Valid() && initialYaw == old(initialYaw)
      ensures sendInterval == old(sendInterval) && hasRunnable == old(hasRunnable)
      ensures old(timeSinceLastSend) + deltaTime >= sendInterval ==> timeSinceLastSend == 0.0
      ensures old(timeSinceLastSend) + deltaTime < sendInterval ==>
                timeSinceLastSend == old(timeSinceLastSend) + deltaTime
      ensures old(timeSinceLastSend) + deltaTime >= sendInterval && hasRunnable && camera.Some? ==>
                && previousYaw == camera.value.yaw
                && accumulatedYaw == old(accumulatedYaw) + CorrectDelta(camera.value.yaw - old(previousYaw))
                && dataQueue == old(dataQueue) +
                     [ControlRecord(camera.value.pitch, accumulatedYaw, camera.value.roll)]
      ensures !(old(timeSinceLastSend) + deltaTime >= sendInterval && hasRunnable && camera.Some?) ==>
                && previousYaw == old(previousYaw)
                && accumulatedYaw == old(accumulatedYaw)
                && dataQueue == old(dataQueue)
    {
      timeSinceLastSend := timeSinceLastSend + deltaTime;
      if timeSinceLastSend >= sendInterval {
        timeSinceLastSend := 0.0;
        if hasRunnable {
          if camera.Some? {
            var rotation := camera.value;
            var deltaYaw := rotation.yaw - previousYaw;
            if deltaYaw > 180.0 {
              deltaYaw := deltaYaw - 360.0;
              turns := turns - 1;
            } else if deltaYaw < -180.0 {
              deltaYaw := deltaYaw + 360.0;
              turns := turns + 1;
            }
            accumulatedYaw := accumulatedYaw + deltaYaw;
            previousYaw := rotation.yaw;
            dataQueue := dataQueue + [ControlRecord(rotation.pitch, accumulatedYaw, rotation.roll)];
          }
        }
      }
    }
  }
}
