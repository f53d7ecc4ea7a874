/**
 * Clock-offset calibration of the camera data streamer's worker thread
 * (FCameraDataStreamerRunnable::CalibrateClockOffset).
 *
 * For every accepted client the worker runs up to 20 probes: it stamps t1
 * (whole Unix seconds times 1000), sends one byte, receives the client's
 * 8-byte timestamp and stamps t4. Every complete reply adds one offset
 * sample to a list that is declared once and never cleared. Calibration
 * succeeds as soon as that list holds 20 samples; the offset is then the
 * truncating mean of all of them. Otherwise the client is dropped and the
 * worker waits for the next one.
 *
 * The sockets and the other thread are an input script: each `Accept` gives
 * `NoClient` or a client together with the replies its probes will see, and
 * a stop request shows up where the worker polls its stop flag.
 */
module ClockSync {

  /** Probes per accepted client, and the samples calibration needs. */
  const RequiredSamples: nat := 20
  /** A probe reply is one `uint64` timestamp. */
  const TimestampBytes: int := 8

  /** What the worker observes for one probe. */
  datatype ProbeReply =
      /** `Recv` returned `received` and `bytesRead` bytes holding the client's
          timestamp `tClient`; the worker's clock read `t1Secs` before the
          send and `t4Secs` after the receive. */
    | Reply(received: bool, bytesRead: int, t1Secs: int, tClient: int, t4Secs: int)
      /** `Stop()` was called before the probe loop checked its flag. */
    | StopRequested

  /** What one `Accept` on the listening socket gives. */
  datatype AcceptResult = NoClient | Client(replies: seq<ProbeReply>)

  /** C++ integer division of `int64` values: the quotient rounds toward zero. */
  function TruncDiv(a: int, b: int): (q: int)
    requires b > 0
    ensures a >= 0 ==> 0 <= a - q * b < b
    ensures a < 0 ==> -b < a - q * b <= 0
  {
    if a >= 0 then a / b else -((-a) / b)
  }

  /** `FDateTime::UtcNow().ToUnixTimestamp() * 1000`: milliseconds of a whole second. */
  function Millis(secs: int): int
  {
    secs * 1000
  }

  /** One sample: the mean of the two one-way differences, truncated. */
  function SampleOffset(t1: int, tClient: int, t4: int): (r: int)
    ensures r == TruncDiv(t4 - t1, 2)
  {
    var diff1 := tClient - t1;
    var diff2 := t4 - tClient;
    TruncDiv(diff1 + diff2, 2)
  }

  /** The client's timestamp cancels out, and because both server stamps are
      whole seconds the sample is exactly 500 ms per elapsed second. */
  lemma WholeSecondOffset(t1Secs: int, tClient: int, t4Secs: int)
    ensures SampleOffset(Millis(t1Secs), tClient, Millis(t4Secs)) == 500 * (t4Secs - t1Secs)
    ensures SampleOffset(Millis(t1Secs), tClient, Millis(t4Secs)) % 500 == 0
  {
    var a := Millis(t4Secs) - Millis(t1Secs);
    assert a == 2 * (500 * (t4Secs - t1Secs));
  }

  /** A reply that yields a sample: received, and exactly 8 bytes long. */
  predicate Delivered(r: ProbeReply)
  {
    r.Reply? && r.received && r.bytesRead == TimestampBytes
  }

  /** The sample a delivered reply contributes. */
  function ReplyOffset(r: ProbeReply): int
    requires r.Reply?
  {
    SampleOffset(Millis(r.t1Secs), r.tClient, Millis(r.t4Secs))
  }

  /** What the probe loop of one connection produced. */
  datatype ProbeRun = ProbeRun(samples: seq<int>, stopSeen: bool)

  /**
   * The probe loop of one connection, with `budget` probes left. A reply
   * list that runs out stands for a peer that closed the connection: its
   * `Recv` fails.
   */
  function Probe(replies: seq<ProbeReply>, budget: nat): (run: ProbeRun)
    ensures |run.samples| <= budget && |run.samples| <= |replies|
    decreases |replies|
  {
    if budget == 0 || replies == [] then ProbeRun([], false)
    else match replies[0]
      case StopRequested => ProbeRun([], true)
      case Reply(received, bytesRead, _, _, _) =>
        if received && bytesRead == TimestampBytes then
          var rest := Probe(replies[1..], budget - 1);
          ProbeRun([ReplyOffset(replies[0])] + rest.samples, rest.stopSeen)
        else
          ProbeRun([], false)
  }

  /**
   * What one connection's probe loop records: exactly the offsets of the
   * leading delivered replies, at most `budget` of them, and the reason
   * the loop ended: budget spent, stop flag seen, or a failed receive.
   */
  lemma {:induction false} ProbeShape(replies: seq<ProbeReply>, budget: nat)
    ensures |Probe(replies, budget).samples| <= budget
    ensures |Probe(replies, budget).samples| <= |replies|
    ensures forall j :: 0 <= j < |Probe(replies, budget).samples| ==>
              Delivered(replies[j]) && Probe(replies, budget).samples[j] == ReplyOffset(replies[j])
    ensures Probe(replies, budget).stopSeen <==>
              |Probe(replies, budget).samples| < budget && |Probe(replies, budget).samples| < |replies| &&
              replies[|Probe(replies, budget).samples|].StopRequested?
    ensures |Probe(replies, budget).samples| < budget && |Probe(replies, budget).samples| < |replies| ==>
              !Delivered(replies[|Probe(replies, budget).samples|])
    decreases |replies|
  {
    if budget > 0 && replies != [] && Delivered(replies[0]) {
      ProbeShape(replies[1..], budget - 1);
    }
  }

  /**
   * One step of the probe loop at reply `i`, with `got` recorded from the
   * replies before it. A missing reply means a closed connection.
   */
  lemma ProbeStepAt(replies: seq<ProbeReply>, i: nat, budget: nat, got: seq<int>)
    requires i <= |replies|
    ensures budget == 0 || i == |replies| ==> Probe(replies[i..], budget) == ProbeRun([], false)
    ensures budget > 0 && i < |replies| && replies[i].StopRequested? ==>
              Probe(replies[i..], budget) == ProbeRun([], true)
    ensures budget > 0 && i < |replies| && replies[i].Reply? && !Delivered(replies[i]) ==>
              Probe(replies[i..], budget) == ProbeRun([], false)
    ensures budget > 0 && i < |replies| && Delivered(replies[i]) ==>
              && got + Probe(replies[i..], budget).samples ==
                 (got + [ReplyOffset(replies[i])]) + Probe(replies[i + 1..], budget - 1).samples
              && Probe(replies[i..], budget).stopSeen == Probe(replies[i + 1..], budget - 1).stopSeen
  {
    var rest := replies[i..];
    if i < |replies| {
      assert rest[0] == replies[i];
      assert rest[1..] == replies[i + 1..];
      if budget > 0 && Delivered(replies[i]) {
        var tail := Probe(replies[i + 1..], budget - 1).samples;
        assert got + ([ReplyOffset(replies[i])] + tail) == (got + [ReplyOffset(replies[i])]) + tail;
      }
    } else {
      assert rest == [];
    }
  }

  /** Sum of the samples, accumulated from the front as the source's loop does. */
  function Sum(s: seq<int>): int
  {
    if s == [] then 0 else Sum(s[..|s| - 1]) + s[|s| - 1]
  }

  /** `sum / sample_offsets.Num()` with C++ truncation. */
  function TruncMean(s: seq<int>): int
    requires |s| > 0
  {
    TruncDiv(Sum(s), |s|)
  }

  /** The smallest sample. */
  function Min(s: seq<int>): (m: int)
    requires |s| > 0
    ensures m in s
    ensures forall x :: x in s ==> m <= x
  {
    if |s| == 1 then s[0]
    else
      var rest := Min(s[1..]);
      assert forall x :: x in s ==> x == s[0] || x in s[1..];
      if s[0] <= rest then s[0] else rest
  }

  /** The largest sample. */
  function Max(s: seq<int>): (m: int)
    requires |s| > 0
    ensures m in s
    ensures forall x :: x in s ==> x <= m
  {
    if |s| == 1 then s[0]
    else
      var rest := Max(s[1..]);
      assert forall x :: x in s ==> x == s[0] || x in s[1..];
      if s[0] >= rest then s[0] else rest
  }

  lemma MulMonotone(x: int, y: int, n: int)
    requires x <= y && n >= 0
    ensures x * n <= y * n
  {
    assert y * n - x * n == (y - x) * n;
  }

  lemma {:induction false} SumBounds(s: seq<int>, lo: int, hi: int)
    requires forall x :: x in s ==> lo <= x <= hi
    ensures |s| * lo <= Sum(s) <= |s| * hi
  {
    if s != [] {
      var init := s[..|s| - 1];
      assert forall x :: x in init ==> x in s;
      SumBounds(init, lo, hi);
      assert s[|s| - 1] in s;
      assert |s| * lo == |init| * lo + lo;
      assert |s| * hi == |init| * hi + hi;
    }
  }

  /** Truncating division of a value between `n * lo` and `n * hi` by `n`
      lands between `lo` and `hi`. */
  lemma TruncDivBetween(a: int, n: int, lo: int, hi: int)
    requires n > 0
    requires n * lo <= a <= n * hi
    ensures lo <= TruncDiv(a, n) <= hi
  {
    var q := TruncDiv(a, n);
    if q > hi {
      MulMonotone(hi + 1, q, n);
      assert false;
    }
    if q < lo {
      MulMonotone(q + 1, lo, n);
      assert false;
    }
  }

  /** The calibrated offset lies between the smallest and the largest sample. */
  lemma MeanBetweenExtremes(s: seq<int>)
    requires |s| > 0
    ensures Min(s) <= TruncMean(s) <= Max(s)
  {
    SumBounds(s, Min(s), Max(s));
    assert |s| * Min(s) == Min(s) * |s| && |s| * Max(s) == Max(s) * |s|;
    TruncDivBetween(Sum(s), |s|, Min(s), Max(s));
  }

  /** What the accept loop ends with; `clients` counts the accepted connections. */
  datatype Calibration = Calibration(samples: seq<int>, calibrated: bool, stopped: bool, clients: nat)

  /** The number of accept attempts in a script that produce a client. */
  function ClientCount(script: seq<AcceptResult>): nat
    decreases |script|
  {
    if script == [] then 0 else (if script[0].Client? then 1 else 0) + ClientCount(script[1..])
  }

  /**
   * The accept loop as written: `samples` is the list carried over from
   * earlier connections. A script that runs out stands for `Stop()`.
   */
  function Calibrate(script: seq<AcceptResult>, stop: bool, samples: seq<int>): (r: Calibration)
    ensures r.calibrated ==> |r.samples| >= RequiredSamples && r.clients > 0
    ensures r.clients <= ClientCount(script)
    decreases |script|
  {
    if stop || script == [] then Calibration(samples, false, true, 0)
    else match script[0]
      case NoClient => Calibrate(script[1..], false, samples)
      case Client(replies) =>
        var run := Probe(replies, RequiredSamples);
        var all := samples + run.samples;
        if |all| >= RequiredSamples then Calibration(all, true, run.stopSeen, 1)
        else
          var rest := Calibrate(script[1..], run.stopSeen, all);
          rest.(clients := rest.clients + 1)
  }

  /** Calibration succeeds exactly when the accumulated list reaches 20 samples. */
  lemma {:induction false} CalibratedIffEnoughSamples(script: seq<AcceptResult>, stop: bool, samples: seq<int>)
    requires |samples| < RequiredSamples
    ensures Calibrate(script, stop, samples).calibrated <==>
            |Calibrate(script, stop, samples).samples| >= RequiredSamples
    decreases |script|
  {
    if !stop && script != [] {
      match script[0]
      case NoClient => CalibratedIffEnoughSamples(script[1..], false, samples);
      case Client(replies) =>
        var run := Probe(replies, RequiredSamples);
        if |samples + run.samples| < RequiredSamples {
          CalibratedIffEnoughSamples(script[1..], run.stopSeen, samples + run.samples);
        }
    }
  }

  /** The loop ends only because the stop flag is set or calibration succeeded. */
  lemma {:induction false} EndsOnStopOrSuccess(script: seq<AcceptResult>, stop: bool, samples: seq<int>)
    ensures Calibrate(script, stop, samples).calibrated || Calibrate(script, stop, samples).stopped
    decreases |script|
  {
    if !stop && script != [] {
      match script[0]
      case NoClient => EndsOnStopOrSuccess(script[1..], false, samples);
      case Client(replies) =>
        var run := Probe(replies, RequiredSamples);
        EndsOnStopOrSuccess(script[1..], run.stopSeen, samples + run.samples);
    }
  }

  /** The sample list is never cleared: what was collected before stays, in order. */
  lemma {:induction false} SamplesNeverCleared(script: seq<AcceptResult>, stop: bool, samples: seq<int>)
    ensures |samples| <= |Calibrate(script, stop, samples).samples|
    ensures Calibrate(script, stop, samples).samples[..|samples|] == samples
    decreases |script|
  {
    if !stop && script != [] {
      match script[0]
      case NoClient => SamplesNeverCleared(script[1..], false, samples);
      case Client(replies) =>
        var run := Probe(replies, RequiredSamples);
        var all := samples + run.samples;
        assert all[..|samples|] == samples;
        if |all| < RequiredSamples {
          SamplesNeverCleared(script[1..], run.stopSeen, all);
          var c := Calibrate(script[1..], run.stopSeen, all);
          assert c.samples[..|samples|] == c.samples[..|all|][..|samples|];
        }
    }
  }

  /** Every sample of one connection is a whole number of half seconds. */
  lemma ProbeSamplesHalfSeconds(replies: seq<ProbeReply>, budget: nat)
    ensures forall x :: x in Probe(replies, budget).samples ==> x % 500 == 0
  {
    var run := Probe(replies, budget);
    ProbeShape(replies, budget);
    forall x | x in run.samples
      ensures x % 500 == 0
    {
      var j :| 0 <= j < |run.samples| && run.samples[j] == x;
      WholeSecondOffset(replies[j].t1Secs, replies[j].tClient, replies[j].t4Secs);
    }
  }

  /** Every sample the accept loop ever records is a multiple of 500 ms. */
  lemma {:induction false} SamplesHalfSeconds(script: seq<AcceptResult>, stop: bool, samples: seq<int>)
    requires forall x :: x in samples ==> x % 500 == 0
    ensures forall x :: x in Calibrate(script, stop, samples).samples ==> x % 500 == 0
    decreases |script|
  {
    if !stop && script != [] {
      match script[0]
      case NoClient => SamplesHalfSeconds(script[1..], false, samples);
      case Client(replies) =>
        var run := Probe(replies, RequiredSamples);
        ProbeSamplesHalfSeconds(replies, RequiredSamples);
        var all := samples + run.samples;
        assert forall x :: x in all ==> x in samples || x in run.samples;
        if |all| < RequiredSamples {
          SamplesHalfSeconds(script[1..], run.stopSeen, all);
        }
    }
  }

  /** The averaging loop: sum every recorded sample, then divide with truncation. */
  method MeanOffset(samples: seq<int>) returns (average: int)
    requires |samples| > 0
    ensures average == TruncMean(samples)
  {
    var sum := 0;
    for i := 0 to |samples|
      invariant sum == Sum(samples[..i])
    {
      assert samples[..i + 1][..i] == samples[..i];
      sum := sum + samples[i];
    }
    assert samples[..|samples|] == samples;
    average := TruncDiv(sum, |samples|);
  }

  /** The worker thread's calibration state. */
  class ClockSyncRunnable {
    /** `bStopThread`, set by `Stop()` from another thread. */
    var stopThread: bool
    /** `average_offset`, the calibrated clock offset in milliseconds. */
    var averageOffset: int

    constructor ()
      ensures !stopThread && averageOffset == 0
    {
      stopThread := false;
      averageOffset := 0;
    }

    /** `Stop()` only raises the flag. */
    method Stop()
      modifies this`stopThread
      ensures stopThread
    {
      stopThread := true;
    }

    /**
     * The probe loop for one accepted client, appending to `acc` (the list
     * kept across clients). A stop request in the script raises the flag,
     * which the loop condition then sees.
     */
    method ProbeConnection(replies: seq<ProbeReply>, acc: seq<int>) returns (samples: seq<int>)
      requires !stopThread
      modifies this`stopThread
      ensures samples == acc + Probe(replies, RequiredSamples).samples
      ensures stopThread == Probe(replies, RequiredSamples).stopSeen
    {
      samples := acc;
      ghost var target := Probe(replies, RequiredSamples);
      ghost var got: seq<int> := [];
      var i := 0;
      while i < RequiredSamples && !stopThread
        invariant 0 <= i <= RequiredSamples && i <= |replies|
        invariant samples == acc + got && |got| == i
        invariant !stopThread ==>
          && target.samples == got + Probe(replies[i..], RequiredSamples - i).samples
          && target.stopSeen == Probe(replies[i..], RequiredSamples - i).stopSeen
        invariant stopThread ==> target.samples == got && target.stopSeen
        decreases RequiredSamples - i, if stopThread then 0 else 1
      {
        // A closed connection: Recv fails.
        var reply := if i < |replies| then replies[i] else Reply(false, 0, 0, 0, 0);
        ProbeStepAt(replies, i, RequiredSamples - i, got);
        match reply
        case StopRequested =>
          stopThread := true;
        case Reply(received, bytesRead, t1Secs, tClient, t4Secs) =>
          var t1 := Millis(t1Secs);
          var t4 := Millis(t4Secs);
          if received && bytesRead == TimestampBytes {
            var offset := SampleOffset(t1, tClient, t4);
            samples := samples + [offset];
            got := got + [offset];
            i := i + 1;
          } else {
            break;
          }
      }
    }

    /**
     * `CalibrateClockOffset`: accept clients until the stop flag is set or
     * calibration succeeds. The result is the accept loop `Calibrate` over
     * the script, the offset is the truncating mean of every recorded
     * sample when calibration succeeded, and every accepted client socket
     * is released exactly once.
     */
    method CalibrateClockOffset(script: seq<AcceptResult>)
      returns (samples: seq<int>, calibrated: bool, accepted: nat, released: nat)
      modifies this
      ensures samples == Calibrate(script, old(stopThread), []).samples
      ensures calibrated == Calibrate(script, old(stopThread), []).calibrated
      ensures stopThread == Calibrate(script, old(stopThread), []).stopped
      ensures calibrated ==> |samples| >= RequiredSamples && averageOffset == TruncMean(samples)
      ensures !calibrated ==> averageOffset == old(averageOffset)
      ensures accepted == Calibrate(script, old(stopThread), []).clients
      ensures released == accepted
    {
      var clientHeld := false;
      samples := [];
      calibrated := false;
      accepted, released := 0, 0;
      var k := 0;
      ghost var stop0 := stopThread;
      while !stopThread && !calibrated
        invariant 0 <= k <= |script|
        invariant !calibrated ==>
          var rest := Calibrate(script[k..], stopThread, samples);
          Calibrate(script, stop0, []) == rest.(clients := accepted + rest.clients)
        invariant !calibrated ==> averageOffset == old(averageOffset) && !clientHeld
        invariant calibrated ==>
          Calibrate(script, stop0, []) == Calibration(samples, true, stopThread, accepted) &&
          |samples| >= RequiredSamples && averageOffset == TruncMean(samples)
        invariant accepted == released + (if clientHeld then 1 else 0)
        decreases |script| - k, if stopThread then 0 else 1
      {
        if !clientHeld {
          if k == |script| {
            // Nothing more arrives: the thread is being stopped.
            stopThread := true;
          } else {
            var outcome := script[k];
            assert script[k..][1..] == script[k + 1..];
            k := k + 1;
            if outcome.Client? {
              clientHeld := true;
              accepted := accepted + 1;
              samples := ProbeConnection(outcome.replies, samples);
              if |samples| >= RequiredSamples {
                averageOffset := MeanOffset(samples);
                calibrated := true;
              } else {
                // Close, destroy and forget the client; wait for the next one.
                clientHeld := false;
                released := released + 1;
                continue;
              }
            }
          }
        }
      }
      if clientHeld {
        clientHeld := false;
        released := released + 1;
      }
    }
  }

  // ---------------------------------------------------------------------
  // The list that is never cleared lets a short connection complete
  // calibration with samples left over from an earlier, failed one.

  const GoodReply: ProbeReply := Reply(true, TimestampBytes, 0, 0, 0)
  const FailedReply: ProbeReply := Reply(false, 0, 0, 0, 0)

  /** A first client that answers 19 probes and then fails, and a second
      client that answers a single probe and then fails. */
  function ShortSecondClient(): seq<AcceptResult>
  {
    [Client(seq(19, _ => GoodReply) + [FailedReply]), Client([GoodReply, FailedReply])]
  }

  /** As written, the second client completes calibration although it
      delivered one sample: 19 of the 20 averaged samples belong to a
      connection that was already dropped. */
  lemma StaleSamplesCompleteCalibration()
    ensures |Probe(ShortSecondClient()[1].replies, RequiredSamples).samples| == 1
    ensures Calibrate(ShortSecondClient(), false, []).calibrated
  {
    var script := ShortSecondClient();
    var first := script[0].replies;
    var run1 := Probe(first, RequiredSamples);
    ProbeShape(first, RequiredSamples);
    assert first[19] == FailedReply;
    assert forall j :: 0 <= j < 19 ==> first[j] == GoodReply;
    assert |run1.samples| == 19;
    var second := script[1].replies;
    var run2 := Probe(second, RequiredSamples);
    ProbeShape(second, RequiredSamples);
    assert second[0] == GoodReply && second[1] == FailedReply;
    assert |run2.samples| == 1;
    assert script[1..] == [script[1]];
    var rest := Calibrate(script[1..], run1.stopSeen, run1.samples);
    assert rest.calibrated;
    assert Calibrate(script, false, []) == rest.(clients := rest.clients + 1);
  }

  /**
   * The evidently intended calibration: every accepted client starts from
   * an empty sample list, so calibration needs 20 samples from one
   * connection.
   */
  function CalibrateFresh(script: seq<AcceptResult>, stop: bool): Calibration
    decreases |script|
  {
    if stop || script == [] then Calibration([], false, true, 0)
    else match script[0]
      case NoClient => CalibrateFresh(script[1..], false)
      case Client(replies) =>
        var run := Probe(replies, RequiredSamples);
        if |run.samples| >= RequiredSamples then Calibration(run.samples, true, run.stopSeen, 1)
        else
          var rest := CalibrateFresh(script[1..], run.stopSeen);
          rest.(clients := rest.clients + 1)
  }

  /** With fresh lists, a successful calibration averages exactly the 20
      samples of one accepted connection. */
  lemma {:induction false} FreshCalibrationUsesOneClient(script: seq<AcceptResult>, stop: bool)
    ensures CalibrateFresh(script, stop).calibrated ==>
      |CalibrateFresh(script, stop).samples| == RequiredSamples &&
      exists i :: 0 <= i < |script| && script[i].Client? &&
        CalibrateFresh(script, stop).samples == Probe(script[i].replies, RequiredSamples).samples
    decreases |script|
  {
    if !stop && script != [] {
      var c := CalibrateFresh(script, stop);
      match script[0]
      case NoClient =>
        FreshCalibrationUsesOneClient(script[1..], false);
        if c.calibrated {
          var i :| 0 <= i < |script[1..]| && script[1..][i].Client? &&
            c.samples == Probe(script[1..][i].replies, RequiredSamples).samples;
          assert script[i + 1] == script[1..][i];
        }
      case Client(replies) =>
        var run := Probe(replies, RequiredSamples);
        if |run.samples| >= RequiredSamples {
          ProbeShape(replies, RequiredSamples);
          assert c.samples == Probe(script[0].replies, RequiredSamples).samples;
        } else {
          FreshCalibrationUsesOneClient(script[1..], run.stopSeen);
          if c.calibrated {
            var i :| 0 <= i < |script[1..]| && script[1..][i].Client? &&
              c.samples == Probe(script[1..][i].replies, RequiredSamples).samples;
            assert script[i + 1] == script[1..][i];
          }
        }
    }
  }

  /** The corrected loop does not calibrate on the short second client. */
  lemma FreshRejectsShortSecondClient()
    ensures !CalibrateFresh(ShortSecondClient(), false).calibrated
  {
    var script := ShortSecondClient();
    FreshCalibrationUsesOneClient(script, false);
    var first := script[0].replies;
    var run1 := Probe(first, RequiredSamples);
    ProbeShape(first, RequiredSamples);
    assert first[19] == FailedReply;
    assert |run1.samples| <= 19;
    var second := script[1].replies;
    var run2 := Probe(second, RequiredSamples);
    ProbeShape(second, RequiredSamples);
    assert second[1] == FailedReply;
    assert |run2.samples| <= 1;
  }
}
