/** `predict_passes` and `get_next_pass_info` (visibility.py) in terms of
    time: the scan visits `start + k * step` minutes while that instant is
    not past the end of the window, asks an injected propagator for the
    elevation there, and turns the spans of the rise/set machine into pass
    records. Times are minutes on a common clock. */
module PassPrediction {
  import opened Results
  import opened Period
  import opened PassScanner

  /** A pass as reported: start, end, the highest elevation and when it was
      first reached, and the duration in minutes (before rounding). */
  datatype PassRecord = PassRecord(
    startTime: real,
    endTime: real,
    maxElevation: real,
    maxElevationTime: real,
    durationMinutes: real)

  /** The record built when a pass closes: its end is one step before the
      sample that closed it. */
  function ToRecord(sp: Span, start: real, step: real): PassRecord {
    var passStart := GridTime(start, step, sp.rise);
    var passEnd := GridTime(start, step, sp.close) - step;
    PassRecord(passStart, passEnd, sp.peak, GridTime(start, step, sp.peakAt), passEnd - passStart)
  }

  function Records(spans: seq<Span>, start: real, step: real): (r: seq<PassRecord>)
    ensures |r| == |spans|
    ensures forall i :: 0 <= i < |spans| ==> r[i] == ToRecord(spans[i], start, step)
  {
    seq(|spans|, i requires 0 <= i < |spans| => ToRecord(spans[i], start, step))
  }

  /** Closing one more pass appends its record. */
  lemma RecordsAppend(spans: seq<Span>, sp: Span, start: real, step: real)
    ensures Records(spans + [sp], start, step) == Records(spans, start, step) + [ToRecord(sp, start, step)]
  {
    var l := Records(spans + [sp], start, step);
    var r := Records(spans, start, step) + [ToRecord(sp, start, step)];
    assert |l| == |r|;
    forall i | 0 <= i < |l|
      ensures l[i] == r[i]
    {
      if i < |spans| {
        assert (spans + [sp])[i] == spans[i];
      }
    }
  }

  /** The propagator's answer at each of the first `n` grid instants. */
  function SampleGrid(elevationAt: real -> Option<real>, start: real, step: real, n: nat): (r: seq<Sample>)
    ensures |r| == n
    ensures forall k :: 0 <= k < n ==> r[k] == elevationAt(GridTime(start, step, k))
  {
    seq(n, k requires 0 <= k < n => elevationAt(GridTime(start, step, k)))
  }

  /** The passes found between `start` and `end` (inclusive) at the given
      step. */
  function ScanWindow(elevationAt: real -> Option<real>, start: real, step: real, end: real,
                      minElevation: real): seq<PassRecord>
    requires step > 0.0
  {
    var samples := SampleGrid(elevationAt, start, step, SampleCount(start, step, end));
    Records(Passes(samples, minElevation), start, step)
  }

  /** `predict_passes`: the step comes from the element set's period and the
      window spans `hoursAhead` hours from `start`. */
  function PredictPasses(line2: string, start: real, hoursAhead: int, minElevation: real,
                         elevationAt: real -> Option<real>): (r: Result<seq<PassRecord>, PeriodError>)
    ensures r.Err? <==> OrbitalPeriod(line2).Err?
    ensures r.Err? ==> r.error == OrbitalPeriod(line2).error
    ensures r.Ok? ==> r.value == ScanWindow(elevationAt, start, StepMinutes(OrbitalPeriod(line2).value),
                                            start + hoursAhead as real * 60.0, minElevation)
  {
    match OrbitalPeriod(line2)
    case Err(e) => Err(e)
    case Ok(period) =>
      Ok(ScanWindow(elevationAt, start, StepMinutes(period), start + hoursAhead as real * 60.0, minElevation))
  }

  /** The loop of `predict_passes` with its own variables: it advances the
      clock one step at a time while the clock is not past `end`, skips
      instants where propagation fails, and appends a record each time a
      pass closes. It computes exactly `ScanWindow`, and it terminates
      because the step is positive. */
  method ScanLoop(elevationAt: real -> Option<real>, start: real, step: real, end: real,
                  minElevation: real) returns (passes: seq<PassRecord>)
    requires step > 0.0
    ensures passes == ScanWindow(elevationAt, start, step, end, minElevation)
  {
    ghost var n := SampleCount(start, step, end);
    ghost var samples := SampleGrid(elevationAt, start, step, n);
    ghost var k: nat := 0;
    var current := start;
    var inPass := false;
    var passStart := 0.0;
    var maxElevation := 0.0;
    var maxElTime := 0.0;
    passes := [];
    while current <= end
      invariant k <= n
      invariant current == GridTime(start, step, k)
      invariant passes == Records(Run(samples, minElevation, k).spans, start, step)
      invariant inPass <==> Run(samples, minElevation, k).state.Inside?
      invariant inPass ==> var st := Run(samples, minElevation, k).state;
                           && passStart == GridTime(start, step, st.rise)
                           && maxElevation == st.peak
                           && maxElTime == GridTime(start, step, st.peakAt)
      decreases n - k
    {
      assert k < n;
      ghost var before := Run(samples, minElevation, k);
      ghost var after := Step(before, k, samples[k], minElevation);
      assert Run(samples, minElevation, k + 1) == after;
      var sample := elevationAt(current);
      assert sample == samples[k];
      if sample.Some? {
        var el := sample.value;
        if el > minElevation {
          if !inPass {
            assert after == Progress(Inside(k, el, k), before.spans);
            inPass := true;
            passStart := current;
            maxElevation := el;
            maxElTime := current;
          } else if el > maxElevation {
            assert after == Progress(Inside(before.state.rise, el, k), before.spans);
            maxElevation := el;
            maxElTime := current;
          } else {
            assert after == before;
          }
        } else if inPass {
          var passEnd := current - step;
          var duration := passEnd - passStart;
          ghost var sp := Span(before.state.rise, k, before.state.peak, before.state.peakAt);
          assert after.spans == before.spans + [sp];
          RecordsAppend(before.spans, sp, start, step);
          assert PassRecord(passStart, passEnd, maxElevation, maxElTime, duration) == ToRecord(sp, start, step);
          passes := passes + [PassRecord(passStart, passEnd, maxElevation, maxElTime, duration)];
          inPass := false;
          maxElevation := 0.0;
        } else {
          assert after == before;
        }
      } else {
        assert after == before;
      }
      GridNext(start, step, k);
      current := current + step;
      k := k + 1;
    }
    assert k == n;
  }

  /** Grid instants are strictly increasing in the index. */
  lemma GridMonotone(start: real, step: real, a: nat, b: nat)
    requires step > 0.0
    ensures a < b <==> GridTime(start, step, a) < GridTime(start, step, b)
    ensures a <= b <==> GridTime(start, step, a) <= GridTime(start, step, b)
  {
    if a < b {
      MulLt(a as real, b as real, step);
    } else {
      MulLe(b as real, a as real, step);
    }
  }

  /** A record's instants are ordered as its span's indices are, and its
      duration is the number of steps from start to end: zero exactly when
      the sample right after the rise closed the pass. */
  lemma RecordOfSpan(sp: Span, start: real, step: real)
    requires step > 0.0 && sp.rise <= sp.peakAt < sp.close
    ensures var r := ToRecord(sp, start, step);
              && start <= r.startTime <= r.maxElevationTime <= r.endTime
              && r.endTime + step == GridTime(start, step, sp.close)
              && r.durationMinutes == r.endTime - r.startTime
              && r.durationMinutes >= 0.0
              && (r.durationMinutes == 0.0 <==> sp.close == sp.rise + 1)
  {
    GridNext(start, step, sp.close - 1);
    GridMonotone(start, step, 0, sp.rise);
    GridMonotone(start, step, sp.rise, sp.peakAt);
    GridMonotone(start, step, sp.peakAt, sp.close - 1);
    GridMonotone(start, step, sp.rise, sp.close - 1);
  }

  /** Every predicted pass lies inside the window, starts no later than its
      peak, ends no earlier than it, has a non-negative duration equal to
      end minus start, and peaks strictly above the threshold at an instant
      where the propagator reported that very elevation. */
  lemma WindowPassBounds(elevationAt: real -> Option<real>, start: real, step: real, end: real,
                         minElevation: real, i: nat)
    requires step > 0.0
    requires i < |ScanWindow(elevationAt, start, step, end, minElevation)|
    ensures var r := ScanWindow(elevationAt, start, step, end, minElevation)[i];
              && start <= r.startTime <= r.maxElevationTime <= r.endTime
              && r.endTime + step <= end
              && r.durationMinutes == r.endTime - r.startTime >= 0.0
              && r.maxElevation > minElevation
              && elevationAt(r.maxElevationTime) == Some(r.maxElevation)
  {
    var n := SampleCount(start, step, end);
    var samples := SampleGrid(elevationAt, start, step, n);
    PassShape(samples, minElevation, i);
    var sp := Passes(samples, minElevation)[i];
    RecordOfSpan(sp, start, step);
  }

  /** Passes come out in time order and never overlap: the sample that
      closed one pass, a step after its end, precedes the next start. */
  lemma WindowPassesOrdered(elevationAt: real -> Option<real>, start: real, step: real, end: real,
                            minElevation: real, i: nat, j: nat)
    requires step > 0.0
    requires i < j < |ScanWindow(elevationAt, start, step, end, minElevation)|
    ensures var recs := ScanWindow(elevationAt, start, step, end, minElevation);
              recs[i].endTime + step < recs[j].startTime && recs[i].startTime < recs[j].startTime
  {
    var samples := SampleGrid(elevationAt, start, step, SampleCount(start, step, end));
    var spans := Passes(samples, minElevation);
    PassesSound(samples, minElevation);
    PassShape(samples, minElevation, i);
    RecordOfSpan(spans[i], start, step);
    assert spans[i].close < spans[j].rise;
    GridMonotone(start, step, spans[i].close, spans[j].rise);
  }

  /** Within a predicted pass, every instant of the grid where propagation
      succeeded saw an elevation above the threshold and no higher than the
      reported maximum; before the reported peak time it was strictly lower,
      so the peak time is the first one reaching the maximum. */
  lemma WindowPassPeak(elevationAt: real -> Option<real>, start: real, step: real, end: real,
                       minElevation: real, i: nat, k: nat)
    requires step > 0.0
    requires i < |ScanWindow(elevationAt, start, step, end, minElevation)|
    requires var r := ScanWindow(elevationAt, start, step, end, minElevation)[i];
               r.startTime <= GridTime(start, step, k) <= r.endTime
    requires elevationAt(GridTime(start, step, k)).Some?
    ensures var r := ScanWindow(elevationAt, start, step, end, minElevation)[i];
            var e := elevationAt(GridTime(start, step, k)).value;
              && minElevation < e <= r.maxElevation
              && (GridTime(start, step, k) < r.maxElevationTime ==> e < r.maxElevation)
  {
    var samples := SampleGrid(elevationAt, start, step, SampleCount(start, step, end));
    var sp := Passes(samples, minElevation)[i];
    PassShape(samples, minElevation, i);
    GridNext(start, step, sp.close - 1);
    GridMonotone(start, step, sp.rise, k);
    GridMonotone(start, step, k, sp.close - 1);
    GridMonotone(start, step, k, sp.peakAt);
    assert samples[k] == elevationAt(GridTime(start, step, k));
    PassSampleBounds(samples, minElevation, i, k);
  }

  /** What `get_next_pass_info` reports: the first pass and the minutes from
      `now` until it starts. */
  datatype NextPass = NextPass(minutesUntil: real, pass: PassRecord)

  /** `get_next_pass_info` with the clock reading `now` passed in. */
  function NextPassInfo(passes: seq<PassRecord>, now: real): (r: Option<NextPass>)
    ensures r.None? <==> |passes| == 0
    ensures r.Some? ==> r.value.pass == passes[0] && r.value.minutesUntil == passes[0].startTime - now
  {
    if |passes| == 0 then None
    else Some(NextPass(passes[0].startTime - now, passes[0]))
  }

  /** On a predicted pass list the reported pass is the earliest one, so no
      pass starts sooner than the reported wait; when `now` is the scan's
      own start the wait is never negative. */
  lemma NextPassIsEarliest(elevationAt: real -> Option<real>, start: real, step: real, end: real,
                           minElevation: real, now: real)
    requires step > 0.0
    ensures var passes := ScanWindow(elevationAt, start, step, end, minElevation);
            var info := NextPassInfo(passes, now);
              && (info.Some? ==> forall j :: 0 <= j < |passes| ==>
                    info.value.minutesUntil <= passes[j].startTime - now)
              && (info.Some? && now <= start ==> info.value.minutesUntil >= 0.0)
  {
    var passes := ScanWindow(elevationAt, start, step, end, minElevation);
    if |passes| > 0 {
      WindowPassBounds(elevationAt, start, step, end, minElevation, 0);
      forall j | 0 < j < |passes|
        ensures passes[0].startTime < passes[j].startTime
      {
        WindowPassesOrdered(elevationAt, start, step, end, minElevation, 0, j);
      }
    }
  }
}
