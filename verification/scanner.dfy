/** The rise/set state machine at the heart of `predict_passes`
    (visibility.py), stated over grid indices: sample `k` is the elevation
    seen at the `k`-th instant of the scan, or `None` when the propagator
    reported an error there. */
module PassScanner {
  import opened Results

  /** An elevation in degrees, or `None` for a failed propagation. */
  type Sample = Option<real>

  /** A successful sample strictly above the threshold. */
  predicate Above(x: Sample, minElevation: real) {
    x.Some? && x.value > minElevation
  }

  /** A successful sample at or below the threshold: the only kind that
      closes a pass. */
  predicate Below(x: Sample, minElevation: real) {
    x.Some? && x.value <= minElevation
  }

  /** A finished pass in grid indices: the first sample above the threshold,
      the sample that closed it, the highest elevation seen and the first
      index where it was seen. */
  datatype Span = Span(rise: nat, close: nat, peak: real, peakAt: nat)

  /** `in_pass` together with `pass_start`, `max_elevation` and
      `max_el_time`, which are only read while a pass is open. */
  datatype ScanState = Outside | Inside(rise: nat, peak: real, peakAt: nat)

  /** The machine's state and the passes emitted so far. */
  datatype Progress = Progress(state: ScanState, spans: seq<Span>)

  /** One iteration of the loop body on sample `x` taken at index `k`. */
  function Step(p: Progress, k: nat, x: Sample, minElevation: real): (r: Progress)
    ensures r.state.Inside? <==> Above(x, minElevation) || (p.state.Inside? && !Below(x, minElevation))
    ensures !Below(x, minElevation) ==> r.spans == p.spans
    ensures x.None? ==> r == p
  {
    match x
    case None => p
    case Some(e) =>
      if e > minElevation then
        match p.state
        case Outside => Progress(Inside(k, e, k), p.spans)
        case Inside(rise, peak, peakAt) =>
          if e > peak then Progress(Inside(rise, e, k), p.spans) else p
      else
        match p.state
        case Outside => p
        case Inside(rise, peak, peakAt) =>
          Progress(Outside, p.spans + [Span(rise, k, peak, peakAt)])
  }

  /** The machine after the first `n` samples. */
  function Run(samples: seq<Sample>, minElevation: real, n: nat): (r: Progress)
    requires n <= |samples|
    ensures forall i :: 0 <= i < |r.spans| ==> r.spans[i].close < n
  {
    if n == 0 then Progress(Outside, [])
    else Step(Run(samples, minElevation, n - 1), n - 1, samples[n - 1], minElevation)
  }

  /** The passes emitted over the whole window; a pass still open after the
      last sample is not among them. */
  function Passes(samples: seq<Sample>, minElevation: real): seq<Span> {
    Run(samples, minElevation, |samples|).spans
  }

  // ---------------------------------------------------------------------
  // Reference definition of a pass, independent of the state machine.

  /** The index of the last successful sample among the first `n`. */
  function LastOk(samples: seq<Sample>, n: nat): (r: Option<nat>)
    requires n <= |samples|
    ensures r.Some? ==> r.value < n && samples[r.value].Some?
    ensures r.Some? ==> forall j :: r.value < j < n ==> samples[j].None?
    ensures r.None? ==> forall j :: 0 <= j < n ==> samples[j].None?
  {
    if n == 0 then None
    else if samples[n - 1].Some? then Some(n - 1)
    else LastOk(samples, n - 1)
  }

  /** A pass rises at `s` when the sample there is above the threshold and
      the last successful sample before it, if any, was not. */
  predicate IsRise(samples: seq<Sample>, minElevation: real, s: nat)
    requires s < |samples|
  {
    && Above(samples[s], minElevation)
    && (LastOk(samples, s).None? || Below(samples[LastOk(samples, s).value], minElevation))
  }

  /** No successful sample strictly between `a` and `b` is at or below the
      threshold. */
  predicate NoBelowBetween(samples: seq<Sample>, minElevation: real, a: nat, b: nat)
    requires b <= |samples|
  {
    forall j :: a < j < b ==> !Below(samples[j], minElevation)
  }

  /** A pass rising at `s` is closed at `c`: the first successful sample at
      or below the threshold after the rise. */
  predicate IsPassBounds(samples: seq<Sample>, minElevation: real, s: nat, c: nat) {
    && s < c < |samples|
    && IsRise(samples, minElevation, s)
    && Below(samples[c], minElevation)
    && NoBelowBetween(samples, minElevation, s, c)
  }

  /** `peak` is the highest successful elevation in `[s, c)` and `peakAt`
      the first index where it occurs. */
  predicate IsPeak(samples: seq<Sample>, s: nat, c: nat, peak: real, peakAt: nat)
    requires c <= |samples|
  {
    && s <= peakAt < c
    && samples[peakAt] == Some(peak)
    && (forall j :: s <= j < c && samples[j].Some? ==> samples[j].value <= peak)
    && (forall j :: s <= j < peakAt && samples[j].Some? ==> samples[j].value < peak)
  }

  predicate IsPass(samples: seq<Sample>, minElevation: real, p: Span) {
    IsPassBounds(samples, minElevation, p.rise, p.close)
    && IsPeak(samples, p.rise, p.close, p.peak, p.peakAt)
  }

  // ---------------------------------------------------------------------
  // The state machine computes exactly the reference passes.

  /** Every emitted span is a reference pass closed before sample `n`. */
  ghost predicate SpansSound(samples: seq<Sample>, minElevation: real, n: nat, spans: seq<Span>) {
    forall i :: 0 <= i < |spans| ==> spans[i].close < n && IsPass(samples, minElevation, spans[i])
  }

  /** Each span closes before the next one rises. */
  ghost predicate SpansOrdered(spans: seq<Span>) {
    forall i, j :: 0 <= i < j < |spans| ==> spans[i].close < spans[j].rise
  }

  /** Every reference pass closed before sample `n` has been emitted. The
      quantifier is keyed on `ClosedPass` rather than `IsPassBounds` so that
      the spans it yields do not feed back into it. */
  ghost predicate SpansComplete(samples: seq<Sample>, minElevation: real, n: nat, spans: seq<Span>) {
    forall s: nat, c: nat :: c < n && ClosedPass(samples, minElevation, s, c) ==>
      exists i :: 0 <= i < |spans| && spans[i].rise == s && spans[i].close == c
  }

  ghost predicate ClosedPass(samples: seq<Sample>, minElevation: real, s: nat, c: nat) {
    IsPassBounds(samples, minElevation, s, c)
  }

  /** What the state says about the first `n` samples. */
  ghost predicate StateSound(samples: seq<Sample>, minElevation: real, n: nat, p: Progress)
    requires n <= |samples|
  {
    match p.state
    case Outside =>
      LastOk(samples, n).None? || Below(samples[LastOk(samples, n).value], minElevation)
    case Inside(rise, peak, peakAt) =>
      && rise < n
      && IsRise(samples, minElevation, rise)
      && NoBelowBetween(samples, minElevation, rise, n)
      && IsPeak(samples, rise, n, peak, peakAt)
      && LastOk(samples, n).Some? && Above(samples[LastOk(samples, n).value], minElevation)
      && (|p.spans| > 0 ==> p.spans[|p.spans| - 1].close < rise)
  }

  /** A pass that has risen and not yet closed is the one the state holds. */
  ghost predicate OpenTracked(samples: seq<Sample>, minElevation: real, n: nat, st: ScanState)
    requires n <= |samples|
  {
    forall s: nat :: s < n && IsRise(samples, minElevation, s) && NoBelowBetween(samples, minElevation, s, n) ==>
      st.Inside? && st.rise == s
  }

  ghost predicate RunInvariant(samples: seq<Sample>, minElevation: real, n: nat, p: Progress)
    requires n <= |samples|
  {
    && SpansSound(samples, minElevation, n, p.spans)
    && SpansOrdered(p.spans)
    && SpansComplete(samples, minElevation, n, p.spans)
    && StateSound(samples, minElevation, n, p)
    && OpenTracked(samples, minElevation, n, p.state)
  }

  lemma {:induction false} RunKeepsInvariant(samples: seq<Sample>, minElevation: real, n: nat)
    requires n <= |samples|
    ensures RunInvariant(samples, minElevation, n, Run(samples, minElevation, n))
    decreases n, 0
  {
    if n > 0 {
      StepKeepsInvariant(samples, minElevation, n - 1);
    }
  }

  /** The invariant after `k` samples carries over to `k + 1`. */
  lemma {:induction false} StepKeepsInvariant(samples: seq<Sample>, minElevation: real, k: nat)
    requires k < |samples|
    ensures RunInvariant(samples, minElevation, k + 1, Run(samples, minElevation, k + 1))
    decreases k, 1
  {
    var p := Run(samples, minElevation, k);
    RunKeepsInvariant(samples, minElevation, k);
    assert Run(samples, minElevation, k + 1) == Step(p, k, samples[k], minElevation);
    StepKeepsSound(samples, minElevation, k, p);
    StepKeepsComplete(samples, minElevation, k, p);
    StepKeepsState(samples, minElevation, k, p);
    StepKeepsTracked(samples, minElevation, k, p);
  }

  lemma LastOkStep(samples: seq<Sample>, k: nat)
    requires k < |samples|
    ensures LastOk(samples, k + 1) == if samples[k].Some? then Some(k) else LastOk(samples, k)
  {
  }

  lemma StepKeepsSound(samples: seq<Sample>, minElevation: real, k: nat, p: Progress)
    requires k < |samples|
    requires SpansSound(samples, minElevation, k, p.spans) && SpansOrdered(p.spans)
    requires StateSound(samples, minElevation, k, p)
    ensures SpansSound(samples, minElevation, k + 1, Step(p, k, samples[k], minElevation).spans)
    ensures SpansOrdered(Step(p, k, samples[k], minElevation).spans)
  {
    if Below(samples[k], minElevation) && p.state.Inside? {
      ClosingSpanSound(samples, minElevation, k, p);
      ClosingSpanOrdered(samples, minElevation, k, p);
    }
  }

  /** The span emitted when a pass closes is a reference pass. */
  lemma ClosingSpanSound(samples: seq<Sample>, minElevation: real, k: nat, p: Progress)
    requires k < |samples| && Below(samples[k], minElevation) && p.state.Inside?
    requires SpansSound(samples, minElevation, k, p.spans)
    requires StateSound(samples, minElevation, k, p)
    ensures SpansSound(samples, minElevation, k + 1, Step(p, k, samples[k], minElevation).spans)
  {
    var sp := Span(p.state.rise, k, p.state.peak, p.state.peakAt);
    assert Step(p, k, samples[k], minElevation).spans == p.spans + [sp];
    assert IsPass(samples, minElevation, sp);
  }

  /** The span emitted when a pass closes comes after the earlier ones. */
  lemma ClosingSpanOrdered(samples: seq<Sample>, minElevation: real, k: nat, p: Progress)
    requires k < |samples| && Below(samples[k], minElevation) && p.state.Inside?
    requires SpansSound(samples, minElevation, k, p.spans) && SpansOrdered(p.spans)
    requires StateSound(samples, minElevation, k, p)
    ensures SpansOrdered(Step(p, k, samples[k], minElevation).spans)
  {
    var sp := Span(p.state.rise, k, p.state.peak, p.state.peakAt);
    var q := p.spans + [sp];
    assert Step(p, k, samples[k], minElevation).spans == q;
    forall i, j | 0 <= i < j < |q|
      ensures q[i].close < q[j].rise
    {
      if j == |p.spans| {
        var last := |p.spans| - 1;
        if i < last {
          assert IsPass(samples, minElevation, p.spans[last]);
          assert p.spans[i].close < p.spans[last].rise < p.spans[last].close;
        }
      }
    }
  }

  lemma StepKeepsComplete(samples: seq<Sample>, minElevation: real, k: nat, p: Progress)
    requires k < |samples|
    requires SpansComplete(samples, minElevation, k, p.spans)
    requires OpenTracked(samples, minElevation, k, p.state)
    ensures SpansComplete(samples, minElevation, k + 1, Step(p, k, samples[k], minElevation).spans)
  {
    var q := Step(p, k, samples[k], minElevation);
    forall s: nat, c: nat | c < k + 1 && ClosedPass(samples, minElevation, s, c)
      ensures exists i :: 0 <= i < |q.spans| && q.spans[i].rise == s && q.spans[i].close == c
    {
      if c < k {
        var i :| 0 <= i < |p.spans| && p.spans[i].rise == s && p.spans[i].close == c;
        assert q.spans[i] == p.spans[i];
      } else {
        assert OpenTracked(samples, minElevation, k, p.state);
        assert p.state.Inside? && p.state.rise == s;
        assert q.spans[|p.spans|] == Span(s, k, p.state.peak, p.state.peakAt);
      }
    }
  }

  lemma StepKeepsState(samples: seq<Sample>, minElevation: real, k: nat, p: Progress)
    requires k < |samples|
    requires SpansSound(samples, minElevation, k, p.spans)
    requires StateSound(samples, minElevation, k, p)
    ensures StateSound(samples, minElevation, k + 1, Step(p, k, samples[k], minElevation))
  {
    LastOkStep(samples, k);
    if samples[k].None? {
      StateAfterFailure(samples, minElevation, k, p);
    } else if Below(samples[k], minElevation) {
      assert Step(p, k, samples[k], minElevation).state.Outside?;
    } else if p.state.Outside? {
      assert |p.spans| > 0 ==> p.spans[|p.spans| - 1].close < k;
      StateAfterRise(samples, minElevation, k, p);
    } else {
      StateInsideAbove(samples, minElevation, k, p);
    }
  }

  lemma StateAfterFailure(samples: seq<Sample>, minElevation: real, k: nat, p: Progress)
    requires k < |samples| && samples[k].None?
    requires StateSound(samples, minElevation, k, p)
    requires LastOk(samples, k + 1) == LastOk(samples, k)
    ensures StateSound(samples, minElevation, k + 1, Step(p, k, samples[k], minElevation))
  {
    assert Step(p, k, samples[k], minElevation) == p;
    if p.state.Inside? {
      assert NoBelowBetween(samples, minElevation, p.state.rise, k + 1);
      assert IsPeak(samples, p.state.rise, k + 1, p.state.peak, p.state.peakAt);
    }
  }

  lemma StateAfterRise(samples: seq<Sample>, minElevation: real, k: nat, p: Progress)
    requires k < |samples| && Above(samples[k], minElevation) && p.state.Outside?
    requires |p.spans| > 0 ==> p.spans[|p.spans| - 1].close < k
    requires StateSound(samples, minElevation, k, p)
    requires LastOk(samples, k + 1) == Some(k)
    ensures StateSound(samples, minElevation, k + 1, Step(p, k, samples[k], minElevation))
  {
    assert Step(p, k, samples[k], minElevation) == Progress(Inside(k, samples[k].value, k), p.spans);
    RiseOpensPass(samples, minElevation, k, p.spans);
  }

  /** A sample that rises opens a pass whose peak so far is that sample. */
  lemma RiseOpensPass(samples: seq<Sample>, minElevation: real, k: nat, spans: seq<Span>)
    requires k < |samples| && IsRise(samples, minElevation, k)
    requires |spans| > 0 ==> spans[|spans| - 1].close < k
    requires LastOk(samples, k + 1) == Some(k)
    ensures StateSound(samples, minElevation, k + 1, Progress(Inside(k, samples[k].value, k), spans))
  {
    assert IsPeak(samples, k, k + 1, samples[k].value, k);
  }

  lemma StateInsideAbove(samples: seq<Sample>, minElevation: real, k: nat, p: Progress)
    requires k < |samples| && Above(samples[k], minElevation) && p.state.Inside?
    requires StateSound(samples, minElevation, k, p)
    requires LastOk(samples, k + 1) == Some(k)
    ensures StateSound(samples, minElevation, k + 1, Step(p, k, samples[k], minElevation))
  {
    var st := p.state;
    assert st.rise < k && IsRise(samples, minElevation, st.rise);
    assert NoBelowBetween(samples, minElevation, st.rise, k + 1);
    var peakAt := if samples[k].value > st.peak then k else st.peakAt;
    var peak := if samples[k].value > st.peak then samples[k].value else st.peak;
    PeakExtends(samples, st.rise, k, st.peak, st.peakAt);
    assert Step(p, k, samples[k], minElevation) == Progress(Inside(st.rise, peak, peakAt), p.spans);
  }

  /** The running maximum with its strict update is the first maximum. */
  lemma PeakExtends(samples: seq<Sample>, s: nat, k: nat, peak: real, peakAt: nat)
    requires k < |samples| && samples[k].Some?
    requires IsPeak(samples, s, k, peak, peakAt)
    ensures samples[k].value > peak ==> IsPeak(samples, s, k + 1, samples[k].value, k)
    ensures samples[k].value <= peak ==> IsPeak(samples, s, k + 1, peak, peakAt)
  {
  }

  lemma StepKeepsTracked(samples: seq<Sample>, minElevation: real, k: nat, p: Progress)
    requires k < |samples|
    requires StateSound(samples, minElevation, k, p)
    requires OpenTracked(samples, minElevation, k, p.state)
    ensures OpenTracked(samples, minElevation, k + 1, Step(p, k, samples[k], minElevation).state)
  {
    var q := Step(p, k, samples[k], minElevation);
    forall s: nat | s < k + 1 && IsRise(samples, minElevation, s) && NoBelowBetween(samples, minElevation, s, k + 1)
      ensures q.state.Inside? && q.state.rise == s
    {
      if s < k {
        assert NoBelowBetween(samples, minElevation, s, k);
        assert p.state.Inside? && p.state.rise == s;
      } else {
        assert p.state.Outside?;
      }
    }
  }

  // ---------------------------------------------------------------------
  // Consequences for the whole window.

  /** Every emitted pass is a reference pass, and each closes before the
      next one rises. */
  lemma PassesSound(samples: seq<Sample>, minElevation: real)
    ensures forall i :: 0 <= i < |Passes(samples, minElevation)| ==>
              IsPass(samples, minElevation, Passes(samples, minElevation)[i])
    ensures SpansOrdered(Passes(samples, minElevation))
  {
    RunKeepsInvariant(samples, minElevation, |samples|);
  }

  /** Every reference pass that closes inside the window is emitted. */
  lemma PassesComplete(samples: seq<Sample>, minElevation: real)
    ensures forall s: nat, c: nat :: IsPassBounds(samples, minElevation, s, c) ==>
              exists i :: 0 <= i < |Passes(samples, minElevation)|
                          && Passes(samples, minElevation)[i].rise == s
                          && Passes(samples, minElevation)[i].close == c
  {
    var out := Passes(samples, minElevation);
    RunKeepsInvariant(samples, minElevation, |samples|);
    forall s: nat, c: nat | IsPassBounds(samples, minElevation, s, c)
      ensures exists i :: 0 <= i < |out| && out[i].rise == s && out[i].close == c
    {
      assert ClosedPass(samples, minElevation, s, c);
    }
  }

  /** Inside an emitted pass every successful sample is above the threshold
      and at most the peak, and strictly below it before the peak index. */
  lemma PassSampleBounds(samples: seq<Sample>, minElevation: real, i: nat, k: nat)
    requires i < |Passes(samples, minElevation)|
    requires var p := Passes(samples, minElevation)[i]; p.rise <= k < p.close
    requires k < |samples| && samples[k].Some?
    ensures var p := Passes(samples, minElevation)[i];
              && minElevation < samples[k].value <= p.peak
              && (k < p.peakAt ==> samples[k].value < p.peak)
  {
    PassesSound(samples, minElevation);
    var p := Passes(samples, minElevation)[i];
    assert IsPass(samples, minElevation, p);
    if k > p.rise {
      assert !Below(samples[k], minElevation);
    }
  }

  /** The shape of each emitted pass: it rises before its peak, peaks before
      it closes, and its peak is strictly above the threshold. */
  lemma PassShape(samples: seq<Sample>, minElevation: real, i: nat)
    requires i < |Passes(samples, minElevation)|
    ensures var p := Passes(samples, minElevation)[i];
              && p.rise <= p.peakAt < p.close < |samples|
              && p.peak > minElevation
              && samples[p.peakAt] == Some(p.peak)
  {
    PassesSound(samples, minElevation);
    var p := Passes(samples, minElevation)[i];
    assert IsPass(samples, minElevation, p);
    assert samples[p.rise].value <= p.peak;
  }

  /** A sample above the threshold after which nothing closes a pass lies in
      no emitted pass, and the scan ends with that pass still open: an
      unterminated pass is dropped. */
  lemma OpenPassDropped(samples: seq<Sample>, minElevation: real, k: nat)
    requires k < |samples| && Above(samples[k], minElevation)
    requires forall j :: k < j < |samples| ==> !Below(samples[j], minElevation)
    ensures forall i :: 0 <= i < |Passes(samples, minElevation)| ==>
              !(Passes(samples, minElevation)[i].rise <= k < Passes(samples, minElevation)[i].close)
    ensures Run(samples, minElevation, |samples|).state.Inside?
  {
    var n := |samples|;
    RunKeepsInvariant(samples, minElevation, n);
    var out := Passes(samples, minElevation);
    forall i | 0 <= i < |out|
      ensures !(out[i].rise <= k < out[i].close)
    {
      assert IsPass(samples, minElevation, out[i]);
    }
    var last := LastOk(samples, n);
    assert last.Some? && last.value >= k;
  }

  /** A sample above the threshold that some later sample at or below the
      threshold follows lies inside an emitted pass. */
  lemma ClosedRunCovered(samples: seq<Sample>, minElevation: real, k: nat, later: nat)
    requires k < later < |samples|
    requires Above(samples[k], minElevation) && Below(samples[later], minElevation)
    ensures exists i :: 0 <= i < |Passes(samples, minElevation)|
                        && Passes(samples, minElevation)[i].rise <= k < Passes(samples, minElevation)[i].close
  {
    var s := FindRise(samples, minElevation, k);
    var c := FirstBelowFrom(samples, minElevation, k, k + 1, later);
    assert NoBelowBetween(samples, minElevation, s, c);
    assert IsPassBounds(samples, minElevation, s, c);
    PassesComplete(samples, minElevation);
  }

  /** The rise of the run of above-threshold samples that contains `k`. */
  lemma {:induction false} FindRise(samples: seq<Sample>, minElevation: real, k: nat) returns (s: nat)
    requires k < |samples| && Above(samples[k], minElevation)
    ensures s <= k && IsRise(samples, minElevation, s)
    ensures NoBelowBetween(samples, minElevation, s, k + 1)
  {
    var last := LastOk(samples, k);
    if last.None? || Below(samples[last.value], minElevation) {
      s := k;
    } else {
      var j := last.value;
      s := FindRise(samples, minElevation, j);
      forall t | s < t < k + 1
        ensures !Below(samples[t], minElevation)
      {
        if t <= j {
          assert NoBelowBetween(samples, minElevation, s, j + 1);
        }
      }
    }
  }

  /** The first sample at or below the threshold after `k`, searching from
      `t`, given that one exists at `later`. */
  lemma FirstBelowFrom(samples: seq<Sample>, minElevation: real, k: nat, t: nat, later: nat) returns (c: nat)
    requires k < t <= later < |samples| && Below(samples[later], minElevation)
    requires forall j :: k < j < t ==> !Below(samples[j], minElevation)
    ensures k < c <= later && Below(samples[c], minElevation)
    ensures forall j :: k < j < c ==> !Below(samples[j], minElevation)
    decreases later - t
  {
    if Below(samples[t], minElevation) {
      c := t;
    } else {
      c := FirstBelowFrom(samples, minElevation, k, t + 1, later);
    }
  }
}
