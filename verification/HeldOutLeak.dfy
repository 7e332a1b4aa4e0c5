/** A leak the held-out evaluation does not refuse: the cadence is a mean, so samples denser than the
    mean at the boundary keep a training label that reads evaluation ticks.  The collector takes its
    samples at one interval and drops those with a feature that is not a number, so a spacing below
    the mean means dropped samples elsewhere. */
module HeldOutLeak {
  import opened Arithmetic
  import opened Labels
  import opened LabelLeakage
  import opened Compaction
  import Split = ValidationSplit
  import LockToken

  /** The boundary the split puts between the sides. */
  function Boundary(samples: nat, fraction: real): nat
    requires samples >= 2
  {
    LockToken.TestCountIsTheFraction(samples, fraction);
    samples - LockToken.TestCount(samples, fraction)
  }

  function Ones(n: nat): (r: seq<real>)
    ensures |r| == n
  {
    seq(n, _ => 1.0)
  }

  /** One early sample far before a dense region, everything polled in between dropped: the mean
      spacing is wide, the boundary dense. */
  function DenseTicks(bound: nat): (r: seq<nat>)
    ensures |r| == 5 * (bound + 100)
  {
    var n := 5 * (bound + 100);
    [0] + seq(n - 1, i requires i >= 0 => (n - 1) * (bound + 522) + i)
  }

  function Horizon(bound: nat): nat {
    bound + 10
  }

  /** For every bound on the feature reach there are sample ticks, depending on nothing else, that leak
      at every reach within it: ascending samples, a split the code makes, a horizon equal to the
      label's look-ahead, and two markets that agree before the first evaluation sample and price
      every sample.  The evaluation accepts both, trains on at least a hundred samples and scores at
      least ten, and one label of the training buffer differs. */
  lemma MeanCadenceCanLeak(bound: nat, reach: nat, sqrt: real -> real) returns (p: Prices, q: Prices)
    requires reach <= bound
    ensures var ticks := DenseTicks(bound);
            && SpacedBy(ticks, 1) && |p| == |q| && (forall i :: 0 <= i < |ticks| ==> ticks[i] < |p|)
            && (bound <= 10_000 ==> ticks[|ticks| - 1] < 0x8000_0000)
    ensures var ticks, horizon := DenseTicks(bound), Horizon(bound);
            var boundary := Boundary(|ticks|, 0.2);
            var purge := HeldOutPurge(horizon, ticks, reach);
            var a := LabelTable(ForwardPnl, p, ticks, Ones(|ticks|), 0.0, 0.0, horizon, sqrt);
            var b := LabelTable(ForwardPnl, q, ticks, Ones(|ticks|), 0.0, 0.0, horizon, sqrt);
            && boundary < |ticks| && AgreeBefore(p, q, ticks[boundary])
            && HeldOutAccepts(false, a, KeepAll, boundary, purge) && HeldOutAccepts(false, b, KeepAll, boundary, purge)
            && exists i :: i in TrainKept(a, KeepAll, TrainEnd(boundary, purge), |ticks|) && a[i] != b[i]
  {
    DenseRegion(bound, reach);
    TicksFit(bound);
    hide HeldOutPurge, Boundary, DenseTicks, SampleLabel, WindowClear, HeldOutAccepts, TrainKept;
    var ticks, horizon := DenseTicks(bound), Horizon(bound);
    var boundary := Boundary(|ticks|, 0.2);
    var purge := HeldOutPurge(horizon, ticks, reach);
    var trainEnd := TrainEnd(boundary, purge);
    p, q := MarketsThatLeak(ticks, trainEnd, boundary, horizon, sqrt);
    var a := LabelTable(ForwardPnl, p, ticks, Ones(|ticks|), 0.0, 0.0, horizon, sqrt);
    var b := LabelTable(ForwardPnl, q, ticks, Ones(|ticks|), 0.0, 0.0, horizon, sqrt);
    assert a[trainEnd - 1] != b[trainEnd - 1];
    hide LabelTable;
    LeakReachesBuffer(a, b, boundary, purge);
  }

  lemma MarketsThatLeak(ticks: seq<nat>, trainEnd: nat, boundary: nat, horizon: nat, sqrt: real -> real)
      returns (p: Prices, q: Prices)
    requires SpacedBy(ticks, 1) && 0 < trainEnd <= boundary < |ticks| && horizon >= 1
    requires !WindowClear(ForwardPnl, ticks, trainEnd, boundary, horizon)
    ensures |p| == |q| && (forall i :: 0 <= i < |ticks| ==> ticks[i] < |p|) && AgreeBefore(p, q, ticks[boundary])
    ensures SampleLabel(ForwardPnl, p, ticks[trainEnd - 1], 1.0, 0.0, 0.0, horizon, sqrt)
         != SampleLabel(ForwardPnl, q, ticks[trainEnd - 1], 1.0, 0.0, 0.0, horizon, sqrt)
  {
    hide SampleLabel, AgreeBefore;
    SpacingAdds(ticks, 1, trainEnd - 1, |ticks| - 1);
    p, q := UnclearWindowLeaks(ticks, Ones(|ticks|), trainEnd, boundary, 0.0, 0.0, horizon, ticks[|ticks| - 1] + horizon + 1, sqrt);
    forall i | 0 <= i < |ticks|
      ensures ticks[i] < |p|
    {
      SpacingAdds(ticks, 1, i, |ticks| - 1);
    }
  }

  lemma LeakReachesBuffer(a: seq<Label>, b: seq<Label>, boundary: nat, purge: nat)
    requires |a| == |b| && boundary + MIN_EVAL <= |a| && TrainEnd(boundary, purge) >= MIN_SAMPLES
    requires a[TrainEnd(boundary, purge) - 1] != b[TrainEnd(boundary, purge) - 1]
    ensures HeldOutAccepts(false, a, KeepAll, boundary, purge) && HeldOutAccepts(false, b, KeepAll, boundary, purge)
    ensures exists i :: i in TrainKept(a, KeepAll, TrainEnd(boundary, purge), |a|) && a[i] != b[i]
  {
    hide Kept;
    var trainEnd := TrainEnd(boundary, purge);
    EverythingKept(a, trainEnd, boundary);
    EverythingKept(b, trainEnd, boundary);
    KeptIsTheFilter(a, KeepAll, 0, trainEnd);
    assert trainEnd - 1 in TrainKept(a, KeepAll, trainEnd, |a|);
  }

  lemma EverythingKept(labels: seq<Label>, trainEnd: nat, boundary: nat)
    requires trainEnd <= boundary <= |labels|
    ensures |TrainKept(labels, KeepAll, trainEnd, |labels|)| == trainEnd
    ensures |EvalKept(labels, KeepAll, boundary, |labels|)| == |labels| - boundary
  {
    AllOf(labels, 0, trainEnd);
    AllOf(labels, boundary, |labels|);
  }

  lemma AllOf(labels: seq<Label>, lo: nat, hi: nat)
    requires lo <= hi <= |labels|
    ensures |Kept(labels, KeepAll, lo, hi)| == hi - lo
    decreases hi
  {
    if lo < hi { AllOf(labels, lo, hi - 1); }
  }

  lemma TicksFit(bound: nat)
    ensures bound <= 10_000 ==> DenseTicks(bound)[5 * (bound + 100) - 1] < 0x8000_0000
  {
    var n := 5 * (bound + 100);
    if bound <= 10_000 {
      Gap(n - 1, 50_499, bound + 522);
      assert DenseTicks(bound)[n - 1] == (n - 1) * (bound + 522) + (n - 2);
    }
  }

  lemma DenseRegion(bound: nat, reach: nat)
    requires reach <= bound
    ensures var ticks, horizon := DenseTicks(bound), Horizon(bound);
            var boundary := Boundary(|ticks|, 0.2); var trainEnd := TrainEnd(boundary, HeldOutPurge(horizon, ticks, reach));
            && SpacedBy(ticks, 1) && boundary + MIN_EVAL <= |ticks| && trainEnd >= MIN_SAMPLES
            && !WindowClear(ForwardPnl, ticks, trainEnd, boundary, horizon)
  {
    var m := bound + 100;
    var n := 5 * m;
    var ticks, horizon, tps := DenseTicks(bound), Horizon(bound), bound + 522;
    var gap := (n - 1) * tps;
    assert gap >= 0 by { Gap(0, n - 1, tps); }
    assert ticks[n - 1] == gap + (n - 2) && forall i :: 0 < i < n ==> ticks[i] == gap + i - 1;
    MeanOf(n - 1, tps);
    assert Split.TicksPerSample(ticks) == tps;
    OneSample(horizon, tps);
    OneSample(512, tps);
    FifthOf(m);
    var boundary, purge := Boundary(n, 0.2), HeldOutPurge(horizon, ticks, reach);
    assert boundary == 4 * m && purge == (if reach > 1 then reach else 1) + 1;
    var last := TrainEnd(boundary, purge) - 1;
    assert ticks[last] == gap + last - 1 && ticks[boundary] == gap + boundary - 1;
  }

  lemma FifthOf(m: nat)
    requires m >= 1
    ensures LockToken.TestCount(5 * m, 0.2) == m
  {
    assert (5 * m) as real * 0.2 == m as real;
  }

  lemma MeanOf(m: nat, tps: nat)
    requires m >= 1
    ensures (m * tps + m - 1) / m == tps
  {
    QuotientIs(m * tps + m - 1, m, tps);
  }

  lemma OneSample(ticks: nat, tps: nat)
    requires 1 <= ticks <= tps
    ensures Split.TicksToSamples(ticks, tps) == 1
  {
    Split.TicksToSamplesIsCeiling(ticks, tps, 1);
    Split.TicksToSamplesIsCeiling(ticks, tps, 0);
  }
}
