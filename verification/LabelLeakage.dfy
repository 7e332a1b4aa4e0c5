/** Leakage control end to end: the purge gap computed from the horizon, against what the label
    leaves of the surviving training samples can see. */
module LabelLeakage {
  import opened Arithmetic
  import opened Labels
  import Split = ValidationSplit

  /** Training stops this many samples before the evaluation block, never below zero. */
  function TrainEnd(trainvalEnd: nat, purge: nat): nat {
    if trainvalEnd < purge then 0 else trainvalEnd - purge
  }

  function HeldOutPurge(horizonTicks: int, ticks: seq<nat>, reach: nat): nat {
    Split.PurgeGap(if horizonTicks > 0 then horizonTicks else 0, Split.PURGE_BUFFER_DEFAULT,
                   Split.TicksPerSample(ticks), reach)
  }

  /** The held-out gap covers the horizon and the feature reach, and 512 ticks on top, in the fewest
      samples of the measured cadence. */
  lemma HeldOutPurgeIsTheLeast(horizonTicks: int, ticks: seq<nat>, reach: nat, s: nat, spare: nat)
    requires var tps := Split.TicksPerSample(ticks); (spare - 1) * tps < 512 <= spare * tps
    ensures HeldOutPurge(horizonTicks, ticks, reach) <= s + spare
       <==> horizonTicks <= s * Split.TicksPerSample(ticks) && reach <= s
  {
    var tps := Split.TicksPerSample(ticks);
    Split.CadenceIsTheMean(ticks);
    hide Split.TicksPerSample, Split.PurgeGap;
    Gap(0, s, tps);
    Split.PurgeGapIsTheLeast(if horizonTicks > 0 then horizonTicks else 0, 512, tps, reach, s, spare);
  }

  ghost predicate SpacedBy(ticks: seq<nat>, gap: int) {
    forall i :: 0 < i < |ticks| ==> ticks[i] - ticks[i - 1] >= gap
  }

  lemma SpacingAdds(ticks: seq<nat>, gap: nat, i: nat, j: nat)
    requires SpacedBy(ticks, gap) && i <= j < |ticks|
    ensures ticks[j] - ticks[i] >= (j - i) * gap
    decreases j
  {
    if i < j {
      SpacingAdds(ticks, gap, i, j - 1);
      assert (j - i) * gap == (j - 1 - i) * gap + gap;
    }
  }

  /** The label of a sample as a function of the tick prices. */
  function SampleLabel(kind: Kind, p: Prices, tick: nat, price: real, tp: real, sl: real, extra: int, sqrt: real -> real): Label {
    if tick < |p| then Leaf(kind, p, tick, price, tp, sl, extra, sqrt) else NotFinite
  }

  /** Training labels below trainEnd are functions of the ticks before the evaluation block. */
  ghost predicate Independent(kind: Kind, ticks: seq<nat>, prices: seq<real>, trainEnd: nat, evalStart: nat,
                              tp: real, sl: real, extra: int, sqrt: real -> real)
    requires trainEnd <= |ticks| == |prices| && evalStart < |ticks|
  {
    forall p: Prices, q: Prices, i: nat | i < trainEnd && AgreeBefore(p, q, ticks[evalStart]) ::
      SampleLabel(kind, p, ticks[i], prices[i], tp, sl, extra, sqrt)
      == SampleLabel(kind, q, ticks[i], prices[i], tp, sl, extra, sqrt)
  }

  /** The last training sample's window ends before the evaluation block begins. */
  predicate WindowClear(kind: Kind, ticks: seq<nat>, trainEnd: nat, evalStart: nat, extra: int)
    requires ForwardBounded(kind) && trainEnd <= |ticks| && evalStart < |ticks|
  {
    trainEnd > 0 ==> ticks[trainEnd - 1] + Reach(kind, extra) <= ticks[evalStart]
  }

  /** For every forward-bounded leaf a clear window is enough, whatever the spacing. */
  lemma ClearWindowIsIndependent(kind: Kind, ticks: seq<nat>, prices: seq<real>, trainEnd: nat, evalStart: nat,
                                 tp: real, sl: real, extra: int, sqrt: real -> real)
    requires ForwardBounded(kind) && SpacedBy(ticks, 0)
    requires trainEnd <= |ticks| == |prices| && evalStart < |ticks|
    requires WindowClear(kind, ticks, trainEnd, evalStart, extra)
    ensures Independent(kind, ticks, prices, trainEnd, evalStart, tp, sl, extra, sqrt)
  {
    hide Leaf;
    ReachIsPositive(kind, extra);
    forall p: Prices, q: Prices, i: nat | i < trainEnd && AgreeBefore(p, q, ticks[evalStart])
      ensures SampleLabel(kind, p, ticks[i], prices[i], tp, sl, extra, sqrt)
           == SampleLabel(kind, q, ticks[i], prices[i], tp, sl, extra, sqrt)
    {
      SpacingAdds(ticks, 0, i, trainEnd - 1);
      LeafNonInterference(kind, p, q, ticks[i], prices[i], tp, sl, extra, sqrt);
    }
  }

  /** The purge gap clears the window when no two samples are closer than the measured cadence. */
  lemma PurgeClearsWindow(kind: Kind, ticks: seq<nat>, trainvalEnd: nat, horizon: int, reach: nat, extra: int)
    requires ForwardBounded(kind) && Reach(kind, extra) <= horizon + 1 && horizon >= 1
    requires SpacedBy(ticks, Split.TicksPerSample(ticks)) && trainvalEnd < |ticks|
    ensures WindowClear(kind, ticks, TrainEnd(trainvalEnd, HeldOutPurge(horizon, ticks, reach)), trainvalEnd, extra)
  {
    var tps := Split.TicksPerSample(ticks);
    assert tps >= 1;
    var purge := HeldOutPurge(horizon, ticks, reach);
    var trainEnd := TrainEnd(trainvalEnd, purge);
    hide Reach, Split.PurgeGap, Split.TicksPerSample;
    if trainEnd > 0 {
      PurgeCoversHorizon(horizon, Split.PURGE_BUFFER_DEFAULT, tps, reach);
      SpacingAdds(ticks, tps, trainEnd - 1, trainvalEnd);
      assert trainvalEnd - (trainEnd - 1) == purge + 1;
    }
  }

  /** One sample more than the gap is at least one tick more than the horizon. */
  lemma PurgeCoversHorizon(horizon: nat, buffer: int, tps: nat, reach: nat)
    requires tps >= 1
    ensures (Split.PurgeGap(horizon, buffer, tps, reach) + 1) * tps >= horizon + 1
  {
    hide Split.TicksToSamples;
    var purge, samples := Split.PurgeGap(horizon, buffer, tps, reach), Split.TicksToSamples(horizon, tps);
    Split.TicksToSamplesIsCeiling(horizon, tps, samples);
    Gap(samples, purge, tps);
    assert (purge + 1) * tps == purge * tps + tps;
  }

  /** Held-out training labels are independent of evaluation data: samples at least the measured
      cadence apart, a look-ahead within the horizon, any forward-bounded leaf, any reach. */
  lemma HeldOutLabelsAreIndependent(kind: Kind, ticks: seq<nat>, prices: seq<real>, trainvalEnd: nat,
                                    horizon: int, reach: nat, tp: real, sl: real, extra: int, sqrt: real -> real)
    requires ForwardBounded(kind) && Reach(kind, extra) <= horizon + 1 && horizon >= 1
    requires |ticks| == |prices| && trainvalEnd < |ticks|
    requires SpacedBy(ticks, Split.TicksPerSample(ticks))
    ensures var trainEnd := TrainEnd(trainvalEnd, HeldOutPurge(horizon, ticks, reach));
            Independent(kind, ticks, prices, trainEnd, trainvalEnd, tp, sl, extra, sqrt)
  {
    hide Independent, WindowClear, HeldOutPurge;
    var trainEnd := TrainEnd(trainvalEnd, HeldOutPurge(horizon, ticks, reach));
    PurgeClearsWindow(kind, ticks, trainvalEnd, horizon, reach, extra);
    assert Split.TicksPerSample(ticks) >= 1;
    ClearWindowIsIndependent(kind, ticks, prices, trainEnd, trainvalEnd, tp, sl, extra, sqrt);
  }

  /** Samples at one fixed poll interval, as the collector takes them when it drops none. */
  predicate Polled(ticks: seq<nat>, interval: nat) {
    interval >= 1 && forall i :: 0 < i < |ticks| ==> ticks[i] == ticks[i - 1] + interval
  }

  lemma PolledSpan(ticks: seq<nat>, interval: nat, i: nat)
    requires Polled(ticks, interval) && i < |ticks|
    ensures ticks[i] == ticks[0] + i * interval
  {
    if i > 0 {
      PolledSpan(ticks, interval, i - 1);
      assert i * interval == (i - 1) * interval + interval;
    }
  }

  /** Their measured cadence is the interval itself, so only dropped samples can make it wider than
      a spacing: without drops held-out training labels are independent of evaluation data. */
  lemma PolledSamplesAreIndependent(kind: Kind, ticks: seq<nat>, interval: nat, prices: seq<real>, trainvalEnd: nat,
                                    horizon: int, reach: nat, tp: real, sl: real, extra: int, sqrt: real -> real)
    requires ForwardBounded(kind) && Reach(kind, extra) <= horizon + 1 && horizon >= 1
    requires Polled(ticks, interval) && |ticks| == |prices| && trainvalEnd < |ticks|
    ensures |ticks| >= 2 ==> Split.TicksPerSample(ticks) == interval
    ensures var trainEnd := TrainEnd(trainvalEnd, HeldOutPurge(horizon, ticks, reach));
            Independent(kind, ticks, prices, trainEnd, trainvalEnd, tp, sl, extra, sqrt)
  {
    hide Independent, HeldOutPurge;
    var n := |ticks|;
    if n >= 2 {
      PolledSpan(ticks, interval, n - 1);
      QuotientIs((n - 1) * interval, n - 1, interval);
      assert (n - 1) * interval >= interval by { Gap(1, n - 1, interval); }
    }
    HeldOutLabelsAreIndependent(kind, ticks, prices, trainvalEnd, horizon, reach, tp, sl, extra, sqrt);
  }

  lemma ReachIsPositive(kind: Kind, extra: int)
    requires ForwardBounded(kind)
    ensures Reach(kind, extra) > 0
  {
  }

  /** For the forward-return label the clear window is also necessary, so it is the exact
      condition: a caller can check it on the sample ticks before training. */
  lemma ForwardPnlExactCondition(ticks: seq<nat>, prices: seq<real>, trainEnd: nat, evalStart: nat,
                                 tp: real, sl: real, forward: int, sqrt: real -> real)
    requires forward > 0 && SpacedBy(ticks, 0)
    requires trainEnd <= |ticks| == |prices| && evalStart < |ticks|
    requires forall i :: 0 <= i < |prices| ==> prices[i] > 0.0
    ensures Independent(ForwardPnl, ticks, prices, trainEnd, evalStart, tp, sl, forward, sqrt)
       <==> WindowClear(ForwardPnl, ticks, trainEnd, evalStart, forward)
  {
    if WindowClear(ForwardPnl, ticks, trainEnd, evalStart, forward) {
      ClearWindowIsIndependent(ForwardPnl, ticks, prices, trainEnd, evalStart, tp, sl, forward, sqrt);
    } else {
      var p, q := UnclearWindowLeaks(ticks, prices, trainEnd, evalStart, tp, sl, forward, ticks[trainEnd - 1] + forward + 1, sqrt);
    }
  }

  /** Two markets of a given length that agree before the evaluation block and label the last
      training sample differently. */
  lemma UnclearWindowLeaks(ticks: seq<nat>, prices: seq<real>, trainEnd: nat, evalStart: nat,
                           tp: real, sl: real, forward: int, length: nat, sqrt: real -> real) returns (p: Prices, q: Prices)
    requires forward > 0 && trainEnd <= |ticks| == |prices| && evalStart < |ticks|
    requires !WindowClear(ForwardPnl, ticks, trainEnd, evalStart, forward)
    requires length > ticks[trainEnd - 1] + forward && prices[trainEnd - 1] > 0.0
    ensures |p| == |q| == length && AgreeBefore(p, q, ticks[evalStart])
    ensures var i := trainEnd - 1;
            SampleLabel(ForwardPnl, p, ticks[i], prices[i], tp, sl, forward, sqrt)
            != SampleLabel(ForwardPnl, q, ticks[i], prices[i], tp, sl, forward, sqrt)
  {
    var last := trainEnd - 1;
    var target := ticks[last] + forward;
    p := seq(length, _ => 1.0);
    q := p[target := 2.0];
    DifferentFutures(p, q, ticks[last], prices[last], forward);
  }

  lemma DifferentFutures(p: Prices, q: Prices, idx: nat, price: real, forward: nat)
    requires forward > 0 && |p| == |q| && idx + forward < |p| && price > 0.0
    requires p[idx + forward] == 1.0 && q[idx + forward] == 2.0
    ensures ForwardPnlOf(p, idx, price, forward) != ForwardPnlOf(q, idx, price, forward)
  {
    assert (2.0 - price) / price - (1.0 - price) / price == 1.0 / price;
    assert 1.0 / price > 0.0;
  }

  // ---- the exact condition of every leaf without a look-back ----

  /** Every forward-bounded leaf but the one scaled by past volatility. */
  predicate NoLookBack(kind: Kind) {
    ForwardBounded(kind) && kind != VolBarrier3CTimed
  }

  /** One past the last tick the label can depend on.  An extremum must lie in the first quarter of
      its window, so a window below eight ticks has room for none and the label is constant. */
  function ExactReach(kind: Kind, extra: int): nat
    requires NoLookBack(kind)
  {
    if (kind == WillPeak || kind == WillValley) && Positive(extra, 500) < 8 then 1 else Reach(kind, extra)
  }

  lemma NoRoomForAnExtremum(p: Prices, idx: nat, price: real, extra: int, sign: real)
    requires idx < |p| && price > 0.0 && Positive(extra, 500) < 8 && (sign == 1.0 || sign == -1.0)
    ensures Extremum(p, idx, price, extra, sign) == Num(0.0)
  {
    var end := ScanEnd(idx, Positive(extra, 500), |p|);
    ExtremeMeaning(p, idx, if idx + 1 <= end then end else idx + 1, price, sign);
    hide Extreme;
  }

  // ---- markets that leak ----

  function Flat(n: nat, price: real): (p: Prices)
    ensures |p| == n && forall k :: 0 <= k < n ==> p[k] == price
  {
    seq(n, _ => price)
  }

  lemma FlatIsLabelled(kind: Kind, n: nat, idx: nat, price: real, tp: real, sl: real, extra: int, sqrt: real -> real)
    requires NoLookBack(kind) && price > 0.0 && n > idx + Reach(kind, extra)
    ensures SampleLabel(kind, Flat(n, price), idx, price, tp, sl, extra, sqrt).Num?
  {
    hide Extreme, FirstTouch, UpBarrier, DownBarrier, RatioExceeds;
  }

  lemma BarriersAround(price: real, tp: real, sl: real)
    requires price > 0.0 && tp > 0.0 && sl > 0.0
    ensures DownBarrier(price, sl) < price < UpBarrier(price, tp)
  {
    assert price * (tp / 100.0) > 0.0 && price * (sl / 100.0) > 0.0;
    assert UpBarrier(price, tp) == price + price * (tp / 100.0);
    assert DownBarrier(price, sl) == price - price * (sl / 100.0);
  }

  /** A flat market never touches; one that reaches the up barrier at its last tick does. */
  lemma TouchesDiffer(idx: nat, lookahead: nat, price: real, up: real, down: real)
    requires lookahead >= 2 && down < price < up
    ensures var p := Flat(idx + lookahead, price);
            && BoundedTouch(p, idx, lookahead, up, down) == Neither
            && BoundedTouch(p[idx + lookahead - 1 := up], idx, lookahead, up, down) == Up
  {
    var p := Flat(idx + lookahead, price);
    var q := p[idx + lookahead - 1 := up];
    FirstTouchMeaning(p, idx + 1, idx + lookahead, up, down);
    FirstTouchMeaning(q, idx + 1, idx + lookahead, up, down);
    assert Between(p, idx + 1, idx + lookahead, up, down);
    assert q[idx + lookahead - 1] >= up && Between(q, idx + 1, idx + lookahead - 1, up, down);
  }

  lemma ReturnsDiffer(price: real, up: real)
    requires 0.0 < price < up
    ensures (up - price) / price != (price - price) / price
    ensures (up - price) / price * 100.0 != (price - price) / price * 100.0
  {
    assert (up - price) / price > 0.0;
  }

  /** An early extremum of one percent, and the same market with a wider one at the last tick. */
  function EarlyPeak(n: nat, idx: nat, price: real, sign: real): Prices
    requires idx + 1 < n
  {
    Flat(n, price)[idx + 1 := Bump(price, sign, 1.0)]
  }

  function Bump(price: real, sign: real, percent: real): real {
    price * (1.0 + percent / 100.0 * sign)
  }

  lemma BumpsGrow(price: real, sign: real)
    requires price > 0.0 && (sign == 1.0 || sign == -1.0)
    ensures sign * price < sign * Bump(price, sign, 1.0) < sign * Bump(price, sign, 2.0)
    ensures RatioExceeds(sign * (Bump(price, sign, 1.0) - price), price, 0.001)
  {
    assert sign * (Bump(price, sign, 1.0) - price) == 0.01 * price;
    assert 0.01 * price / price == 0.01;
  }

  lemma EarlyExtremumCounts(idx: nat, lookahead: nat, price: real, extra: int, sign: real)
    requires lookahead == Positive(extra, 500) >= 8 && price > 0.0 && (sign == 1.0 || sign == -1.0)
    ensures Extremum(EarlyPeak(idx + lookahead, idx, price, sign), idx, price, extra, sign) == Num(1.0)
  {
    var p := EarlyPeak(idx + lookahead, idx, price, sign);
    BumpsGrow(price, sign);
    hide Bump, Extreme, RatioExceeds;
    ExtremeMeaning(p, idx, idx + lookahead, price, sign);
    assert sign * p[idx + 1] > sign * price;
  }

  lemma LateExtremumDoesNot(idx: nat, lookahead: nat, price: real, extra: int, sign: real)
    requires lookahead == Positive(extra, 500) >= 8 && price > 0.0 && (sign == 1.0 || sign == -1.0)
    ensures var p := EarlyPeak(idx + lookahead, idx, price, sign);
            Extremum(p[idx + lookahead - 1 := Bump(price, sign, 2.0)], idx, price, extra, sign) == Num(0.0)
  {
    var end := idx + lookahead;
    var q := EarlyPeak(end, idx, price, sign)[end - 1 := Bump(price, sign, 2.0)];
    BumpsGrow(price, sign);
    hide Bump, Extreme, RatioExceeds;
    ExtremeMeaning(q, idx, end, price, sign);
    assert sign * q[end - 1] > sign * price;
  }

  /** Two markets that agree before `bound` and label the sample at `idx` differently, when its
      dependence passes the bound. */
  lemma LastLabelLeaks(kind: Kind, idx: nat, bound: nat, price: real, tp: real, sl: real, extra: int, sqrt: real -> real)
      returns (p: Prices, q: Prices)
    requires NoLookBack(kind) && price > 0.0 && tp > 0.0 && sl > 0.0 && idx + ExactReach(kind, extra) > bound
    ensures AgreeBefore(p, q, bound)
    ensures SampleLabel(kind, p, idx, price, tp, sl, extra, sqrt) != SampleLabel(kind, q, idx, price, tp, sl, extra, sqrt)
  {
    var reach := ExactReach(kind, extra);
    var target := idx + reach - 1;
    if reach == 1 {
      p, q := Flat(idx, price), Flat(idx + Reach(kind, extra) + 1, price);
      FlatIsLabelled(kind, idx + Reach(kind, extra) + 1, idx, price, tp, sl, extra, sqrt);
      hide Leaf;
    } else if kind == WillPeak || kind == WillValley {
      var sign := if kind == WillPeak then 1.0 else -1.0;
      p := EarlyPeak(target + 1, idx, price, sign);
      q := p[target := Bump(price, sign, 2.0)];
      EarlyExtremumCounts(idx, reach, price, extra, sign);
      LateExtremumDoesNot(idx, reach, price, extra, sign);
      hide Extremum;
    } else {
      BarriersAround(price, tp, sl);
      hide UpBarrier, DownBarrier;
      p := Flat(target + 1, price);
      q := p[target := UpBarrier(price, tp)];
      if kind == PeakValleyStable {
        TouchesDiffer(idx, reach, price, UpBarrier(price, tp), DownBarrier(price, sl));
        hide BoundedTouch;
      } else {
        ReturnsDiffer(price, UpBarrier(price, tp));
      }
    }
  }

  /** Training labels are independent of the evaluation block if and only if the last training
      sample's dependence ends before it: on the sample ticks alone, for every leaf without a
      look-back, positive prices and positive barriers. */
  lemma LabelExactCondition(kind: Kind, ticks: seq<nat>, prices: seq<real>, trainEnd: nat, evalStart: nat,
                            tp: real, sl: real, extra: int, sqrt: real -> real)
    requires NoLookBack(kind) && tp > 0.0 && sl > 0.0 && SpacedBy(ticks, 0)
    requires trainEnd <= |ticks| == |prices| && evalStart < |ticks|
    requires forall i :: 0 <= i < |prices| ==> prices[i] > 0.0
    ensures Independent(kind, ticks, prices, trainEnd, evalStart, tp, sl, extra, sqrt)
       <==> (trainEnd > 0 ==> ticks[trainEnd - 1] + ExactReach(kind, extra) <= ticks[evalStart])
  {
    if trainEnd == 0 {
    } else if ticks[trainEnd - 1] + ExactReach(kind, extra) > ticks[evalStart] {
      var p, q := LastLabelLeaks(kind, ticks[trainEnd - 1], ticks[evalStart], prices[trainEnd - 1], tp, sl, extra, sqrt);
    } else if ExactReach(kind, extra) == Reach(kind, extra) {
      ClearWindowIsIndependent(kind, ticks, prices, trainEnd, evalStart, tp, sl, extra, sqrt);
    } else {
      forall p: Prices, q: Prices, i: nat | i < trainEnd && AgreeBefore(p, q, ticks[evalStart])
        ensures SampleLabel(kind, p, ticks[i], prices[i], tp, sl, extra, sqrt)
             == SampleLabel(kind, q, ticks[i], prices[i], tp, sl, extra, sqrt)
      {
        SpacingAdds(ticks, 0, i, trainEnd - 1);
        var sign := if kind == WillPeak then 1.0 else -1.0;
        NoRoomForAnExtremum(p, ticks[i], prices[i], extra, sign);
        NoRoomForAnExtremum(q, ticks[i], prices[i], extra, sign);
      }
    }
  }
}
