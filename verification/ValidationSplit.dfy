/** Purged walk-forward splits: the purge gap, the folds, and the standalone verifier. */
module ValidationSplit {
  import opened Arithmetic

  const MAX_FOLDS: nat := 20
  const PURGE_BUFFER_DEFAULT: nat := 512

  // ---- ticks to samples ----

  /** The one tick-to-sample conversion: ceiling division, at least one tick per sample. */
  function TicksToSamples(ticks: int, ticksPerSample: int): nat {
    var tps := if ticksPerSample < 1 then 1 else ticksPerSample;
    if ticks <= 0 then 0 else (ticks + tps - 1) / tps
  }

  lemma CeilingFacts(a: nat, d: nat)
    requires d >= 1
    ensures var q := (a + d - 1) / d; q * d >= a && (q >= 1 ==> (q - 1) * d < a)
  {
    var q := (a + d - 1) / d;
    assert a + d - 1 == q * d + (a + d - 1) % d;
    assert (q - 1) * d == q * d - d;
  }

  /** The conversion errs on the safe side and by less than one sample: it is the smallest sample
      count whose ticks cover the reach.  A cadence below one tick counts as one. */
  lemma TicksToSamplesIsCeiling(ticks: int, tps: int, s: nat)
    ensures ticks <= s * (if tps >= 1 then tps else 1) <==> TicksToSamples(ticks, tps) <= s
  {
    var d: nat := if tps >= 1 then tps else 1;
    Gap(0, s, d);
    if ticks > 0 {
      CeilingFacts(ticks, d);
      var q := TicksToSamples(ticks, tps);
      if q <= s {
        Gap(q, s, d);
      } else {
        Gap(s, q - 1, d);
      }
    }
  }

  /** Mean spacing of the collected samples, never below one. */
  function TicksPerSample(tickIndices: seq<int>): int {
    if |tickIndices| < 2 then 1
    else
      var span := tickIndices[|tickIndices| - 1] - tickIndices[0];
      if span <= 0 || span / (|tickIndices| - 1) < 1 then 1 else span / (|tickIndices| - 1)
  }

  /** The cadence is the whole part of the mean spacing, and one where the samples lie closer. */
  lemma CadenceIsTheMean(tickIndices: seq<int>)
    ensures var tps := TicksPerSample(tickIndices);
            && tps >= 1 && (|tickIndices| < 2 ==> tps == 1)
            && (|tickIndices| >= 2 ==>
                  var steps, span := |tickIndices| - 1, tickIndices[|tickIndices| - 1] - tickIndices[0];
                  (if span < steps then tps == 1 else tps * steps <= span < tps * steps + steps))
  {
    if |tickIndices| >= 2 {
      var steps, span := |tickIndices| - 1, tickIndices[|tickIndices| - 1] - tickIndices[0];
      var q := span / steps;
      assert q * steps <= span < q * steps + steps;
      if span < steps {
        if q >= 1 { Gap(1, q, steps); }
      } else if q < 1 {
        Gap(q, 0, steps);
      }
    }
  }

  /** `reach` is the largest feature reach in samples at the measured cadence. */
  function PurgeGap(horizonTicks: int, bufferTicks: int, ticksPerSample: int, reach: nat): nat {
    var horizon := TicksToSamples(horizonTicks, ticksPerSample);
    (if horizon > reach then horizon else reach) + TicksToSamples(bufferTicks, ticksPerSample)
  }

  /** The gap is the least one that covers the label horizon in ticks and the feature reach in
      samples, and the buffer of `spare` samples on top: the fewest that cover its ticks. */
  lemma PurgeGapIsTheLeast(horizonTicks: int, bufferTicks: int, tps: int, reach: nat, s: nat, spare: nat)
    requires var d := if tps >= 1 then tps else 1;
             bufferTicks <= spare * d && (spare > 0 ==> bufferTicks > (spare - 1) * d)
    ensures PurgeGap(horizonTicks, bufferTicks, tps, reach) <= s + spare
       <==> horizonTicks <= s * (if tps >= 1 then tps else 1) && reach <= s
  {
    hide TicksToSamples;
    TicksToSamplesIsCeiling(bufferTicks, tps, spare);
    if spare > 0 { TicksToSamplesIsCeiling(bufferTicks, tps, spare - 1); }
    TicksToSamplesIsCeiling(horizonTicks, tps, s);
  }

  // ---- folds ----

  datatype Split = Split(trainStart: int, trainEnd: int, testStart: int, testEnd: int,
                         purgeGap: int, trainCount: int, testCount: int, valid: bool)

  function FoldCount(nSplits: int): nat {
    if nSplits < 2 then 2 else if nSplits > MAX_FOLDS then MAX_FOLDS else nSplits
  }

  /** Of the counts from two to twenty it is the one nearest to what was asked for. */
  lemma FoldCountIsTheNearest(nSplits: int, k: int)
    requires 2 <= k <= 20
    ensures 2 <= FoldCount(nSplits) <= 20
    ensures k <= nSplits ==> k <= FoldCount(nSplits)
    ensures k >= nSplits ==> k >= FoldCount(nSplits)
  {
  }

  /** Size of test fold i: the remainder goes to the earlier folds. */
  function FoldSize(total: nat, n: nat, i: nat): nat
    requires n >= 1
  {
    total / n + if i < total % n then 1 else 0
  }

  function TestStart(total: nat, n: nat, i: nat): nat
    requires n >= 1
  {
    if i == 0 then 0 else TestStart(total, n, i - 1) + FoldSize(total, n, i - 1)
  }

  /** Enough history is left before the purge band. */
  predicate Usable(total: nat, n: nat, purge: int, minTrain: int, i: nat)
    requires n >= 1
  {
    TestStart(total, n, i) - purge > 0 && TestStart(total, n, i) - purge >= minTrain
  }

  function FoldAt(total: nat, n: nat, purge: int, minTrain: int, i: nat): Split
    requires n >= 1
  {
    var start, end := TestStart(total, n, i), TestStart(total, n, i + 1);
    if Usable(total, n, purge, minTrain, i)
    then Split(0, start - purge, start, end, purge, start - purge, end - start, true)
    else Split(0, 0, start, end, purge, 0, end - start, false)
  }

  function ValidUpTo(total: nat, n: nat, purge: int, minTrain: int, i: nat): nat
    requires n >= 1
  {
    if i == 0 then 0
    else ValidUpTo(total, n, purge, minTrain, i - 1) + if Usable(total, n, purge, minTrain, i - 1) then 1 else 0
  }

  lemma {:induction false} TestStartClosed(total: nat, n: nat, i: nat)
    requires n >= 1
    ensures TestStart(total, n, i) == i * (total / n) + if i < total % n then i else total % n
  {
    if i > 0 {
      TestStartClosed(total, n, i - 1);
      assert i * (total / n) == (i - 1) * (total / n) + total / n;
    }
  }

  /** What a fold says: consecutive test ranges in closed form, the remainder one sample each to the
      first folds; a valid fold trains on everything up to the gap before its test range, which
      meets the minimum; an invalid one trains on nothing because it would not. */
  lemma FoldMeaning(total: nat, n: nat, purge: int, minTrain: int, i: nat)
    requires n >= 1
    ensures var f := FoldAt(total, n, purge, minTrain, i);
            && f.testStart == i * (total / n) + (if i < total % n then i else total % n)
            && f.testCount == f.testEnd - f.testStart == total / n + (if i < total % n then 1 else 0)
            && f.trainStart == 0 && f.trainCount == f.trainEnd && f.purgeGap == purge
            && f.trainEnd == (if f.valid then f.testStart - purge else 0)
            && (f.valid <==> f.testStart - purge >= 1 && f.testStart - purge >= minTrain)
  {
    TestStartClosed(total, n, i);
  }

  lemma LastTestEnd(total: nat, n: nat)
    requires n >= 1
    ensures TestStart(total, n, n) == total
  {
    TestStartClosed(total, n, n);
    assert total == n * (total / n) + total % n;
  }

  /** The test ranges tile [0, total): consecutive by construction, ending at total, and no two
      folds differ in size by more than one. */
  lemma TestRangesTile(total: nat, n: nat, i: nat, j: nat)
    requires n >= 1 && i < n && j < n
    ensures TestStart(total, n, 0) == 0 && TestStart(total, n, n) == total
    ensures -1 <= FoldSize(total, n, i) - FoldSize(total, n, j) <= 1
    ensures i < j ==> TestStart(total, n, i + 1) <= TestStart(total, n, j)
  {
    LastTestEnd(total, n);
    if i < j {
      StartsGrow(total, n, i + 1, j);
    }
  }

  lemma StartsGrow(total: nat, n: nat, i: nat, j: nat)
    requires n >= 1 && i <= j
    ensures TestStart(total, n, i) + (if total >= n then j - i else 0) <= TestStart(total, n, j)
    decreases j
  {
    if i < j {
      StartsGrow(total, n, i, j - 1);
      if total >= n { WholeFolds(total, n, 1); }
    }
  }

  lemma WholeFolds(total: nat, n: nat, k: nat)
    requires n >= 1 && total >= k * n
    ensures total / n >= k
  {
    var q := total / n;
    assert total == q * n + total % n && (q + 1) * n == q * n + n;
    if q < k {
      Gap(q + 1, k, n);
    }
  }

  /** Once one fold has enough history every later fold has, and their train ends strictly grow. */
  lemma UsableIsMonotone(total: nat, n: nat, purge: int, minTrain: int, i: nat, j: nat)
    requires n >= 1 && total >= n && i < j && Usable(total, n, purge, minTrain, i)
    ensures Usable(total, n, purge, minTrain, j)
    ensures FoldAt(total, n, purge, minTrain, i).trainEnd < FoldAt(total, n, purge, minTrain, j).trainEnd
  {
    StartsGrow(total, n, i, j);
  }

  /** An accepted walk-forward (purge * n < count) whose folds are no smaller than the training
      minimum loses the first fold, possibly the second, and no other. */
  lemma AcceptedWalkForwardHasFolds(total: nat, n: nat, purge: int, minTrain: int)
    requires 2 <= n && 2 * n <= total
    requires purge >= 1 && purge * n < total && total / n >= minTrain
    ensures !Usable(total, n, purge, minTrain, 0)
    ensures forall i :: 2 <= i < n ==> Usable(total, n, purge, minTrain, i)
    ensures ValidUpTo(total, n, purge, minTrain, n) == if Usable(total, n, purge, minTrain, 1) then n - 1 else n - 2
  {
    var size := total / n;
    assert purge <= size by { WholeFolds(total, n, purge); }
    WholeFolds(total, n, 2);
    assert TestStart(total, n, 2) >= 2 * size by { TestStartClosed(total, n, 2); }
    forall i | 2 <= i < n
      ensures Usable(total, n, purge, minTrain, i)
    {
      StartsGrow(total, n, 2, i);
    }
    AllFromTwo(total, n, purge, minTrain, n);
  }

  lemma AllFromTwo(total: nat, n: nat, purge: int, minTrain: int, i: nat)
    requires n >= 1 && 2 <= i <= n && !Usable(total, n, purge, minTrain, 0)
    requires forall j :: 2 <= j < n ==> Usable(total, n, purge, minTrain, j)
    ensures ValidUpTo(total, n, purge, minTrain, i) == i - if Usable(total, n, purge, minTrain, 1) then 1 else 2
  {
    if i > 2 {
      AllFromTwo(total, n, purge, minTrain, i - 1);
    } else {
      assert ValidUpTo(total, n, purge, minTrain, 0) == 0;
      assert ValidUpTo(total, n, purge, minTrain, 1) == 0;
    }
  }

  /** No fold at all is valid if and only if what precedes the last test range, less the gap, falls
      short of the training minimum. */
  lemma {:induction false} NoFoldUsableExactly(total: nat, n: nat, purge: int, minTrain: int)
    requires n >= 1 && total >= n
    ensures ValidUpTo(total, n, purge, minTrain, n) == 0 <==> !Usable(total, n, purge, minTrain, n - 1)
    ensures Usable(total, n, purge, minTrain, n - 1) <==> total - total / n - purge >= if minTrain > 1 then minTrain else 1
  {
    LastTestEnd(total, n);
    TestStartClosed(total, n, n - 1);
    assert (n - 1) * (total / n) + total % n == total - total / n;
    CountOfNone(total, n, purge, minTrain, n);
    if Usable(total, n, purge, minTrain, n - 1) {
      assert ValidUpTo(total, n, purge, minTrain, n) >= 1;
    } else {
      forall i | 0 <= i < n - 1
        ensures !Usable(total, n, purge, minTrain, i)
      {
        if Usable(total, n, purge, minTrain, i) { UsableIsMonotone(total, n, purge, minTrain, i, n - 1); }
      }
    }
  }

  lemma CountOfNone(total: nat, n: nat, purge: int, minTrain: int, i: nat)
    requires n >= 1 && i <= n
    ensures ValidUpTo(total, n, purge, minTrain, i) == 0 <==> forall j :: 0 <= j < i ==> !Usable(total, n, purge, minTrain, j)
  {
  }

  /** The explicit-gap generator. */
  method GenerateExplicit(folds: array<Split>, total: int, nSplits: int, purge: int, minTrain: int) returns (valid: nat)
    requires folds.Length >= FoldCount(nSplits)
    modifies folds
    ensures total < 2 * FoldCount(nSplits) ==> valid == 0 && unchanged(folds)
    ensures total >= 2 * FoldCount(nSplits) ==>
              && (forall i :: 0 <= i < FoldCount(nSplits) ==>
                    folds[i] == FoldAt(total, FoldCount(nSplits), purge, minTrain, i))
              && valid == ValidUpTo(total, FoldCount(nSplits), purge, minTrain, FoldCount(nSplits))
  {
    var n := FoldCount(nSplits);
    valid := 0;
    if total < n * 2 { return; }
    var foldSize, remainder := total / n, total % n;
    var current := 0;
    for i := 0 to n
      invariant current == TestStart(total, n, i)
      invariant forall k :: 0 <= k < i ==> folds[k] == FoldAt(total, n, purge, minTrain, k)
      invariant valid == ValidUpTo(total, n, purge, minTrain, i)
    {
      var testStart := current;
      var testEnd := current + foldSize + (if i < remainder then 1 else 0);
      LastTestEnd(total, n);
      StartsGrow(total, n, i + 1, n);
      if testEnd > total { testEnd := total; }
      var trainEnd := testStart - purge;
      if trainEnd <= 0 || trainEnd < minTrain {
        folds[i] := Split(0, 0, testStart, testEnd, purge, 0, testEnd - testStart, false);
      } else {
        folds[i] := Split(0, trainEnd, testStart, testEnd, purge, trainEnd, testEnd - testStart, true);
        valid := valid + 1;
      }
      current := testEnd;
    }
  }

  /** A fold that keeps train and test at least the purge gap apart. */
  predicate Clean(f: Split) {
    f.valid ==> f.trainEnd <= f.testStart && f.testStart - f.trainEnd >= f.purgeGap
  }

  method Verify(folds: array<Split>, nSplits: nat) returns (ok: bool)
    requires nSplits <= folds.Length
    ensures ok <==> forall i :: 0 <= i < nSplits && folds[i].valid ==>
              folds[i].trainEnd <= folds[i].testStart && folds[i].testStart - folds[i].trainEnd >= folds[i].purgeGap
    ensures ok <==> forall i :: 0 <= i < nSplits ==> Clean(folds[i])
  {
    for i := 0 to nSplits
      invariant forall k :: 0 <= k < i ==> Clean(folds[k])
    {
      if !folds[i].valid { continue; }
      if folds[i].trainEnd > folds[i].testStart { return false; }
      if folds[i].testStart - folds[i].trainEnd < folds[i].purgeGap { return false; }
    }
    ok := true;
  }

  /** The verifier accepts a generated fold exactly when its gap is not negative or it was skipped:
      a negative explicit gap makes train run into test, and only Verify notices. */
  lemma GeneratedFoldIsClean(total: nat, n: nat, purge: int, minTrain: int, i: nat)
    requires n >= 1
    ensures Clean(FoldAt(total, n, purge, minTrain, i)) <==> purge >= 0 || !Usable(total, n, purge, minTrain, i)
  {
  }

  predicate Violates(f: Split) {
    f.valid && f.trainEnd + f.purgeGap > f.testStart
  }

  function Violations(folds: seq<Split>): nat {
    if folds == [] then 0
    else Violations(folds[..|folds| - 1]) + if Violates(folds[|folds| - 1]) then 1 else 0
  }

  lemma NoViolations(folds: seq<Split>)
    requires forall i :: 0 <= i < |folds| ==> !Violates(folds[i])
    ensures Violations(folds) == 0
  {
  }

  /** The count is the number of violating folds. */
  lemma {:induction false} ViolationsAreCounted(folds: seq<Split>)
    ensures Violations(folds) == |set i | 0 <= i < |folds| && folds[i].valid && folds[i].trainEnd > folds[i].testStart - folds[i].purgeGap|
  {
    var bad := set i | 0 <= i < |folds| && folds[i].valid && folds[i].trainEnd > folds[i].testStart - folds[i].purgeGap;
    if folds == [] {
      assert bad == {};
    } else {
      var k := |folds| - 1;
      ViolationsAreCounted(folds[..k]);
      var fewer := set i | 0 <= i < k && folds[i].valid && folds[i].trainEnd > folds[i].testStart - folds[i].purgeGap;
      assert fewer == set i | 0 <= i < |folds[..k]| && folds[..k][i].valid && folds[..k][i].trainEnd > folds[..k][i].testStart - folds[..k][i].purgeGap;
      assert bad == fewer + if Violates(folds[k]) then {k} else {};
    }
  }

  /** The post-generation check: every violating fold is switched off and nothing else changes. */
  method PostCheck(folds: array<Split>, n: nat, valid: nat) returns (left: int)
    requires n <= folds.Length
    modifies folds
    ensures forall i :: 0 <= i < folds.Length ==>
              folds[i] == if i < n && old(folds[i]).trainEnd > old(folds[i]).testStart - old(folds[i]).purgeGap
                          then old(folds[i]).(valid := false) else old(folds[i])
    ensures left == valid - Violations(old(folds[..n]))
  {
    left := valid;
    ghost var before := folds[..];
    for i := 0 to n
      invariant left == valid - Violations(before[..i])
      invariant forall k :: 0 <= k < folds.Length ==>
                  folds[k] == if k < i && Violates(before[k]) then before[k].(valid := false) else before[k]
    {
      assert before[..i + 1][..i] == before[..i];
      var f := folds[i];
      if !f.valid { continue; }
      if f.trainEnd + f.purgeGap > f.testStart {
        folds[i] := f.(valid := false);
        left := left - 1;
      }
    }
  }

  /** The raw-space generator: identity cadence, then the post-check, which never invalidates a
      fold; so it agrees with the explicit one and every output passes Verify. */
  method Generate(folds: array<Split>, total: int, nSplits: int, horizonTicks: int, bufferTicks: int,
                  minTrain: int, reach: nat) returns (valid: int)
    requires folds.Length >= FoldCount(nSplits)
    modifies folds
    ensures total < 2 * FoldCount(nSplits) ==> valid == 0 && unchanged(folds)
    ensures total >= 2 * FoldCount(nSplits) ==>
              var n, purge := FoldCount(nSplits), PurgeGap(horizonTicks, bufferTicks, 1, reach);
              && (forall i :: 0 <= i < n ==> folds[i] == FoldAt(total, n, purge, minTrain, i) && Clean(folds[i]))
              && valid == ValidUpTo(total, n, purge, minTrain, n)
  {
    if total < 2 * FoldCount(nSplits) { return 0; }
    var purge := PurgeGap(horizonTicks, bufferTicks, 1, reach);
    var generated := GenerateExplicit(folds, total, nSplits, purge, minTrain);
    NoViolations(folds[..FoldCount(nSplits)]);
    valid := PostCheck(folds, FoldCount(nSplits), generated);
  }

  // ---- the walk-forward plan ----

  datatype Plan = Refused | NoValidFold | Planned(valid: nat)

  /** The gap in compacted sample space: scaled by density, rounded half up, at least one. */
  function CompactedPurge(rawPurge: nat, kept: nat, samples: nat): nat
    requires 0 < kept <= samples
  {
    var scaled := (rawPurge as real * (kept as real / samples as real) + 0.5).Floor;
    if scaled < 1 then 1 else scaled
  }

  /** The scaled gap is the raw gap times the kept share, rounded half up, and at least one. */
  lemma CompactedPurgeIsTheNearest(rawPurge: nat, kept: nat, samples: nat, g: nat)
    requires 0 < kept <= samples
    ensures g == CompactedPurge(rawPurge, kept, samples)
       <==> g >= 1 && 2 * (rawPurge * kept) < (2 * g + 1) * samples
            && (g > 1 ==> (2 * g - 1) * samples <= 2 * (rawPurge * kept))
  {
    var x := rawPurge as real * (kept as real / samples as real);
    ShareTimes(rawPurge, kept, samples);
    RealOrder(x, samples, rawPurge * kept, g);
    if g >= 1 { RealOrder(x, samples, rawPurge * kept, g - 1); }
    NearestFloor(x, g);
  }

  lemma ShareTimes(rawPurge: nat, kept: nat, samples: nat)
    requires samples > 0
    ensures rawPurge as real * (kept as real / samples as real) * samples as real == (rawPurge * kept) as real
  {
    var f := kept as real / samples as real;
    assert f * samples as real == kept as real;
    assert rawPurge as real * f * samples as real == rawPurge as real * (f * samples as real);
  }

  lemma RealOrder(x: real, samples: nat, product: nat, g: nat)
    requires samples > 0 && x * samples as real == product as real
    ensures x < g as real + 0.5 <==> 2 * product < (2 * g + 1) * samples
  {
    var bound := (2 * g + 1) * samples;
    TwoG(g, samples);
    OrderScales(x, g as real + 0.5, samples as real, product as real, bound as real / 2.0);
    assert product as real < bound as real / 2.0 <==> 2 * product < bound;
  }

  lemma OrderScales(x: real, y: real, s: real, xs: real, ys: real)
    requires s > 0.0 && xs == x * s && ys == y * s
    ensures x < y <==> xs < ys
  {
    assert (y - x) * s == ys - xs;
    if x < y {
      assert (y - x) * s > 0.0;
    } else {
      assert (x - y) * s >= 0.0;
    }
  }

  lemma TwoG(g: nat, samples: nat)
    ensures ((2 * g + 1) * samples) as real == 2.0 * ((g as real + 0.5) * samples as real)
  {
    assert (2 * g + 1) as real == 2.0 * (g as real + 0.5);
  }

  lemma NearestFloor(x: real, g: nat)
    requires x >= 0.0
    ensures g == (if (x + 0.5).Floor < 1 then 1 else (x + 0.5).Floor)
       <==> g >= 1 && x < g as real + 0.5 && (g > 1 ==> g as real - 0.5 <= x)
  {
  }

  /** The walk-forward plan is not refused. */
  predicate Plans(rawPurge: nat, kept: nat, samples: nat, nSplits: int)
    requires 0 < kept <= samples
  {
    kept >= 100 && CompactedPurge(rawPurge, kept, samples) * SplitsOf(nSplits) < kept
  }

  function SplitsOf(nSplits: int): int {
    if nSplits < 2 then 5 else nSplits
  }

  function MinTrainOf(minTrain: int): int {
    if minTrain < 50 then 50 else minTrain
  }

  /** The accept-or-refuse part of the walk-forward: too few samples or an unaffordable purge is
      refused, and it aborts when not even the last fold can train; what goes on has all but its
      first one or two folds, when a fold is no smaller than the training minimum. */
  method PlanWalkForward(folds: array<Split>, samples: nat, kept: nat, nSplits: int, rawPurge: nat, minTrain: int)
    returns (plan: Plan)
    requires folds.Length == MAX_FOLDS && 0 < kept <= samples
    modifies folds
    ensures plan.Refused? <==>
              kept < 100 || CompactedPurge(rawPurge, kept, samples) * (if nSplits < 2 then 5 else nSplits) >= kept
    ensures plan.Refused? ==> unchanged(folds)
    ensures !plan.Refused? ==>
              var n: nat := if nSplits < 2 then 5 else if nSplits > 20 then 20 else nSplits;
              var least, gap := if minTrain < 50 then 50 else minTrain, CompactedPurge(rawPurge, kept, samples);
              && (plan.Planned? <==> kept - kept / n - gap >= least)
              && (forall i :: 0 <= i < n ==> folds[i] == FoldAt(kept, n, gap, least, i) && Clean(folds[i]))
              && (kept / n >= least ==>
                    && (n > 2 ==> plan.Planned?) && (plan.Planned? ==> n - 2 <= plan.valid <= n - 1))
    ensures plan.Planned? ==> plan.valid > 0
  {
    hide CompactedPurge, FoldAt, TestStart, ValidUpTo, Usable;
    if samples < 100 || kept < 100 { return Refused; }
    var purge := CompactedPurge(rawPurge, kept, samples);
    PurgeIsPositive(rawPurge, kept, samples);
    if purge * SplitsOf(nSplits) >= kept { return Refused; }
    var n := FoldCount(SplitsOf(nSplits));
    var valid := GenerateExplicit(folds, kept, SplitsOf(nSplits), purge, MinTrainOf(minTrain));
    NoFoldUsableExactly(kept, n, purge, MinTrainOf(minTrain));
    Gap(n, SplitsOf(nSplits), purge);
    if kept / n >= MinTrainOf(minTrain) {
      AcceptedWalkForwardHasFolds(kept, n, purge, MinTrainOf(minTrain));
    }
    forall i | 0 <= i < n
      ensures Clean(folds[i])
    {
      GeneratedFoldIsClean(kept, n, purge, MinTrainOf(minTrain), i);
    }
    plan := if valid == 0 then NoValidFold else Planned(valid);
  }

  lemma PurgeIsPositive(rawPurge: nat, kept: nat, samples: nat)
    requires 0 < kept <= samples
    ensures CompactedPurge(rawPurge, kept, samples) >= 1
  {
  }
}
