/** Compaction of the labelled samples before training: the walk-forward pass over all samples and
    the held-out pass over both sides of the purge band.  Each counts first, allocates exactly that
    much, and fills in a second pass that must select the same samples. */
module Compaction {
  import opened Labels
  import opened LabelLeakage

  const MIN_SAMPLES: nat := 100
  const MIN_EVAL: nat := 10

  /** Binary labels drop the neutral value, multiclass labels drop what is not finite, regression
      keeps everything. */
  datatype Filter = DropNeutral | DropNotFinite | KeepAll

  predicate Keeps(filter: Filter, l: Label) {
    match filter
    case DropNeutral => l != Num(0.5)
    case DropNotFinite => l.Num?
    case KeepAll => true
  }

  // ---- which samples are kept ----

  /** The kept source indices of [lo, hi), oldest first. */
  function Kept(labels: seq<Label>, filter: Filter, lo: nat, hi: nat): (r: seq<nat>)
    requires hi <= |labels|
    ensures |r| <= hi && forall j :: 0 <= j < |r| ==> lo <= r[j] < hi
    decreases hi
  {
    if hi <= lo then []
    else Kept(labels, filter, lo, hi - 1) + if Keeps(filter, labels[hi - 1]) then [hi - 1] else []
  }

  /** Order-preserving and exact: strictly increasing sources, all of them and only them. */
  lemma {:induction false} KeptIsTheFilter(labels: seq<Label>, filter: Filter, lo: nat, hi: nat)
    requires hi <= |labels|
    ensures var r := Kept(labels, filter, lo, hi);
            && (forall j, k :: 0 <= j < k < |r| ==> r[j] < r[k])
            && (forall i :: i in r <==> lo <= i < hi && Keeps(filter, labels[i]))
    decreases hi
  {
    hide Keeps, Kept;
    KeptUnfolds(labels, filter, lo, hi);
    if lo < hi {
      KeptIsTheFilter(labels, filter, lo, hi - 1);
      OneMoreKept(Kept(labels, filter, lo, hi - 1), hi - 1, Keeps(filter, labels[hi - 1]));
    }
  }

  lemma KeptUnfolds(labels: seq<Label>, filter: Filter, lo: nat, hi: nat)
    requires hi <= |labels|
    ensures Kept(labels, filter, lo, hi)
         == if hi <= lo then [] else Kept(labels, filter, lo, hi - 1) + if Keeps(filter, labels[hi - 1]) then [hi - 1] else []
  {
    hide Keeps;
  }

  lemma OneMoreKept(before: seq<nat>, i: nat, now: bool)
    requires (forall j, k :: 0 <= j < k < |before| ==> before[j] < before[k]) && forall j :: 0 <= j < |before| ==> before[j] < i
    ensures var r := before + if now then [i] else [];
            && (forall j, k :: 0 <= j < k < |r| ==> r[j] < r[k])
            && (forall x :: x in r <==> x in before || (now && x == i))
  {
  }

  /** A sample is kept unless the binary filter meets the neutral value or the multiclass filter a
      label that is not finite. */
  lemma KeptUnless(labels: seq<Label>, filter: Filter, lo: nat, hi: nat, i: nat)
    requires lo <= i < hi <= |labels|
    ensures i in Kept(labels, filter, lo, hi)
       <==> !(filter == DropNeutral && labels[i] == Num(0.5)) && !(filter == DropNotFinite && labels[i] == NotFinite)
  {
    hide Kept;
    KeptIsTheFilter(labels, filter, lo, hi);
  }

  /** What is already kept stays kept at the same place. */
  lemma KeptPrefix(labels: seq<Label>, filter: Filter, lo: nat, mid: nat, hi: nat)
    requires mid <= hi <= |labels|
    ensures Kept(labels, filter, lo, mid) <= Kept(labels, filter, lo, hi)
    decreases hi
  {
    if mid < hi {
      KeptPrefix(labels, filter, lo, mid, hi - 1);
    }
  }

  lemma KeptStep(labels: seq<Label>, filter: Filter, lo: nat, i: nat)
    requires lo <= i < |labels|
    ensures Kept(labels, filter, lo, i + 1) == Kept(labels, filter, lo, i) + if Keeps(filter, labels[i]) then [i] else []
    ensures Kept(labels, filter, lo, i + 1) <= Kept(labels, filter, lo, |labels|)
  {
    KeptPrefix(labels, filter, lo, i + 1, |labels|);
  }

  /** Only the labels of the range matter. */
  lemma KeptIsLocal(a: seq<Label>, b: seq<Label>, filter: Filter, lo: nat, hi: nat)
    requires hi <= |a| && hi <= |b| && forall i :: lo <= i < hi ==> a[i] == b[i]
    ensures Kept(a, filter, lo, hi) == Kept(b, filter, lo, hi)
    decreases hi
  {
    if lo < hi {
      KeptIsLocal(a, b, filter, lo, hi - 1);
    }
  }

  /** The compacted buffers hold, in order, the labels and feature rows of the kept samples. */
  ghost predicate Holds(kept: seq<nat>, n: nat, labels: seq<Label>, features: array2<real>,
                        outLabels: array<Label>, rows: array2<real>)
    reads features, outLabels, rows
  {
    && n <= |kept| && n <= outLabels.Length && n <= rows.Length0
    && features.Length0 == |labels| && rows.Length1 == features.Length1
    && (forall j :: 0 <= j < n ==> kept[j] < |labels| && outLabels[j] == labels[kept[j]])
    && (forall j, k :: 0 <= j < n && 0 <= k < features.Length1 ==> rows[j, k] == features[kept[j], k])
  }

  /** Filled to the last cell, and only with kept samples. */
  ghost predicate Filled(kept: seq<nat>, labels: seq<Label>, features: array2<real>,
                         outLabels: array<Label>, rows: array2<real>)
    reads features, outLabels, rows
  {
    outLabels.Length == rows.Length0 == |kept| && Holds(kept, |kept|, labels, features, outLabels, rows)
  }

  /** Copy sample i to place j of a buffer. */
  method CopySample(labels: seq<Label>, features: array2<real>, i: nat, ghost kept: seq<nat>, j: nat,
                    outLabels: array<Label>, rows: array2<real>)
    requires Holds(kept, j, labels, features, outLabels, rows) && features != rows
    requires j < |kept| && kept[j] == i < |labels| && j < outLabels.Length && j < rows.Length0
    modifies outLabels, rows
    ensures Holds(kept, j + 1, labels, features, outLabels, rows)
  {
    for k := 0 to features.Length1
      invariant forall c :: 0 <= c < k ==> rows[j, c] == features[i, c]
      invariant forall m :: 0 <= m < j ==> outLabels[m] == labels[kept[m]]
      invariant forall m, c :: 0 <= m < j && 0 <= c < features.Length1 ==> rows[m, c] == features[kept[m], c]
    {
      rows[j, k] := features[i, k];
    }
    outLabels[j] := labels[i];
  }

  // ---- walk-forward ----

  /** What the degenerate-label scan looks at. */
  predicate Scanned(filter: Filter, l: Label) {
    l.Num? && (filter == DropNeutral ==> l != Num(0.5))
  }

  ghost predicate SingleClass(labels: seq<Label>, filter: Filter, n: nat)
    requires n <= |labels|
  {
    && (exists i :: 0 <= i < n && Scanned(filter, labels[i]))
    && (forall i, j :: 0 <= i < n && 0 <= j < n && Scanned(filter, labels[i]) && Scanned(filter, labels[j]) ==>
          labels[i] == labels[j])
  }

  /** A label set has a single class exactly when there is a value, among the labels and not the
      neutral one of a binary task, that is every label's which is finite and not neutral. */
  lemma SingleClassMeaning(labels: seq<Label>, filter: Filter)
    ensures SingleClass(labels, filter, |labels|)
       <==> exists v: real :: IsTheClass(labels, filter, v)
  {
    if SingleClass(labels, filter, |labels|) {
      var i :| 0 <= i < |labels| && Scanned(filter, labels[i]);
      assert IsTheClass(labels, filter, labels[i].v);
    }
    if v: real :| IsTheClass(labels, filter, v) {
      var i :| 0 <= i < |labels| && labels[i] == Num(v);
      assert Scanned(filter, labels[i]);
      forall k | 0 <= k < |labels| && Scanned(filter, labels[k])
        ensures labels[k] == Num(v)
      {
        assert labels[k] in labels;
      }
    }
  }

  ghost predicate IsTheClass(labels: seq<Label>, filter: Filter, v: real) {
    && Num(v) in labels && (filter == DropNeutral ==> v != 0.5)
    && forall l :: l in labels && l != Num(v) ==> l == NotFinite || (filter == DropNeutral && l == Num(0.5))
  }

  /** The refusal: some usable label, and all of them equal. */
  method IsDegenerate(labels: seq<Label>, filter: Filter) returns (refuse: bool)
    ensures refuse <==> SingleClass(labels, filter, |labels|)
  {
    var first: Label, have := Num(0.0), false;
    var i := 0;
    ghost var at := 0;
    while i < |labels|
      invariant 0 <= i <= |labels|
      invariant have ==> 0 <= at < i && Scanned(filter, labels[at]) && labels[at] == first
      invariant forall k :: 0 <= k < i && Scanned(filter, labels[k]) ==> have && labels[k] == first
    {
      var v := labels[i];
      if Scanned(filter, v) {
        if !have {
          first, have, at := v, true, i;
        } else if v != first {
          return false;
        }
      }
      i := i + 1;
    }
    refuse := have;
  }

  method CountKept(labels: seq<Label>, filter: Filter) returns (n: nat)
    ensures n == |Kept(labels, filter, 0, |labels|)|
  {
    n := 0;
    if filter == KeepAll {
      KeepAllKeepsAll(labels, |labels|);
      return |labels|;
    }
    for i := 0 to |labels|
      invariant n == |Kept(labels, filter, 0, i)|
    {
      if Keeps(filter, labels[i]) { n := n + 1; }
    }
  }

  lemma KeepAllKeepsAll(labels: seq<Label>, n: nat)
    requires n <= |labels|
    ensures |Kept(labels, KeepAll, 0, n)| == n
  {
    if n > 0 {
      KeepAllKeepsAll(labels, n - 1);
    }
  }

  predicate Accepts(labels: seq<Label>, filter: Filter) {
    |labels| >= MIN_SAMPLES && |Kept(labels, filter, 0, |labels|)| >= MIN_SAMPLES
  }

  /** The walk-forward compaction: refused exactly on too few samples or a single-class label set;
      otherwise features, labels and source indices of the filter, buffers filled exactly. */
  method CompactWalkForward(labels: seq<Label>, features: array2<real>, filter: Filter)
    returns (ok: bool, outLabels: array<Label>, rows: array2<real>, indices: array<nat>)
    requires features.Length0 == |labels|
    ensures ok <==> |labels| >= 100 && |Kept(labels, filter, 0, |labels|)| >= 100 && !SingleClass(labels, filter, |labels|)
    ensures ok ==> indices[..] == Kept(labels, filter, 0, |labels|)
    ensures ok ==> var kept := Kept(labels, filter, 0, |labels|);
              && outLabels.Length == rows.Length0 == |kept| && rows.Length1 == features.Length1
              && (forall j :: 0 <= j < |kept| ==> outLabels[j] == labels[kept[j]])
              && (forall j, k :: 0 <= j < |kept| && 0 <= k < features.Length1 ==> rows[j, k] == features[kept[j], k])
  {
    hide Keeps, SingleClass, Kept;
    outLabels, rows, indices := new Label[0], new real[0, 0], new nat[0];
    if |labels| < MIN_SAMPLES { return false, outLabels, rows, indices; }
    var count := CountKept(labels, filter);
    if count < MIN_SAMPLES { return false, outLabels, rows, indices; }
    var degenerate := IsDegenerate(labels, filter);
    if degenerate { return false, outLabels, rows, indices; }
    ok := true;
    outLabels, rows, indices := FillKept(labels, features, filter, count);
  }

  lemma NothingYet(labels: seq<Label>, filter: Filter, lo: nat, features: array2<real>, outLabels: array<Label>, rows: array2<real>)
    requires features.Length0 == |labels| && rows.Length1 == features.Length1
    ensures Kept(labels, filter, lo, 0) == []
    ensures Holds(Kept(labels, filter, lo, |labels|), 0, labels, features, outLabels, rows)
  {
  }

  method FillKept(labels: seq<Label>, features: array2<real>, filter: Filter, count: nat)
    returns (outLabels: array<Label>, rows: array2<real>, indices: array<nat>)
    requires features.Length0 == |labels| && count == |Kept(labels, filter, 0, |labels|)|
    ensures indices[..] == Kept(labels, filter, 0, |labels|)
    ensures Filled(Kept(labels, filter, 0, |labels|), labels, features, outLabels, rows)
  {
    hide Keeps, Kept, Holds;
    ghost var kept := Kept(labels, filter, 0, |labels|);
    outLabels, rows, indices := new Label[count], new real[count, features.Length1], new nat[count];
    NothingYet(labels, filter, 0, features, outLabels, rows);
    var j := 0;
    for i := 0 to |labels|
      invariant j == |Kept(labels, filter, 0, i)| && Kept(labels, filter, 0, i) <= kept
      invariant Holds(kept, j, labels, features, outLabels, rows)
      invariant forall m :: 0 <= m < j ==> indices[m] == kept[m]
    {
      KeptStep(labels, filter, 0, i);
      if Keeps(filter, labels[i]) {
        CopySample(labels, features, i, kept, j, outLabels, rows);
        indices[j] := i;
        j := j + 1;
      }
    }
  }

  // ---- held-out evaluation ----

  /** The train and evaluation samples among the first i. */
  function TrainKept(labels: seq<Label>, filter: Filter, trainEnd: nat, i: nat): seq<nat>
    requires i <= |labels|
  {
    Kept(labels, filter, 0, if i < trainEnd then i else trainEnd)
  }

  function EvalKept(labels: seq<Label>, filter: Filter, evalStart: nat, i: nat): seq<nat>
    requires i <= |labels|
  {
    Kept(labels, filter, evalStart, i)
  }

  lemma HeldOutStep(labels: seq<Label>, filter: Filter, trainEnd: nat, evalStart: nat, i: nat)
    requires i < |labels| && trainEnd <= evalStart
    ensures TrainKept(labels, filter, trainEnd, i + 1) == TrainKept(labels, filter, trainEnd, i)
              + if i < trainEnd && Keeps(filter, labels[i]) then [i] else []
    ensures EvalKept(labels, filter, evalStart, i + 1) == EvalKept(labels, filter, evalStart, i)
              + if i >= evalStart && Keeps(filter, labels[i]) then [i] else []
    ensures TrainKept(labels, filter, trainEnd, i + 1) <= TrainKept(labels, filter, trainEnd, |labels|)
    ensures EvalKept(labels, filter, evalStart, i + 1) <= EvalKept(labels, filter, evalStart, |labels|)
  {
    hide Keeps;
    if evalStart <= i { KeptStep(labels, filter, evalStart, i); }
    if i < trainEnd { KeptStep(labels, filter, 0, i); }
    hide Kept;
    KeptPrefix(labels, filter, 0, if i + 1 < trainEnd then i + 1 else trainEnd, if |labels| < trainEnd then |labels| else trainEnd);
  }

  /** The counting pass. */
  method CountSides(labels: seq<Label>, filter: Filter, trainEnd: nat, evalStart: nat) returns (train: nat, eval: nat)
    requires trainEnd <= evalStart
    ensures train == |TrainKept(labels, filter, trainEnd, |labels|)|
    ensures eval == |EvalKept(labels, filter, evalStart, |labels|)|
  {
    train, eval := 0, 0;
    for i := 0 to |labels|
      invariant train == |TrainKept(labels, filter, trainEnd, i)|
      invariant eval == |EvalKept(labels, filter, evalStart, i)|
    {
      HeldOutStep(labels, filter, trainEnd, evalStart, i);
      if Keeps(filter, labels[i]) {
        if i < trainEnd { train := train + 1; } else if i >= evalStart { eval := eval + 1; }
      }
    }
  }

  /** The refusals of the held-out evaluation. */
  predicate HeldOutAccepts(locked: bool, labels: seq<Label>, filter: Filter, trainvalEnd: nat, purge: nat) {
    var trainEnd := TrainEnd(trainvalEnd, purge);
    && !locked && |labels| > trainvalEnd && trainEnd > 0
    && |TrainKept(labels, filter, trainEnd, |labels|)| >= MIN_SAMPLES
    && |EvalKept(labels, filter, trainvalEnd, |labels|)| >= MIN_EVAL
  }

  /** The held-out compaction, with every refusal in the order the code makes them.  The filling
      pass never leaves a buffer and never leaves a hole, so it selects what was counted. */
  method CompactHeldOut(locked: bool, labels: seq<Label>, features: array2<real>, filter: Filter,
                        trainvalEnd: nat, purge: nat)
    returns (ok: bool, trainLabels: array<Label>, trainRows: array2<real>, evalLabels: array<Label>, evalRows: array2<real>)
    requires features.Length0 == |labels|
    ensures ok <==> HeldOutAccepts(locked, labels, filter, trainvalEnd, purge)
    ensures ok <==> !locked && purge < trainvalEnd < |labels|
                    && |Kept(labels, filter, 0, trainvalEnd - purge)| >= 100
                    && |Kept(labels, filter, trainvalEnd, |labels|)| >= 10
    ensures ok ==> var kept := Kept(labels, filter, 0, trainvalEnd - purge);
              && trainLabels.Length == trainRows.Length0 == |kept| && trainRows.Length1 == features.Length1
              && (forall j :: 0 <= j < |kept| ==> trainLabels[j] == labels[kept[j]])
              && (forall j, k :: 0 <= j < |kept| && 0 <= k < features.Length1 ==> trainRows[j, k] == features[kept[j], k])
    ensures ok ==> var kept := Kept(labels, filter, trainvalEnd, |labels|);
              && evalLabels.Length == evalRows.Length0 == |kept| && evalRows.Length1 == features.Length1
              && (forall j :: 0 <= j < |kept| ==> evalLabels[j] == labels[kept[j]])
              && (forall j, k :: 0 <= j < |kept| && 0 <= k < features.Length1 ==> evalRows[j, k] == features[kept[j], k])
  {
    hide Keeps, Kept;
    trainLabels, trainRows, evalLabels, evalRows := new Label[0], new real[0, 0], new Label[0], new real[0, 0];
    ok := false;
    if locked { return; }
    if |labels| <= trainvalEnd { return; }
    var trainEnd := TrainEnd(trainvalEnd, purge);
    if trainEnd == 0 { return; }
    var train, eval := CountSides(labels, filter, trainEnd, trainvalEnd);
    if train < MIN_SAMPLES || eval < MIN_EVAL { return; }
    ok := true;
    trainLabels, trainRows, evalLabels, evalRows := FillSides(labels, features, filter, trainEnd, trainvalEnd, train, eval);
  }

  /** The filling pass. */
  method FillSides(labels: seq<Label>, features: array2<real>, filter: Filter, trainEnd: nat, evalStart: nat,
                   train: nat, eval: nat)
    returns (trainLabels: array<Label>, trainRows: array2<real>, evalLabels: array<Label>, evalRows: array2<real>)
    requires features.Length0 == |labels| && trainEnd <= evalStart
    requires train == |TrainKept(labels, filter, trainEnd, |labels|)|
    requires eval == |EvalKept(labels, filter, evalStart, |labels|)|
    ensures Filled(TrainKept(labels, filter, trainEnd, |labels|), labels, features, trainLabels, trainRows)
    ensures Filled(EvalKept(labels, filter, evalStart, |labels|), labels, features, evalLabels, evalRows)
  {
    hide Keeps, TrainKept, EvalKept;
    ghost var trains, evals := TrainKept(labels, filter, trainEnd, |labels|), EvalKept(labels, filter, evalStart, |labels|);
    trainLabels, trainRows := new Label[train], new real[train, features.Length1];
    evalLabels, evalRows := new Label[eval], new real[eval, features.Length1];
    NothingKeptYet(labels, filter, trainEnd, evalStart);
    var ti, ei := 0, 0;
    for i := 0 to |labels|
      invariant ti == |TrainKept(labels, filter, trainEnd, i)| && TrainKept(labels, filter, trainEnd, i) <= trains
      invariant ei == |EvalKept(labels, filter, evalStart, i)| && EvalKept(labels, filter, evalStart, i) <= evals
      invariant Holds(trains, ti, labels, features, trainLabels, trainRows)
      invariant Holds(evals, ei, labels, features, evalLabels, evalRows)
    {
      HeldOutStep(labels, filter, trainEnd, evalStart, i);
      if Keeps(filter, labels[i]) {
        if i < trainEnd {
          CopySample(labels, features, i, trains, ti, trainLabels, trainRows);
          ti := ti + 1;
        } else if i >= evalStart {
          CopySample(labels, features, i, evals, ei, evalLabels, evalRows);
          ei := ei + 1;
        }
      }
    }
  }

  lemma NothingKeptYet(labels: seq<Label>, filter: Filter, trainEnd: nat, evalStart: nat)
    ensures TrainKept(labels, filter, trainEnd, 0) == [] && EvalKept(labels, filter, evalStart, 0) == []
  {
  }

  /** The purge band reaches neither side: between any training row and any evaluation row lie at
      least `purge` samples. */
  lemma PurgeBandIsDropped(labels: seq<Label>, filter: Filter, trainvalEnd: nat, purge: nat, t: nat, e: nat)
    requires t in TrainKept(labels, filter, TrainEnd(trainvalEnd, purge), |labels|)
    requires e in EvalKept(labels, filter, trainvalEnd, |labels|)
    ensures e - t > purge
  {
    var trains := TrainKept(labels, filter, TrainEnd(trainvalEnd, purge), |labels|);
    var evals := EvalKept(labels, filter, trainvalEnd, |labels|);
    var j :| 0 <= j < |trains| && trains[j] == t;
    var k :| 0 <= k < |evals| && evals[k] == e;
  }

  // ---- what the training buffer depends on ----

  /** The label table of a tick array. */
  function LabelTable(kind: Kind, p: Prices, ticks: seq<nat>, prices: seq<real>, tp: real, sl: real, extra: int,
                      sqrt: real -> real): (r: seq<Label>)
    requires |ticks| == |prices|
    ensures |r| == |ticks|
  {
    seq(|ticks|, i requires 0 <= i < |ticks| => SampleLabel(kind, p, ticks[i], prices[i], tp, sl, extra, sqrt))
  }

  /** End to end: two markets that agree up to the first evaluation sample give the training buffer
      the same rows and the same labels. */
  lemma TrainingBufferIgnoresEvaluation(kind: Kind, p: Prices, q: Prices, ticks: seq<nat>, prices: seq<real>,
                                        filter: Filter, trainvalEnd: nat, horizon: int, reach: nat,
                                        tp: real, sl: real, extra: int, sqrt: real -> real)
    requires ForwardBounded(kind) && Reach(kind, extra) <= horizon + 1 && horizon >= 1
    requires |ticks| == |prices| && trainvalEnd < |ticks| && SpacedBy(ticks, Split.TicksPerSample(ticks))
    requires AgreeBefore(p, q, ticks[trainvalEnd])
    ensures var a, b := LabelTable(kind, p, ticks, prices, tp, sl, extra, sqrt),
                        LabelTable(kind, q, ticks, prices, tp, sl, extra, sqrt);
            var trainEnd := TrainEnd(trainvalEnd, HeldOutPurge(horizon, ticks, reach));
            var kept := TrainKept(a, filter, trainEnd, |ticks|);
            kept == TrainKept(b, filter, trainEnd, |ticks|) && forall i :: i in kept ==> i < |ticks| && a[i] == b[i]
  {
    hide SampleLabel, HeldOutPurge, SpacedBy, AgreeBefore, Reach, Split.TicksPerSample;
    var a, b := LabelTable(kind, p, ticks, prices, tp, sl, extra, sqrt), LabelTable(kind, q, ticks, prices, tp, sl, extra, sqrt);
    var trainEnd := TrainEnd(trainvalEnd, HeldOutPurge(horizon, ticks, reach));
    HeldOutLabelsAreIndependent(kind, ticks, prices, trainvalEnd, horizon, reach, tp, sl, extra, sqrt);
    assert forall i :: 0 <= i < trainEnd ==> a[i] == b[i];
    KeptIsLocal(a, b, filter, 0, trainEnd);
  }

  /** A compacted gap spans at least as many source samples, whatever was dropped. */
  lemma CompactedGapSpans(labels: seq<Label>, filter: Filter, j: nat, k: nat)
    requires j <= k < |Kept(labels, filter, 0, |labels|)|
    ensures var r := Kept(labels, filter, 0, |labels|); r[k] - r[j] >= k - j
    decreases k - j
  {
    KeptIsTheFilter(labels, filter, 0, |labels|);
    if j < k {
      CompactedGapSpans(labels, filter, j, k - 1);
    }
  }
}
