/** The skill gate compares the mean of the fold scores with the floor of the whole population.  What
    that does to a predictor without skill, for every list of folds. */
module FoldGate {
  import opened Labels
  import opened Compaction
  import opened SkillGate
  import opened LabelMeaning
  import Split = ValidationSplit

  // ---- the mean over folds ----

  /** Zero when no fold was counted. */
  function Mean(scores: seq<real>): real {
    if |scores| == 0 then 0.0 else Sum(scores) / |scores| as real
  }

  method MeanOverFolds(scores: seq<real>) returns (mean: real)
    ensures mean * |scores| as real == Sum(scores) && (scores == [] ==> mean == 0.0)
    ensures mean == Mean(scores)
  {
    var sum, counted := 0.0, 0;
    for i := 0 to |scores|
      invariant counted == i && sum == Sum(scores[..i])
    {
      assert scores[..i + 1][..i] == scores[..i];
      sum, counted := sum + scores[i], counted + 1;
    }
    assert scores[..|scores|] == scores;
    mean := 0.0;
    if counted > 0 { mean := sum / counted as real; }
  }

  /** The score of a fold under some predictions. */
  function FoldScore(kind: Task, fold: seq<real>, predicted: seq<int>, cap: nat): real
    requires |fold| == |predicted| && cap <= MAX_CLASSES
  {
    Balanced(Hits(kind, fold, predicted), Totals(kind, fold), cap)
  }

  ghost predicate AlwaysSays(folds: seq<seq<real>>, predictions: seq<seq<int>>, c: int) {
    |predictions| == |folds| && forall f :: 0 <= f < |folds| ==>
      |predictions[f]| == |folds[f]| && forall i :: 0 <= i < |predictions[f]| ==> predictions[f][i] == c
  }

  function FoldScores(kind: Task, folds: seq<seq<real>>, predictions: seq<seq<int>>, cap: nat): (r: seq<real>)
    requires |predictions| == |folds| && cap <= MAX_CLASSES
    requires forall f :: 0 <= f < |folds| ==> |predictions[f]| == |folds[f]|
    ensures |r| == |folds|
  {
    seq(|folds|, f requires 0 <= f < |folds| => FoldScore(kind, folds[f], predictions[f], cap))
  }

  /** What a fold contributes to a predictor of class c: a function of its labels alone. */
  function Share(kind: Task, fold: seq<real>, cap: nat, c: nat): real
    requires c < cap <= MAX_CLASSES
  {
    var total := Totals(kind, fold);
    if total[c] > 0 && Present(total, cap) > 0 then 1.0 / Present(total, cap) as real else 0.0
  }

  function Shares(kind: Task, folds: seq<seq<real>>, cap: nat, c: nat): real
    requires c < cap <= MAX_CLASSES
  {
    if folds == [] then 0.0 else Shares(kind, folds[..|folds| - 1], cap, c) + Share(kind, folds[|folds| - 1], cap, c)
  }

  lemma ScoreIsShare(kind: Task, fold: seq<real>, predicted: seq<int>, cap: nat, c: nat)
    requires |fold| == |predicted| && c < cap <= MAX_CLASSES && forall i :: 0 <= i < |predicted| ==> predicted[i] == c
    ensures FoldScore(kind, fold, predicted, cap) == Share(kind, fold, cap, c)
  {
    hide Balanced, Present, TotalOf, CorrectOf;
    ConstantScore(kind, fold, predicted, cap, Hits(kind, fold, predicted), Totals(kind, fold), c);
  }

  lemma {:induction false} ScoresSum(kind: Task, folds: seq<seq<real>>, predictions: seq<seq<int>>, cap: nat, c: nat)
    requires c < cap <= MAX_CLASSES && AlwaysSays(folds, predictions, c)
    ensures Sum(FoldScores(kind, folds, predictions, cap)) == Shares(kind, folds, cap, c)
  {
    hide FoldScore, Share;
    if folds != [] {
      var k := |folds| - 1;
      ScoresSum(kind, folds[..k], predictions[..k], cap, c);
      ScoreIsShare(kind, folds[k], predictions[k], cap, c);
      var scores := FoldScores(kind, folds, predictions, cap);
      assert scores[..k] == FoldScores(kind, folds[..k], predictions[..k], cap);
    }
  }

  lemma QuotientsCompare(sum: real, f: nat, p: nat)
    requires f > 0 && p > 0
    ensures sum / f as real <= 1.0 / p as real <==> sum <= f as real / p as real
  {
    var x, y := f as real, p as real;
    assert (sum / x) * x == sum && (1.0 / y) * x == x / y;
    if sum / x <= 1.0 / y {
      assert (1.0 / y - sum / x) * x >= 0.0;
    } else {
      assert (sum / x - 1.0 / y) * x > 0.0;
    }
  }

  /** The exact verdict on a predictor that always says c: for every list of folds it is refused if
      and only if the shares of the folds sum to at most the folds over the classes of the whole
      population.  Everything here but the verdict is a function of the labels. */
  lemma ConstantRefusedExactly(kind: Task, folds: seq<seq<real>>, predictions: seq<seq<int>>, whole: seq<real>,
                               numClasses: int, samples: int, c: nat)
    requires numClasses >= 2 && samples > 0 && c < Cap(numClasses) && AlwaysSays(folds, predictions, c)
    requires Present(Totals(kind, whole), Cap(numClasses)) >= 2
    ensures var cap := Cap(numClasses); var present := Present(Totals(kind, whole), cap);
            Refused(Mean(FoldScores(kind, folds, predictions, cap)), Floor(numClasses, Totals(kind, whole), samples))
            <==> Shares(kind, folds, cap, c) <= |folds| as real / present as real
  {
    hide FoldScores, Present, Totals;
    var cap := Cap(numClasses);
    ScoresSum(kind, folds, predictions, cap, c);
    if |folds| > 0 {
      QuotientsCompare(Shares(kind, folds, cap, c), |folds|, Present(Totals(kind, whole), cap));
    }
  }

  /** When every fold holds at least as many classes as the whole population, it is refused. */
  lemma FullFoldsRefuse(kind: Task, folds: seq<seq<real>>, predictions: seq<seq<int>>, whole: seq<real>,
                        numClasses: int, samples: int, c: nat)
    requires numClasses >= 2 && samples > 0 && c < Cap(numClasses) && AlwaysSays(folds, predictions, c)
    requires Present(Totals(kind, whole), Cap(numClasses)) >= 2
    requires forall f :: 0 <= f < |folds| ==>
               Present(Totals(kind, folds[f]), Cap(numClasses)) >= Present(Totals(kind, whole), Cap(numClasses))
    ensures Refused(Mean(FoldScores(kind, folds, predictions, Cap(numClasses))), Floor(numClasses, Totals(kind, whole), samples))
  {
    hide FoldScores, Present, Totals, Mean, Floor;
    ConstantRefusedExactly(kind, folds, predictions, whole, numClasses, samples, c);
    SharesBounded(kind, folds, Cap(numClasses), c, Present(Totals(kind, whole), Cap(numClasses)));
  }

  lemma {:induction false} SharesBounded(kind: Task, folds: seq<seq<real>>, cap: nat, c: nat, present: nat)
    requires c < cap <= MAX_CLASSES && present > 0
    requires forall f :: 0 <= f < |folds| ==> Present(Totals(kind, folds[f]), cap) >= present
    ensures Shares(kind, folds, cap, c) <= |folds| as real / present as real
  {
    hide Present, Totals;
    if folds != [] {
      var k := |folds| - 1;
      SharesBounded(kind, folds[..k], cap, c, present);
      ReciprocalOrder(present, Present(Totals(kind, folds[k]), cap));
      OneMore(k, present);
    }
  }

  lemma ReciprocalOrder(a: nat, b: nat)
    requires 0 < a <= b
    ensures 0.0 < 1.0 / b as real <= 1.0 / a as real
  {
    var x, y := a as real, b as real;
    assert (1.0 / x) * x == 1.0 && (1.0 / y) * y == 1.0;
    assert (1.0 / x) * (y - x) >= 0.0;
  }

  lemma OneMore(k: nat, p: nat)
    requires p > 0
    ensures (k + 1) as real / p as real == k as real / p as real + 1.0 / p as real
  {
  }

  /** Folds of one share. */
  lemma {:induction false} SharesOf(kind: Task, folds: seq<seq<real>>, cap: nat, c: nat, share: real)
    requires c < cap <= MAX_CLASSES && forall f :: 0 <= f < |folds| ==> Share(kind, folds[f], cap, c) == share
    ensures Shares(kind, folds, cap, c) == |folds| as real * share
  {
    hide Share;
    if folds != [] {
      SharesOf(kind, folds[..|folds| - 1], cap, c, share);
    }
  }

  // ---- the folds of a walk-forward ----

  /** The test sides of the first i folds that are valid and large enough to be counted. */
  function CountedTests(values: seq<real>, n: nat, purge: int, minTrain: int, i: nat): seq<seq<real>>
    requires 1 <= n <= |values| && i <= n
  {
    if i == 0 then []
    else
      var f := Split.FoldAt(|values|, n, purge, minTrain, i - 1);
      Split.StartsGrow(|values|, n, i - 1, i);
      Split.StartsGrow(|values|, n, i, n);
      Split.LastTestEnd(|values|, n);
      CountedTests(values, n, purge, minTrain, i - 1)
      + if f.valid && f.trainCount >= 10 && f.testCount >= 5
        then [values[f.testStart..f.testEnd]] else []
  }

  /** Three classes in the first hundred samples, two afterwards. */
  function RareClass(): (r: seq<real>)
    ensures |r| == 500
    ensures forall i :: 0 <= i < 500 ==> r[i] == if i < 100 then (i % 3) as real else (i % 2) as real
  {
    seq(500, i => if i < 100 then (i % 3) as real else (i % 2) as real)
  }

  function AsLabels(values: seq<real>): (r: seq<Label>)
    ensures |r| == |values|
  {
    seq(|values|, i requires 0 <= i < |values| => Num(values[i]))
  }

  lemma PopulationOf(values: seq<real>)
    ensures Population(Multiclass, AsLabels(values)) == values
  {
    if values != [] {
      var front := values[..|values| - 1];
      PopulationOf(front);
      assert AsLabels(values)[..|values| - 1] == AsLabels(front);
    }
  }

  lemma AllLabelsKept(values: seq<real>, n: nat)
    requires n <= |values|
    ensures |Kept(AsLabels(values), DropNotFinite, 0, n)| == n
  {
    if n > 0 { AllLabelsKept(values, n - 1); }
  }

  lemma WholeNumbers()
    ensures Truth(Multiclass, 0.0) == 0 && Truth(Multiclass, 1.0) == 1 && Truth(Multiclass, 2.0) == 2
  {
  }

  lemma PresentOfThree(total: seq<int>)
    requires |total| >= 3
    ensures Present(total, 3) == (if total[0] > 0 then 1 else 0) + (if total[1] > 0 then 1 else 0) + (if total[2] > 0 then 1 else 0)
  {
    assert Present(total, 1) == Present(total, 0) + if total[0] > 0 then 1 else 0;
    assert Present(total, 2) == Present(total, 1) + if total[1] > 0 then 1 else 0;
  }

  lemma WholeHasThree()
    ensures Present(Totals(Multiclass, RareClass()), 3) == 3
  {
    var values := RareClass();
    WholeNumbers();
    assert values[0] == 0.0 && values[1] == 1.0 && values[2] == 2.0;
    hide Truth, RareClass;
    OccursExactly(Multiclass, values, |values|, 0);
    OccursExactly(Multiclass, values, |values|, 1);
    OccursExactly(Multiclass, values, |values|, 2);
    PresentOfThree(Totals(Multiclass, values));
  }

  lemma LateTestHasTwo(lo: nat, hi: nat)
    requires 100 <= lo && lo + 2 <= hi <= 500 && lo % 2 == 0
    ensures Share(Multiclass, RareClass()[lo..hi], 3, 0) == 0.5
  {
    var values := RareClass()[lo..hi];
    WholeNumbers();
    assert values[0] == 0.0 && values[1] == 1.0;
    assert forall i :: 0 <= i < |values| ==> values[i] == ((lo + i) % 2) as real;
    assert forall i :: 0 <= i < |values| ==> values[i] == 0.0 || values[i] == 1.0;
    hide Truth, RareClass;
    OccursExactly(Multiclass, values, |values|, 0);
    OccursExactly(Multiclass, values, |values|, 1);
    OccursExactly(Multiclass, values, |values|, 2);
    PresentOfThree(Totals(Multiclass, values));
    hide Present, TotalOf;
  }

  lemma HundredEach(i: nat)
    requires i <= 5
    ensures Split.TestStart(500, 5, i) == 100 * i
  {
    Split.TestStartClosed(500, 5, i);
  }

  lemma FifthFold(i: nat)
    requires i < 5
    ensures var f := Split.FoldAt(500, 5, 2, 50, i);
            && f.testStart == 100 * i && f.testEnd == 100 * (i + 1) && f.testCount == 100
            && (f.valid <==> i > 0) && (f.valid ==> f.trainCount == 100 * i - 2)
  {
    HundredEach(i);
    HundredEach(i + 1);
    hide Split.TestStart;
  }

  lemma {:induction false} FourTests(i: nat)
    requires 1 <= i <= 5
    ensures var folds := CountedTests(RareClass(), 5, 2, 50, i);
            |folds| == i - 1 && forall f :: 0 <= f < i - 1 ==> folds[f] == RareClass()[100 * (f + 1)..100 * (f + 2)]
  {
    FifthFold(i - 1);
    hide Split.FoldAt, Split.TestStart, RareClass;
    if i > 1 {
      FourTests(i - 1);
    } else {
      assert CountedTests(RareClass(), 5, 2, 50, 0) == [];
    }
  }

  /** A receivable case: five hundred samples of three classes, a walk-forward of five folds planned
      with a gap of two (one sample of horizon or feature reach, one of buffer), four folds counted
      with a hundred test samples each.  The third class does not occur in any test side, so a
      predictor that always says class 0 scores one half and passes a floor of one third. */
  lemma ConstantCanPassFolds(predictions: seq<seq<int>>)
    requires AlwaysSays(CountedTests(RareClass(), 5, 2, 50, 5), predictions, 0)
    ensures var labels := AsLabels(RareClass());
            && Accepts(labels, DropNotFinite) && !SingleClass(labels, DropNotFinite, |labels|)
            && Split.Plans(2, 500, 500, 5) && Split.CompactedPurge(2, 500, 500) == 2
            && Population(Multiclass, labels) == RareClass()
    ensures var folds := CountedTests(RareClass(), 5, 2, 50, 5);
            && |folds| == 4 && (forall f :: 0 <= f < 4 ==> |folds[f]| == 100)
            && !Refused(Mean(FoldScores(Multiclass, folds, predictions, 3)), Floor(3, Totals(Multiclass, RareClass()), 500))
  {
    hide CountedTests, RareClass, Share, Present, Totals, FoldScores, Floor, Mean, Shares, Accepts, SingleClass, Population,
         AsLabels, AlwaysSays, Split.Plans, Split.CompactedPurge;
    AcceptedRareClass();
    FourHalves();
    WholeHasThree();
    ConstantRefusedExactly(Multiclass, CountedTests(RareClass(), 5, 2, 50, 5), predictions, RareClass(), 3, 500, 0);
  }

  lemma FourHalves()
    ensures var folds := CountedTests(RareClass(), 5, 2, 50, 5);
            |folds| == 4 && (forall f :: 0 <= f < 4 ==> |folds[f]| == 100) && Shares(Multiclass, folds, 3, 0) == 2.0
  {
    hide CountedTests, RareClass, Share, Shares;
    FourTests(5);
    var folds := CountedTests(RareClass(), 5, 2, 50, 5);
    forall f | 0 <= f < |folds|
      ensures Share(Multiclass, folds[f], 3, 0) == 0.5
    {
      LateTestHasTwo(100 * (f + 1), 100 * (f + 2));
    }
    SharesOf(Multiclass, folds, 3, 0, 0.5);
  }

  lemma AcceptedRareClass()
    ensures var labels := AsLabels(RareClass());
            && Accepts(labels, DropNotFinite) && !SingleClass(labels, DropNotFinite, |labels|)
            && Population(Multiclass, labels) == RareClass()
    ensures Split.Plans(2, 500, 500, 5) && Split.CompactedPurge(2, 500, 500) == 2
  {
    var values := RareClass();
    var labels := AsLabels(values);
    assert values[0] == 0.0 && values[1] == 1.0;
    hide RareClass;
    AllLabelsKept(values, 500);
    PopulationOf(values);
    GapAtFullDensity();
    assert labels[0] == Num(0.0) && labels[1] == Num(1.0);
    hide AsLabels, Population, Split.CompactedPurge, Kept;
    assert Scanned(DropNotFinite, labels[0]) && Scanned(DropNotFinite, labels[1]);
  }

  lemma GapAtFullDensity()
    ensures Split.CompactedPurge(2, 500, 500) == 2
  {
    assert 500 as real / 500 as real == 1.0;
  }
}
