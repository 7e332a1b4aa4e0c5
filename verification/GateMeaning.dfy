/** What the numbers of the skill gate count: samples of a class, hits among them, the population of
    the floor, and the mean recall over the classes that occur. */
module GateMeaning {
  import opened Labels
  import opened SkillGate
  import LabelMeaning

  // ---- classes ----

  /** A binary label is of class one above a half; a multiclass label is rounded half up where it is
      not negative. */
  lemma TruthMeaning(value: real, k: nat)
    ensures Truth(Binary, value) == if value > 0.5 then 1 else 0
    ensures value >= 0.0 ==> (Truth(Multiclass, value) == k <==> k as real - 0.5 <= value < k as real + 0.5)
    ensures value <= -1.5 ==> Truth(Multiclass, value) < 0
    ensures -1.5 < value < 0.0 ==> Truth(Multiclass, value) == 0
  {
  }

  // ---- counts are cardinalities ----

  ghost function Having(kind: Task, labels: seq<real>, n: nat, k: int): set<int>
    requires n <= |labels|
  {
    set i | 0 <= i < n && Truth(kind, labels[i]) == k
  }

  lemma OneMore(before: set<int>, i: int, after: set<int>, now: bool)
    requires i !in before && after == before + if now then {i} else {}
    ensures |after| == |before| + if now then 1 else 0
  {
  }

  lemma HavingStep(kind: Task, labels: seq<real>, n: nat, k: int)
    requires 0 < n <= |labels|
    ensures n - 1 !in Having(kind, labels, n - 1, k)
    ensures Having(kind, labels, n, k)
         == Having(kind, labels, n - 1, k) + if Truth(kind, labels[n - 1]) == k then {n - 1} else {}
  {
    hide Truth;
  }

  /** A total is the number of samples of its class. */
  lemma {:induction false} TotalIsTheNumber(kind: Task, labels: seq<real>, n: nat, k: int)
    requires n <= |labels|
    ensures TotalOf(kind, labels, n, k) == |Having(kind, labels, n, k)|
  {
    hide Truth;
    if n == 0 {
      assert Having(kind, labels, 0, k) == {};
    } else {
      hide Having;
      TotalIsTheNumber(kind, labels, n - 1, k);
      HavingStep(kind, labels, n, k);
      OneMore(Having(kind, labels, n - 1, k), n - 1, Having(kind, labels, n, k), Truth(kind, labels[n - 1]) == k);
    }
  }

  ghost function Hit(kind: Task, labels: seq<real>, predicted: seq<int>, n: nat, k: int): set<int>
    requires n <= |labels| && n <= |predicted|
  {
    set i | 0 <= i < n && Truth(kind, labels[i]) == k && predicted[i] == k
  }

  lemma HitStep(kind: Task, labels: seq<real>, predicted: seq<int>, n: nat, k: int)
    requires 0 < n <= |labels| && n <= |predicted|
    ensures n - 1 !in Hit(kind, labels, predicted, n - 1, k)
    ensures Hit(kind, labels, predicted, n, k) == Hit(kind, labels, predicted, n - 1, k)
              + if Truth(kind, labels[n - 1]) == k && predicted[n - 1] == k then {n - 1} else {}
  {
    hide Truth;
  }

  /** Its hits are those of them that are predicted right. */
  lemma {:induction false} CorrectIsTheNumber(kind: Task, labels: seq<real>, predicted: seq<int>, n: nat, k: int)
    requires n <= |labels| && n <= |predicted|
    ensures CorrectOf(kind, labels, predicted, n, k) == |Hit(kind, labels, predicted, n, k)|
  {
    hide Truth;
    if n == 0 {
      assert Hit(kind, labels, predicted, 0, k) == {};
    } else {
      hide Hit;
      CorrectIsTheNumber(kind, labels, predicted, n - 1, k);
      HitStep(kind, labels, predicted, n, k);
      OneMore(Hit(kind, labels, predicted, n - 1, k), n - 1, Hit(kind, labels, predicted, n, k),
              Truth(kind, labels[n - 1]) == k && predicted[n - 1] == k);
    }
  }

  ghost function BinaryHit(labels: seq<real>, predictions: seq<real>, threshold: real, one: bool): set<int>
    requires |labels| == |predictions|
  {
    set i | 0 <= i < |labels| && (labels[i] > 0.5 <==> one) && (predictions[i] >= threshold <==> one)
  }

  /** The binary hits, in terms of the two values and the threshold. */
  lemma BinaryHitsAreTheNumber(labels: seq<real>, predictions: seq<real>, threshold: real)
    requires |labels| == |predictions|
    ensures CorrectOf(Binary, labels, Thresholded(predictions, threshold), |labels|, 1)
         == |BinaryHit(labels, predictions, threshold, true)|
    ensures CorrectOf(Binary, labels, Thresholded(predictions, threshold), |labels|, 0)
         == |BinaryHit(labels, predictions, threshold, false)|
  {
    hide CorrectOf;
    var predicted := Thresholded(predictions, threshold);
    CorrectIsTheNumber(Binary, labels, predicted, |labels|, 1);
    CorrectIsTheNumber(Binary, labels, predicted, |labels|, 0);
    assert Hit(Binary, labels, predicted, |labels|, 1) == BinaryHit(labels, predictions, threshold, true);
    assert Hit(Binary, labels, predicted, |labels|, 0) == BinaryHit(labels, predictions, threshold, false);
  }

  /** The prediction of a row is its first largest probability. */
  lemma PredictionIsTheFirstLargest(predictions: seq<real>, numClasses: nat, predicted: seq<int>, i: nat, k: nat) returns (at: nat)
    requires Predicted(predictions, numClasses, predicted) && i < |predicted| && k < numClasses
    requires |predictions| == |predicted| * numClasses
    ensures at == i * numClasses && at + numClasses <= |predictions| && 0 <= predicted[i] < numClasses
    ensures predictions[at + k] <= predictions[at + predicted[i]]
    ensures k < predicted[i] ==> predictions[at + k] < predictions[at + predicted[i]]
  {
    at := RowStarts(predictions, |predicted|, numClasses, i);
    var row := RowOf(predictions, i, numClasses);
    assert IsArgmax(row, predicted[i]);
    hide RowOf, Predicted;
    assert row[k] == predictions[at + k] && row[predicted[i]] == predictions[at + predicted[i]];
  }

  lemma RowStarts(predictions: seq<real>, count: nat, numClasses: nat, i: nat) returns (at: nat)
    requires |predictions| == count * numClasses && i < count
    ensures at == i * numClasses && at + numClasses <= |predictions|
    ensures RowOf(predictions, i, numClasses) == predictions[at..at + numClasses]
  {
    RowFits(i, count, numClasses);
    at := i * numClasses;
    assert (i + 1) * numClasses == at + numClasses;
  }

  // ---- the population ----

  /** The population of the floor: in order, the value of every label that is finite and, for a binary
      task, not one half. */
  lemma {:induction false} PopulationIsTheFilter(kind: Task, labels: seq<Label>) returns (sources: seq<nat>)
    ensures |sources| == |Population(kind, labels)|
    ensures forall j :: 0 <= j < |sources| ==> sources[j] < |labels| && labels[sources[j]] == Num(Population(kind, labels)[j])
    ensures forall j, k :: 0 <= j < k < |sources| ==> sources[j] < sources[k]
    ensures forall i :: i in sources <==> 0 <= i < |labels| && labels[i].Num? && (kind == Binary ==> labels[i] != Num(0.5))
  {
    sources := [];
    if labels != [] {
      var n := |labels| - 1;
      var before := PopulationIsTheFilter(kind, labels[..n]);
      var counts := labels[n].Num? && (kind == Binary ==> labels[n] != Num(0.5));
      sources := before + if counts then [n] else [];
      assert Population(kind, labels) == Population(kind, labels[..n]) + if counts then [labels[n].v] else [];
      hide Population;
      forall i
        ensures i in sources <==> 0 <= i < |labels| && labels[i].Num? && (kind == Binary ==> labels[i] != Num(0.5))
      {
        assert i in sources <==> i in before || (counts && i == n);
        if 0 <= i < n { assert labels[..n][i] == labels[i]; }
      }
    }
  }

  ghost function WithClass(kind: Task, values: seq<real>): set<int> {
    set i | 0 <= i < |values| && 0 <= Truth(kind, values[i]) < 16
  }

  lemma WithClassStep(kind: Task, values: seq<real>, n: nat)
    requires n + 1 == |values|
    ensures n !in WithClass(kind, values[..n])
    ensures WithClass(kind, values) == WithClass(kind, values[..n]) + if 0 <= Truth(kind, values[n]) < 16 then {n} else {}
  {
    hide Truth;
  }

  /** The total of the histogram is the number of values with one of the sixteen classes. */
  lemma {:induction false} InTableIsTheNumber(kind: Task, values: seq<real>)
    ensures InTable(kind, values) == |WithClass(kind, values)|
  {
    hide Truth;
    if values == [] {
      assert WithClass(kind, values) == {};
    } else {
      hide WithClass;
      var n := |values| - 1;
      InTableIsTheNumber(kind, values[..n]);
      WithClassStep(kind, values, n);
      OneMore(WithClass(kind, values[..n]), n, WithClass(kind, values), 0 <= Truth(kind, values[n]) < 16);
    }
  }

  // ---- the score and the floor ----

  ghost function Occurring(total: seq<int>, n: nat): set<int>
    requires n <= |total|
  {
    set k | 0 <= k < n && total[k] > 0
  }

  lemma {:induction false} PresentIsTheNumber(total: seq<int>, n: nat)
    requires n <= |total|
    ensures Present(total, n) == |Occurring(total, n)|
  {
    if n == 0 {
      assert Occurring(total, 0) == {};
    } else {
      PresentIsTheNumber(total, n - 1);
      assert Occurring(total, n) == Occurring(total, n - 1) + if total[n - 1] > 0 then {n - 1} else {};
    }
  }

  /** The recalls of the first n classes: hits over total, zero for a class that does not occur. */
  ghost predicate AreRecalls(recalls: seq<real>, correct: seq<int>, total: seq<int>) {
    |recalls| <= |correct| == |total| && forall k :: 0 <= k < |recalls| ==>
      if total[k] > 0 then recalls[k] * total[k] as real == correct[k] as real else recalls[k] == 0.0
  }

  lemma {:induction false} RecallsSum(recalls: seq<real>, correct: seq<int>, total: seq<int>)
    requires AreRecalls(recalls, correct, total)
    ensures RecallSum(correct, total, |recalls|) == LabelMeaning.Sum(recalls)
  {
    if recalls != [] {
      var n := |recalls| - 1;
      RecallsSum(recalls[..n], correct, total);
      if total[n] > 0 { OneQuotient(recalls[n], correct[n] as real, total[n] as real); }
      assert recalls[n] == Recall(correct, total, n);
    }
  }

  lemma OneQuotient(q: real, c: real, t: real)
    requires t > 0.0 && q * t == c
    ensures q == c / t
  {
  }

  /** The score is the mean recall over the classes that occur. */
  lemma BalancedIsTheMean(recalls: seq<real>, correct: seq<int>, total: seq<int>)
    requires AreRecalls(recalls, correct, total)
    ensures var classes := Occurring(total, |recalls|); var score := Balanced(correct, total, |recalls|);
            && (classes != {} ==> score * |classes| as real == LabelMeaning.Sum(recalls))
            && (classes == {} ==> score == 0.0)
  {
    hide RecallSum, Present;
    PresentIsTheNumber(total, |recalls|);
    RecallsSum(recalls, correct, total);
  }

  /** The floor is one over the classes that occur among the first sixteen; over all classes of the
      task where fewer than two occur or nothing was counted. */
  lemma FloorIsOneOver(numClasses: int, counts: seq<int>, samples: int)
    requires |counts| == 16
    ensures var n: nat := if numClasses > 2 then numClasses else 2;
            var classes := Occurring(counts, if n < 16 then n else 16);
            Floor(numClasses, counts, samples) * (if samples > 0 && |classes| >= 2 then |classes| else n) as real == 1.0
  {
    var n: nat := if numClasses > 2 then numClasses else 2;
    hide Present;
    PresentIsTheNumber(counts, if n < 16 then n else 16);
  }
}
