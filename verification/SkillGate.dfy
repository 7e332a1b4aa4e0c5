/** The skill gate: class counts, balanced accuracy, and the floor a model must beat. */
module SkillGate {
  import opened Labels

  const MAX_CLASSES: nat := 16

  // ---- classes and predictions ----

  /** The C conversion of a real to an integer drops the fraction. */
  function Trunc(x: real): int {
    if x < 0.0 then 0 - (0.0 - x).Floor else x.Floor
  }

  /** Binary labels and predictions are split at a threshold, multiclass labels are rounded. */
  datatype Task = Binary | Multiclass

  function Truth(kind: Task, value: real): int {
    if kind == Binary then (if value > 0.5 then 1 else 0) else Trunc(value + 0.5)
  }

  /** The first class of the largest probability in row i of the flat table. */
  ghost predicate IsArgmax(row: seq<real>, best: int) {
    && 0 <= best < |row|
    && (forall k :: 0 <= k < |row| ==> row[k] <= row[best])
    && (forall k :: 0 <= k < best ==> row[k] < row[best])
  }

  function Cap(numClasses: int): int {
    if numClasses > MAX_CLASSES then MAX_CLASSES else numClasses
  }

  // ---- counting ----

  /** Rows among the first n whose class is k. */
  function TotalOf(kind: Task, labels: seq<real>, n: nat, k: int): nat
    requires n <= |labels|
  {
    if n == 0 then 0 else TotalOf(kind, labels, n - 1, k) + if Truth(kind, labels[n - 1]) == k then 1 else 0
  }

  /** Those of them predicted as k. */
  function CorrectOf(kind: Task, labels: seq<real>, predicted: seq<int>, n: nat, k: int): (r: nat)
    requires n <= |labels| && n <= |predicted|
    ensures r <= TotalOf(kind, labels, n, k)
  {
    if n == 0 then 0
    else CorrectOf(kind, labels, predicted, n - 1, k) + if Truth(kind, labels[n - 1]) == k && predicted[n - 1] == k then 1 else 0
  }

  method Argmax(predictions: seq<real>, at: nat, numClasses: nat) returns (best: int)
    requires numClasses >= 1 && at + numClasses <= |predictions|
    ensures 0 <= best < numClasses
    ensures forall k :: 0 <= k < numClasses ==> predictions[at..][k] <= predictions[at..][best]
    ensures forall k :: 0 <= k < best ==> predictions[at..][k] < predictions[at..][best]
    ensures IsArgmax(predictions[at..at + numClasses], best)
  {
    best := 0;
    var bestP := predictions[at];
    ghost var row := predictions[at..at + numClasses];
    for k := 1 to numClasses
      invariant 0 <= best < k && bestP == row[best]
      invariant forall j :: 0 <= j < k ==> row[j] <= bestP
      invariant forall j :: 0 <= j < best ==> row[j] < bestP
    {
      var p := predictions[at + k];
      assert p == row[k];
      if p > bestP { bestP, best := p, k; }
    }
  }

  /** Row i of the flat prediction table. */
  function RowOf(predictions: seq<real>, i: nat, numClasses: nat): seq<real> {
    if (i + 1) * numClasses <= |predictions| then
      assert i * numClasses >= 0 && (i + 1) * numClasses == i * numClasses + numClasses;
      predictions[i * numClasses..i * numClasses + numClasses]
    else []
  }

  ghost predicate Predicted(predictions: seq<real>, numClasses: nat, predicted: seq<int>) {
    forall i :: 0 <= i < |predicted| ==> IsArgmax(RowOf(predictions, i, numClasses), predicted[i])
  }

  lemma RowFits(i: nat, count: nat, numClasses: nat)
    requires i < count
    ensures 0 <= i * numClasses && i * numClasses + numClasses <= count * numClasses
  {
    assert (count - i - 1) * numClasses >= 0;
    assert count * numClasses == i * numClasses + numClasses + (count - i - 1) * numClasses;
  }

  /** Per-class totals and hits in one pass; classes outside the table are skipped. */
  method ClassCountsMulticlass(predictions: seq<real>, labels: seq<real>, numClasses: int, correct: array<int>,
                               total: array<int>) returns (ghost predicted: seq<int>)
    requires correct.Length == total.Length == MAX_CLASSES && correct != total
    requires numClasses >= 0 ==> |predictions| == |labels| * numClasses
    modifies correct, total
    ensures numClasses >= 2 ==> |predicted| == |labels| && Predicted(predictions, numClasses, predicted)
    ensures forall k :: 0 <= k < MAX_CLASSES ==>
              total[k] == (if k < Cap(numClasses) && numClasses >= 2 then TotalOf(Multiclass, labels, |labels|, k) else 0)
    ensures numClasses >= 2 ==> forall k :: 0 <= k < MAX_CLASSES ==>
              correct[k] == if k < Cap(numClasses) then CorrectOf(Multiclass, labels, predicted, |labels|, k) else 0
  {
    hide IsArgmax, Truth;
    for k := 0 to MAX_CLASSES
      invariant forall j :: 0 <= j < k ==> correct[j] == 0 && total[j] == 0
    {
      correct[k], total[k] := 0, 0;
    }
    predicted := [];
    if numClasses < 2 { return; }
    var cap := Cap(numClasses);
    for i := 0 to |labels|
      invariant |predicted| == i && Predicted(predictions, numClasses, predicted)
      invariant forall k :: 0 <= k < MAX_CLASSES ==> total[k] == if k < cap then TotalOf(Multiclass, labels, i, k) else 0
      invariant forall k :: 0 <= k < MAX_CLASSES ==> correct[k] == if k < cap then CorrectOf(Multiclass, labels, predicted, i, k) else 0
    {
      RowFits(i, |labels|, numClasses);
      var best := Argmax(predictions, i * numClasses, numClasses);
      assert (i + 1) * numClasses == i * numClasses + numClasses;
      assert RowOf(predictions, i, numClasses) == predictions[i * numClasses..i * numClasses + numClasses];
      ghost var before := predicted;
      predicted := predicted + [best];
      PredictionsKept(Multiclass, labels, before, best, i);
      var truth := Truth(Multiclass, labels[i]);
      if 0 <= truth < cap {
        total[truth] := total[truth] + 1;
        if best == truth { correct[truth] := correct[truth] + 1; }
      }
    }
  }

  lemma PredictionsKept(kind: Task, labels: seq<real>, predicted: seq<int>, best: int, n: nat)
    requires n <= |labels| && n <= |predicted|
    ensures forall k :: CorrectOf(kind, labels, predicted + [best], n, k) == CorrectOf(kind, labels, predicted, n, k)
  {
    if n > 0 { PredictionsKept(kind, labels, predicted, best, n - 1); }
  }

  /** The binary sibling: the prediction is thresholded, nothing is skipped. */
  method ClassCountsBinary(predictions: seq<real>, labels: seq<real>, threshold: real, correct: array<int>, total: array<int>)
    requires correct.Length == total.Length == MAX_CLASSES && correct != total && |predictions| == |labels|
    modifies correct, total
    ensures forall k :: 0 <= k < MAX_CLASSES ==> total[k] == if k < 2 then TotalOf(Binary, labels, |labels|, k) else 0
    ensures var predicted := Thresholded(predictions, threshold);
            forall k :: 0 <= k < MAX_CLASSES ==>
              correct[k] == if k < 2 then CorrectOf(Binary, labels, predicted, |labels|, k) else 0
  {
    for k := 0 to MAX_CLASSES
      invariant forall j :: 0 <= j < k ==> correct[j] == 0 && total[j] == 0
    {
      correct[k], total[k] := 0, 0;
    }
    ghost var predicted := Thresholded(predictions, threshold);
    for i := 0 to |labels|
      invariant forall k :: 0 <= k < MAX_CLASSES ==> total[k] == if k < 2 then TotalOf(Binary, labels, i, k) else 0
      invariant forall k :: 0 <= k < MAX_CLASSES ==>
                  correct[k] == if k < 2 then CorrectOf(Binary, labels, predicted, i, k) else 0
    {
      var guess := if predictions[i] >= threshold then 1 else 0;
      var truth := if labels[i] > 0.5 then 1 else 0;
      total[truth] := total[truth] + 1;
      if guess == truth { correct[truth] := correct[truth] + 1; }
    }
  }

  function Thresholded(predictions: seq<real>, threshold: real): (r: seq<int>)
    ensures |r| == |predictions|
  {
    seq(|predictions|, i requires 0 <= i < |predictions| => if predictions[i] >= threshold then 1 else 0)
  }

  // ---- the population of the floor ----

  /** The values that count towards the floor: finite, and for binary labels not neutral. */
  function Population(kind: Task, labels: seq<Label>): seq<real> {
    if labels == [] then []
    else
      var l := labels[|labels| - 1];
      Population(kind, labels[..|labels| - 1])
      + if l.Num? && !(kind == Binary && l.v == 0.5) then [l.v] else []
  }

  /** How many of the values have a class in the table. */
  function InTable(kind: Task, values: seq<real>): nat {
    if values == [] then 0
    else InTable(kind, values[..|values| - 1]) + if 0 <= Truth(kind, values[|values| - 1]) < MAX_CLASSES then 1 else 0
  }

  lemma TotalSnoc(kind: Task, values: seq<real>, v: real, k: int)
    ensures TotalOf(kind, values + [v], |values| + 1, k)
         == TotalOf(kind, values, |values|, k) + if Truth(kind, v) == k then 1 else 0
    ensures InTable(kind, values + [v]) == InTable(kind, values) + if 0 <= Truth(kind, v) < MAX_CLASSES then 1 else 0
  {
    hide Truth;
    assert (values + [v])[..|values|] == values;
    TotalPrefix(kind, values, values + [v], |values|, k);
  }

  lemma TotalPrefix(kind: Task, a: seq<real>, b: seq<real>, n: nat, k: int)
    requires n <= |a| && n <= |b| && a[..n] == b[..n]
    ensures TotalOf(kind, a, n, k) == TotalOf(kind, b, n, k)
  {
    hide Truth;
    if n > 0 {
      assert a[n - 1] == a[..n][n - 1] == b[..n][n - 1] == b[n - 1];
      assert a[..n - 1] == a[..n][..n - 1] == b[..n - 1];
      TotalPrefix(kind, a, b, n - 1, k);
    }
  }

  /** The histogram of the floor is the class totals of its population. */
  method LabelClassCounts(kind: Task, labels: seq<Label>, counts: array<int>) returns (total: int)
    requires counts.Length == MAX_CLASSES
    modifies counts
    ensures var values := Population(kind, labels);
            && total == InTable(kind, values)
            && forall k :: 0 <= k < MAX_CLASSES ==> counts[k] == TotalOf(kind, values, |values|, k)
    ensures total > 0 <==> exists k :: 0 <= k < MAX_CLASSES && counts[k] > 0
  {
    hide Truth, TotalOf, InTable;
    for k := 0 to MAX_CLASSES
      invariant forall j :: 0 <= j < k ==> counts[j] == 0
    {
      counts[k] := 0;
    }
    total := 0;
    NothingCounted(kind);
    for i := 0 to |labels|
      invariant forall k :: 0 <= k < MAX_CLASSES ==>
                  counts[k] == TotalOf(kind, Population(kind, labels[..i]), |Population(kind, labels[..i])|, k)
      invariant total == InTable(kind, Population(kind, labels[..i]))
      invariant total >= 0 && (total > 0 <==> exists k :: 0 <= k < MAX_CLASSES && counts[k] > 0)
    {
      assert labels[..i + 1][..i] == labels[..i];
      ghost var before := Population(kind, labels[..i]);
      if labels[i].Num? && !(kind == Binary && labels[i].v == 0.5) {
        var v := labels[i].v;
        assert Population(kind, labels[..i + 1]) == before + [v];
        forall k ensures TotalOf(kind, before + [v], |before| + 1, k)
                      == TotalOf(kind, before, |before|, k) + if Truth(kind, v) == k then 1 else 0 {
          TotalSnoc(kind, before, v, k);
        }
        TotalSnoc(kind, before, v, 0);
        var c := Truth(kind, v);
        if 0 <= c < MAX_CLASSES {
          counts[c], total := counts[c] + 1, total + 1;
          assert counts[c] > 0;
        }
      } else {
        assert Population(kind, labels[..i + 1]) == before + [] == before;
      }
    }
    assert labels[..|labels|] == labels;
  }

  lemma NothingCounted(kind: Task)
    ensures Population(kind, []) == [] && InTable(kind, []) == 0 && forall k :: TotalOf(kind, [], 0, k) == 0
  {
  }

  // ---- the score and the floor ----

  function Present(total: seq<int>, n: nat): (r: nat)
    requires n <= |total|
    ensures r <= n
  {
    if n == 0 then 0 else Present(total, n - 1) + if total[n - 1] > 0 then 1 else 0
  }

  function Recall(correct: seq<int>, total: seq<int>, k: nat): real
    requires k < |correct| == |total|
  {
    if total[k] <= 0 then 0.0 else correct[k] as real / total[k] as real
  }

  function RecallSum(correct: seq<int>, total: seq<int>, n: nat): real
    requires n <= |correct| == |total|
  {
    if n == 0 then 0.0 else RecallSum(correct, total, n - 1) + Recall(correct, total, n - 1)
  }

  /** The mean recall over the classes that occur. */
  function Balanced(correct: seq<int>, total: seq<int>, n: nat): real
    requires n <= |correct| == |total|
  {
    if Present(total, n) == 0 then 0.0 else RecallSum(correct, total, n) / Present(total, n) as real
  }

  method BalancedAccuracy(correct: array<int>, total: array<int>, numClasses: int, recallOut: array<real>)
    returns (score: real)
    requires correct.Length == total.Length == recallOut.Length == MAX_CLASSES && numClasses >= 0
    modifies recallOut
    ensures score == Balanced(correct[..], total[..], Cap(numClasses))
    ensures forall k :: 0 <= k < MAX_CLASSES ==>
              recallOut[k] == if k < Cap(numClasses) then Recall(correct[..], total[..], k) else 0.0
  {
    var cap := Cap(numClasses);
    ghost var c, t := correct[..], total[..];
    for k := 0 to MAX_CLASSES
      invariant forall j :: 0 <= j < k ==> recallOut[j] == 0.0
    {
      recallOut[k] := 0.0;
    }
    var sum, present := 0.0, 0;
    for k := 0 to cap
      invariant sum == RecallSum(c, t, k) && present == Present(t, k)
      invariant forall j :: 0 <= j < k ==> recallOut[j] == Recall(c, t, j)
      invariant forall j :: k <= j < MAX_CLASSES ==> recallOut[j] == 0.0
    {
      if total[k] > 0 {
        recallOut[k] := correct[k] as real / total[k] as real;
        sum, present := sum + recallOut[k], present + 1;
      }
    }
    score := if present > 0 then sum / present as real else 0.0;
  }

  /** One over the classes that occur; the uniform floor when fewer than two do. */
  function Floor(numClasses: int, counts: seq<int>, samples: int): real
    requires |counts| == MAX_CLASSES
  {
    var n := if numClasses < 2 then 2 else numClasses;
    var present := if samples > 0 then Present(counts, Cap(n)) else 0;
    1.0 / (if present < 2 then n else present) as real
  }

  method BalancedBaseline(numClasses: int, counts: array<int>, samples: int) returns (floor: real)
    requires counts.Length == MAX_CLASSES
    ensures floor == Floor(numClasses, counts[..], samples)
  {
    var n := if numClasses < 2 then 2 else numClasses;
    var present := 0;
    if samples > 0 {
      for k := 0 to Cap(n)
        invariant present == Present(counts[..], k)
      {
        if counts[k] > 0 { present := present + 1; }
      }
    }
    if present < 2 { present := n; }
    floor := 1.0 / present as real;
  }

  /** The refusal: a score at or below the floor. */
  predicate Refused(score: real, floor: real) {
    score <= floor
  }

  // ---- the floor is exact ----

  /** Counts of a population under some predictions. */
  ghost predicate CountsOf(kind: Task, labels: seq<real>, predicted: seq<int>, cap: nat, correct: seq<int>, total: seq<int>) {
    && |predicted| == |labels| && |correct| == |total| == MAX_CLASSES && cap <= MAX_CLASSES
    && (forall k :: 0 <= k < cap ==> total[k] == TotalOf(kind, labels, |labels|, k))
    && (forall k :: 0 <= k < cap ==> correct[k] == CorrectOf(kind, labels, predicted, |labels|, k))
  }

  lemma ConstantHits(kind: Task, labels: seq<real>, predicted: seq<int>, n: nat, c: int, k: int)
    requires n <= |labels| && n <= |predicted| && forall i :: 0 <= i < |predicted| ==> predicted[i] == c
    ensures CorrectOf(kind, labels, predicted, n, k) == if k == c then TotalOf(kind, labels, n, k) else 0
  {
    if n > 0 { ConstantHits(kind, labels, predicted, n - 1, c, k); }
  }

  lemma RecallOfHits(correct: seq<int>, total: seq<int>, k: nat, all: bool)
    requires k < |correct| == |total| && correct[k] == if all then total[k] else 0
    ensures Recall(correct, total, k) == if all && total[k] > 0 then 1.0 else 0.0
  {
    if total[k] > 0 { SelfRatio(total[k] as real); }
  }

  lemma SelfRatio(x: real)
    requires x > 0.0
    ensures x / x == 1.0 && 0.0 / x == 0.0
  {
  }

  lemma {:induction false} ConstantRecalls(kind: Task, labels: seq<real>, predicted: seq<int>, cap: nat, correct: seq<int>, total: seq<int>,
                                           c: nat, n: nat)
    requires CountsOf(kind, labels, predicted, cap, correct, total) && n <= cap
    requires forall i :: 0 <= i < |predicted| ==> predicted[i] == c
    ensures RecallSum(correct, total, n) == if c < n && total[c] > 0 then 1.0 else 0.0
  {
    hide TotalOf, CorrectOf;
    if n > 0 {
      ConstantRecalls(kind, labels, predicted, cap, correct, total, c, n - 1);
      ConstantHits(kind, labels, predicted, |labels|, c, n - 1);
      assert correct[n - 1] == if n - 1 == c then total[n - 1] else 0;
      hide CountsOf;
      RecallOfHits(correct, total, n - 1, n - 1 == c);
    }
  }

  /** A predictor that always answers one class scores exactly one over the classes that occur, or
      nothing when its class does not occur, whatever the skew. */
  lemma ConstantScore(kind: Task, labels: seq<real>, predicted: seq<int>, cap: nat, correct: seq<int>, total: seq<int>, c: nat)
    requires CountsOf(kind, labels, predicted, cap, correct, total) && c < cap
    requires forall i :: 0 <= i < |predicted| ==> predicted[i] == c
    ensures total[c] > 0 ==> Present(total, cap) > 0
    ensures Balanced(correct, total, cap) == if total[c] > 0 then 1.0 / Present(total, cap) as real else 0.0
  {
    hide RecallSum, TotalOf, CorrectOf;
    ConstantRecalls(kind, labels, predicted, cap, correct, total, c, cap);
    if total[c] > 0 { PresentHas(total, c, cap); }
  }

  lemma PresentHas(total: seq<int>, c: nat, n: nat)
    requires c < n <= |total| && total[c] > 0
    ensures Present(total, n) > 0
  {
    if n - 1 > c { PresentHas(total, c, n - 1); }
  }

  lemma SamePresent(a: seq<int>, b: seq<int>, n: nat)
    requires n <= |a| && n <= |b| && forall k :: 0 <= k < n ==> a[k] == b[k]
    ensures Present(a, n) == Present(b, n)
  {
    if n > 0 { SamePresent(a, b, n - 1); }
  }

  /** Scored on the population the floor is computed from, a constant predictor of an occurring
      class meets the floor exactly and is refused; so is one of an absent class. */
  lemma ConstantIsRefused(kind: Task, labels: seq<real>, predicted: seq<int>, numClasses: int, correct: seq<int>, total: seq<int>,
                          counts: seq<int>, samples: int, c: nat)
    requires 2 <= numClasses && CountsOf(kind, labels, predicted, Cap(numClasses), correct, total) && c < Cap(numClasses)
    requires forall i :: 0 <= i < |predicted| ==> predicted[i] == c
    requires |counts| == MAX_CLASSES && samples > 0 && Present(total, Cap(numClasses)) >= 2
    requires forall k :: 0 <= k < Cap(numClasses) ==> counts[k] == TotalOf(kind, labels, |labels|, k)
    ensures var score, floor := Balanced(correct, total, Cap(numClasses)), Floor(numClasses, counts, samples);
            && (total[c] > 0 ==> score == floor) && (total[c] == 0 ==> score == 0.0)
            && Refused(score, floor)
  {
    hide Balanced;
    ConstantScore(kind, labels, predicted, Cap(numClasses), correct, total, c);
    SamePresent(counts, total, Cap(numClasses));
  }

  // ---- what passing the gate means ----

  /** How many classes are ever predicted right. */
  function Recalled(correct: seq<int>, total: seq<int>, n: nat): nat
    requires n <= |correct| == |total|
  {
    if n == 0 then 0 else Recalled(correct, total, n - 1) + if total[n - 1] > 0 && correct[n - 1] > 0 then 1 else 0
  }

  lemma {:induction false} RecallsBounded(correct: seq<int>, total: seq<int>, n: nat)
    requires n <= |correct| == |total| && forall k :: 0 <= k < n ==> 0 <= correct[k] <= total[k]
    ensures RecallSum(correct, total, n) <= Recalled(correct, total, n) as real
  {
    if n > 0 {
      RecallsBounded(correct, total, n - 1);
      if total[n - 1] > 0 { RatioAtMostOne(correct[n - 1], total[n - 1]); }
    }
  }

  lemma RatioAtMostOne(a: int, b: int)
    requires 0 <= a <= b && b > 0
    ensures a as real / b as real <= 1.0
    ensures a == 0 ==> a as real / b as real == 0.0
  {
  }

  /** A model that beats the floor of its own population gets some sample of at least two classes
      right. */
  lemma PassingNeedsTwoClasses(kind: Task, labels: seq<real>, predicted: seq<int>, numClasses: int, correct: seq<int>, total: seq<int>,
                               counts: seq<int>, samples: int)
    requires 2 <= numClasses && CountsOf(kind, labels, predicted, Cap(numClasses), correct, total)
    requires |counts| == MAX_CLASSES && samples > 0 && Present(total, Cap(numClasses)) >= 2
    requires forall k :: 0 <= k < Cap(numClasses) ==> counts[k] == TotalOf(kind, labels, |labels|, k)
    requires !Refused(Balanced(correct, total, Cap(numClasses)), Floor(numClasses, counts, samples))
    ensures Recalled(correct, total, Cap(numClasses)) >= 2
  {
    hide RecallSum, Recalled;
    var cap := Cap(numClasses);
    SamePresent(counts, total, cap);
    RecallsBounded(correct, total, cap);
    QuotientOrder(RecallSum(correct, total, cap), Present(total, cap));
  }

  lemma QuotientOrder(sum: real, present: nat)
    requires present > 0
    ensures sum / present as real > 1.0 / present as real <==> sum > 1.0
  {
    var d := present as real;
    assert sum / d - 1.0 / d == (sum - 1.0) / d;
  }

  // ---- counts as values ----

  function Totals(kind: Task, labels: seq<real>): (r: seq<int>)
    ensures |r| == MAX_CLASSES && forall k :: 0 <= k < MAX_CLASSES ==> r[k] == TotalOf(kind, labels, |labels|, k)
  {
    seq(MAX_CLASSES, k => TotalOf(kind, labels, |labels|, k))
  }

  function Hits(kind: Task, labels: seq<real>, predicted: seq<int>): (r: seq<int>)
    requires |labels| == |predicted|
    ensures |r| == MAX_CLASSES
    ensures forall k :: 0 <= k < MAX_CLASSES ==> r[k] == CorrectOf(kind, labels, predicted, |labels|, k)
  {
    seq(MAX_CLASSES, k => CorrectOf(kind, labels, predicted, |labels|, k))
  }

  /** A class occurs in the counts if and only if some value has it. */
  lemma {:induction false} OccursExactly(kind: Task, labels: seq<real>, n: nat, k: int)
    requires n <= |labels|
    ensures TotalOf(kind, labels, n, k) > 0 <==> exists i :: 0 <= i < n && Truth(kind, labels[i]) == k
  {
    hide Truth;
    if n > 0 { OccursExactly(kind, labels, n - 1, k); }
  }
}
