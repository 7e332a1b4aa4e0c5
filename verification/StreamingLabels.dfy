/** The two-file streaming walk against labelling the whole concatenated corpus. */
module StreamingLabels {
  import opened Labels
  import opened BatchLabeler

  predicate LooksBack(kind: Kind) {
    kind in {VolBarrier, VolBarrier3C, VolBarrier3CTimed}
  }

  ghost predicate Ascending(samples: seq<Sample>) {
    forall s, r :: 0 <= s <= r < |samples| ==> samples[s].tick <= samples[r].tick
  }

  // ---- each sample is labelled once, by the file that holds its row ----

  lemma {:induction false} CursorIsBoundary(files: seq<DataFile>, samples: seq<Sample>, f: nat, s: nat)
    requires f <= |files| && OffsetsTrue(files, |files|) && Ascending(samples) && s < |samples|
    ensures s < Cursor(files, samples, f) <==> samples[s].tick < Offset(files, f)
  {
    if f > 0 {
      CursorIsBoundary(files, samples, f - 1, s);
      AdvanceStops(samples, Cursor(files, samples, f - 1), Offset(files, f));
      assert Offset(files, f - 1) == |Corpus(files, f - 1)| <= |Corpus(files, f)| == Offset(files, f);
    }
  }

  /** With the files all present and the samples ascending, the file whose turn labels a sample is
      the one file that holds the sample's row, and no sample is skipped. */
  lemma LabelledByItsFile(files: seq<DataFile>, samples: seq<Sample>, f: nat, s: nat)
    requires OffsetsTrue(files, |files|) && Ascending(samples) && f < |files| && s < |samples|
    ensures LabelledBy(files, samples, f, s) <==> Offset(files, f) <= samples[s].tick < Offset(files, f + 1)
  {
    hide Cursor, Offset, OffsetsTrue, Ascending;
    CursorIsBoundary(files, samples, f, s);
    CursorIsBoundary(files, samples, f + 1, s);
  }

  lemma FileOfTick(files: seq<DataFile>, n: nat, tick: nat) returns (f: nat)
    requires n <= |files| && OffsetsTrue(files, |files|) && tick < |Corpus(files, n)|
    ensures f < n && Offset(files, f) <= tick < Offset(files, f + 1)
  {
    if tick >= |Corpus(files, n - 1)| {
      f := n - 1;
      assert Offset(files, f) == |Corpus(files, f)| && Offset(files, f + 1) == |Corpus(files, f + 1)|;
    } else {
      f := FileOfTick(files, n - 1, tick);
    }
  }

  lemma NoLaterLabeller(files: seq<DataFile>, samples: seq<Sample>, f: int, g: int, s: int)
    requires f < g && LabelledBy(files, samples, f, s)
    ensures !LabelledBy(files, samples, g, s)
  {
    hide Cursor;
    if g < |files| { CursorMonotone(files, samples, f + 1, g); }
  }

  /** Every sample of the corpus is labelled, by exactly one file. */
  lemma EverySampleOnce(files: seq<DataFile>, samples: seq<Sample>, s: nat)
    requires OffsetsTrue(files, |files|) && Ascending(samples) && s < |samples|
    requires samples[s].tick < |Corpus(files, |files|)|
    ensures exists f :: LabelledBy(files, samples, f, s)
    ensures forall f, g :: LabelledBy(files, samples, f, s) && LabelledBy(files, samples, g, s) ==> f == g
  {
    hide Cursor, Offset, OffsetsTrue, Ascending, LabelledBy, Corpus;
    var f := FileOfTick(files, |files|, samples[s].tick);
    LabelledByItsFile(files, samples, f, s);
    assert LabelledBy(files, samples, f, s);
    forall f, g | LabelledBy(files, samples, f, s) && LabelledBy(files, samples, g, s)
      ensures f == g
    {
      if f < g { NoLaterLabeller(files, samples, f, g, s); }
      if g < f { NoLaterLabeller(files, samples, g, f, s); }
    }
  }

  // ---- a leaf without look-back does not notice what precedes its window ----

  lemma TouchShift(pre: Prices, w: Prices, j: nat, end: nat, up: real, down: real)
    requires end <= |w|
    ensures FirstTouch(pre + w, |pre| + j, |pre| + end, up, down) == FirstTouch(w, j, end, up, down)
    decreases end - j
  {
    if j < end {
      assert (pre + w)[|pre| + j] == w[j];
      TouchShift(pre, w, j + 1, end, up, down);
    }
  }

  lemma ExtremeShift(pre: Prices, w: Prices, start: nat, j: nat, price: real, idx: nat, sign: real)
    requires j <= |w|
    ensures var (best, at) := Extreme(w, start, j, price, idx, sign);
            Extreme(pre + w, |pre| + start, |pre| + j, price, |pre| + idx, sign) == (best, |pre| + at)
    decreases j
  {
    if j > start {
      ExtremeShift(pre, w, start, j - 1, price, idx, sign);
      assert (pre + w)[|pre| + j - 1] == w[j - 1];
    }
  }

  lemma ExtremumShift(pre: Prices, w: Prices, idx: nat, price: real, extra: int, sign: real)
    requires idx < |w|
    ensures Extremum(pre + w, |pre| + idx, price, extra, sign) == Extremum(w, idx, price, extra, sign)
  {
    hide Extreme, RatioExceeds;
    var end := ScanEnd(idx, Positive(extra, 500), |w|);
    ExtremeShift(pre, w, idx + 1, if idx + 1 <= end then end else idx + 1, price, idx, sign);
  }

  lemma BoundedShift(pre: Prices, w: Prices, idx: nat, lookahead: nat, up: real, down: real)
    requires idx < |w|
    ensures BoundedTouch(pre + w, |pre| + idx, lookahead, up, down) == BoundedTouch(w, idx, lookahead, up, down)
  {
    TouchShift(pre, w, idx + 1, ScanEnd(idx, lookahead, |w|), up, down);
  }

  lemma LeafShift(kind: Kind, pre: Prices, w: Prices, idx: nat, price: real, tp: real, sl: real, extra: int,
                  sqrt: real -> real)
    requires !LooksBack(kind) && idx < |w|
    ensures Leaf(kind, pre + w, |pre| + idx, price, tp, sl, extra, sqrt) == Leaf(kind, w, idx, price, tp, sl, extra, sqrt)
  {
    hide Extremum, BoundedTouch, UpBarrier, DownBarrier, TimedTouch, VolTouch, FirstTouch;
    match kind
    case WillPeak => ExtremumShift(pre, w, idx, price, extra, 1.0);
    case WillValley => ExtremumShift(pre, w, idx, price, extra, -1.0);
    case PeakValleyStable =>
      BoundedShift(pre, w, idx, Positive(extra, 500), UpBarrier(price, tp), DownBarrier(price, sl));
    case WinLoss => TouchShift(pre, w, idx + 1, |w|, UpBarrier(price, tp), DownBarrier(price, sl));
    case Barrier => TouchShift(pre, w, idx + 1, |w|, UpBarrier(price, tp), DownBarrier(price, sl));
    case _ =>
  }

  // ---- the window inside the corpus ----

  /** The corpus is the files before f, the window of f, and a tail that is empty for the last
      two files. */
  lemma CorpusAroundWindow(files: seq<DataFile>, f: nat, n: nat) returns (tail: Prices)
    requires f < n <= |files| && (f + 1 < |files| ==> f + 1 < n)
    ensures Corpus(files, n) == Corpus(files, f) + Window(files, f) + tail
    ensures n <= f + 2 ==> tail == []
    decreases n
  {
    if n <= f + 2 {
      tail := [];
      if n == f + 2 {
        assert Corpus(files, n) == Corpus(files, f) + Rows(files[f]) + Rows(files[f + 1]);
      }
    } else {
      tail := CorpusAroundWindow(files, f, n - 1);
      tail := tail + Rows(files[n - 1]);
    }
  }

  /** Far enough: the leaf's window ends inside the two files, or the two files end the corpus. */
  predicate SeesEnough(t: Target, files: seq<DataFile>, f: nat, s: Sample)
    requires f < |files|
  {
    || f + 2 >= |files|
    || (ForwardBounded(t.kind) && s.tick - Offset(files, f) + Reach(t.kind, Extra(t, s)) <= |Window(files, f)|)
  }

  /** The value the streaming walk writes is the leaf on the whole concatenation. */
  lemma StreamingMatchesCorpus(t: Target, files: seq<DataFile>, samples: seq<Sample>, f: nat, s: nat, sqrt: real -> real)
    requires OffsetsTrue(files, |files|) && Ascending(samples) && s < |samples| && !LooksBack(t.kind)
    requires LabelledBy(files, samples, f, s) && SeesEnough(t, files, f, samples[s])
    ensures Cell(t, Window(files, f), Offset(files, f), samples[s], sqrt)
         == Cell(t, Corpus(files, |files|), 0, samples[s], sqrt)
  {
    hide Leaf, Finish, Fallback, LooksBack, Window, Rows, Corpus, Offset, Cursor;
    LabelledByItsFile(files, samples, f, s);
    InWindow(files, samples, f, s);
    var pre, w := Corpus(files, f), Window(files, f);
    var tail := CorpusAroundWindow(files, f, |files|);
    var sample := samples[s];
    var idx := sample.tick - |pre|;
    assert Offset(files, f) == |pre|;
    LeafShift(t.kind, pre, w, idx, sample.price, t.tpPct, t.slPct, Extra(t, sample), sqrt);
    if f + 2 >= |files| {
      assert pre + w + tail == pre + w;
    } else {
      LeafNonInterference(t.kind, pre + w, pre + w + tail, |pre| + idx, sample.price, t.tpPct, t.slPct, Extra(t, sample), sqrt);
    }
  }

  method SingleWalk(files: seq<DataFile>, samples: seq<Sample>, target: Target, fee: real, sqrt: real -> real)
    returns (row: array2<Label>)
    ensures fresh(row) && row.Length0 == 1 && row.Length1 == |samples|
    ensures forall f, s :: LabelledBy(files, samples, f, s) ==>
              row[0, s] == Cell(Resolve(target, fee), Window(files, f), Offset(files, f), samples[s], sqrt)
    ensures forall s :: Cursor(files, samples, |files|) <= s < |samples| ==> row[0, s] == NotFinite
  {
    hide Cell, Resolve, Window, Offset, Cursor;
    row := new Label[1, |samples|];
    var _ := ComputeLabelsBatch(files, samples, [target], fee, row, sqrt);
  }

  /** K single-target walks, one after the other, fill the table with the same values as one
      K-target walk: the two methods share this contract. */
  method SequentialWalks(files: seq<DataFile>, samples: seq<Sample>, targets: seq<Target>, fee: real,
                         out: array2<Label>, sqrt: real -> real)
    requires out.Length0 == |targets| && out.Length1 == |samples|
    modifies out
    ensures forall t, f, s :: 0 <= t < |targets| && LabelledBy(files, samples, f, s) ==>
              out[t, s] == Cell(Resolve(targets[t], fee), Window(files, f), Offset(files, f), samples[s], sqrt)
    ensures PrefillFrom(out, Cursor(files, samples, |files|))
  {
    hide Cell, Resolve, Window, Offset, Cursor;
    for k := 0 to |targets|
      invariant forall t, f, s :: 0 <= t < k && LabelledBy(files, samples, f, s) ==>
                  out[t, s] == Cell(Resolve(targets[t], fee), Window(files, f), Offset(files, f), samples[s], sqrt)
      invariant forall t, s :: 0 <= t < k && Cursor(files, samples, |files|) <= s < |samples| ==> out[t, s] == NotFinite
    {
      var row := SingleWalk(files, samples, targets[k], fee, sqrt);
      forall s | 0 <= s < |samples| {
        out[k, s] := row[0, s];
      }
    }
  }

  /** A file that cannot be opened behind earlier rows restarts the offset table at zero: the
      samples after it are labelled from the wrong tick. */
  lemma MissingFileMislabels(sqrt: real -> real) returns (files: seq<DataFile>, samples: seq<Sample>, t: Target)
    ensures !MissingOnlyAtFront(files, |files|) && Ascending(samples) && |samples| == 1 && |files| == 3
    ensures LabelledBy(files, samples, 2, 0)
    ensures Cell(t, Window(files, 2), Offset(files, 2), samples[0], sqrt)
         != Cell(t, Corpus(files, 3), 0, samples[0], sqrt)
  {
    var a: Prices, b: Prices := [1.0], [1.0, 1.0, 3.0];
    files := [File(a), Missing, File(b)];
    samples := [Sample(1, 1.0, 0)];
    t := Target(ForwardPnl, 1.0, 1.0, 1);
    assert Corpus(files, 0) == [] && Corpus(files, 1) == [] + a && Corpus(files, 2) == [] + a + [];
    assert Corpus(files, 3) == [] + a + [] + b == a + b;
    assert Offset(files, 1) == 1 && Offset(files, 2) == 0 && Offset(files, 3) == 3;
    assert Cursor(files, samples, 1) == 0 && Cursor(files, samples, 2) == 0;
    assert Advance(samples, 1, 3) == 1;
    assert Cursor(files, samples, 3) == 1;
    assert Window(files, 2) == b;
    assert (a + b)[2] == 1.0 && b[2] == 3.0;
  }
}
