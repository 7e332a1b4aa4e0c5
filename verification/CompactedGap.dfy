/** The walk-forward gap is scaled into compacted space.  How much of the raw gap survives there. */
module CompactedGap {
  import opened Arithmetic
  import opened Labels
  import opened Compaction
  import opened ValidationSplit

  /** A label set the walk-forward accepts, with the given counts. */
  ghost predicate Accepted(labels: seq<Label>, filter: Filter, samples: nat, kept: nat) {
    && |labels| == samples && |Kept(labels, filter, 0, |labels|)| == kept
    && Accepts(labels, filter) && !SingleClass(labels, filter, |labels|)
  }

  /** Between the last training sample of fold i and its first test sample lie more than `raw`
      source samples. */
  ghost predicate KeepsRawGap(labels: seq<Label>, filter: Filter, n: nat, gap: nat, raw: nat, i: nat)
    requires n >= 1
  {
    var r := Kept(labels, filter, 0, |labels|);
    var start := TestStart(|r|, n, i);
    gap < start < |r| ==> r[start] - r[start - gap - 1] > raw
  }

  /** Every boundary of every accepted label set with these counts keeps the raw gap. */
  ghost predicate AllKeepRawGap(filter: Filter, samples: nat, kept: nat, n: nat, minTrain: int, gap: nat, raw: nat)
    requires n >= 1
  {
    forall labels: seq<Label>, i: nat | Accepted(labels, filter, samples, kept) && i < n && Usable(kept, n, gap, minTrain, i) ::
      KeepsRawGap(labels, filter, n, gap, raw, i)
  }

  ghost predicate NoFold(kept: nat, n: nat, gap: nat, minTrain: int)
    requires n >= 1
  {
    forall i: nat :: i < n ==> !Usable(kept, n, gap, minTrain, i)
  }

  // ---- a dense front ----

  function Dropped(filter: Filter): Label {
    if filter == DropNeutral then Num(0.5) else NotFinite
  }

  /** Two classes, all kept samples in front. */
  function DenseFront(filter: Filter, samples: nat, kept: nat): (r: seq<Label>)
    ensures |r| == samples
    ensures forall k :: 0 <= k < samples ==> r[k] == if k == 0 then Num(0.0) else if k < kept then Num(1.0) else Dropped(filter)
  {
    seq(samples, k => if k == 0 then Num(0.0) else if k < kept then Num(1.0) else Dropped(filter))
  }

  function UpTo(n: nat): (r: seq<nat>)
    ensures |r| == n && forall k :: 0 <= k < n ==> r[k] == k
  {
    seq(n, k => k)
  }

  lemma FrontKept(filter: Filter, samples: nat, kept: nat, i: nat)
    requires i <= samples && 1 <= kept <= samples && (filter == KeepAll ==> kept == samples)
    ensures Kept(DenseFront(filter, samples, kept), filter, 0, i) == UpTo(if i < kept then i else kept)
  {
    if i > 0 {
      FrontKept(filter, samples, kept, i - 1);
      var labels := DenseFront(filter, samples, kept);
      assert Keeps(filter, labels[i - 1]) <==> i - 1 < kept;
      hide Keeps, DenseFront;
      assert i <= kept ==> UpTo(i) == UpTo(i - 1) + [i - 1];
    }
  }

  lemma FrontAccepted(filter: Filter, samples: nat, kept: nat)
    requires MIN_SAMPLES <= kept <= samples && (filter == KeepAll ==> kept == samples)
    ensures Accepted(DenseFront(filter, samples, kept), filter, samples, kept)
  {
    var labels := DenseFront(filter, samples, kept);
    FrontKept(filter, samples, kept, samples);
    assert labels[0] == Num(0.0) && labels[1] == Num(1.0) && Scanned(filter, labels[0]) && Scanned(filter, labels[1]);
  }

  // ---- the exact condition ----

  lemma StartsInside(total: nat, n: nat, i: nat)
    requires n >= 1 && i < n <= total
    ensures TestStart(total, n, i) < total
  {
    StartsGrow(total, n, i, n);
    LastTestEnd(total, n);
  }

  lemma ScaledGapKeeps(labels: seq<Label>, filter: Filter, n: nat, gap: nat, raw: nat, i: nat)
    requires n >= 1 && gap >= raw
    ensures KeepsRawGap(labels, filter, n, gap, raw, i)
  {
    var kept := |Kept(labels, filter, 0, |labels|)|;
    var start := TestStart(kept, n, i);
    if gap < start < kept {
      CompactedGapSpans(labels, filter, start - gap - 1, start);
    }
  }

  lemma FrontBreaks(filter: Filter, samples: nat, kept: nat, n: nat, gap: nat, raw: nat, i: nat)
    requires n >= 1 && i < n <= kept <= samples && (filter == KeepAll ==> kept == samples)
    requires gap < raw && gap < TestStart(kept, n, i)
    ensures !KeepsRawGap(DenseFront(filter, samples, kept), filter, n, gap, raw, i)
  {
    FrontKept(filter, samples, kept, samples);
    StartsInside(kept, n, i);
    hide TestStart;
  }

  /** For every planned walk-forward: all boundaries of all accepted label sets with the given counts
      keep the raw gap if and only if the scaled gap is no smaller than the raw one, or no fold is
      usable at all. */
  lemma RawGapKeptExactly(filter: Filter, raw: nat, samples: nat, kept: nat, nSplits: int, minTrain: int)
    requires 0 < kept <= samples && (filter == KeepAll ==> kept == samples)
    requires Plans(raw, kept, samples, nSplits)
    ensures var n, gap := FoldCount(SplitsOf(nSplits)), CompactedPurge(raw, kept, samples);
            AllKeepRawGap(filter, samples, kept, n, minTrain, gap, raw)
            <==> gap >= raw || NoFold(kept, n, gap, minTrain)
  {
    hide Accepted, KeepsRawGap, TestStart, CompactedPurge;
    var n, gap := FoldCount(SplitsOf(nSplits)), CompactedPurge(raw, kept, samples);
    if gap >= raw {
      forall labels: seq<Label>, i: nat | Accepted(labels, filter, samples, kept) && i < n && Usable(kept, n, gap, minTrain, i)
        ensures KeepsRawGap(labels, filter, n, gap, raw, i)
      {
        ScaledGapKeeps(labels, filter, n, gap, raw, i);
      }
    } else if !NoFold(kept, n, gap, minTrain) {
      var i: nat :| i < n && Usable(kept, n, gap, minTrain, i);
      FrontAccepted(filter, samples, kept);
      FrontBreaks(filter, samples, kept, n, gap, raw, i);
    }
  }

  /** In the counts alone: the scaled gap reaches the raw one if and only if the raw gap times the
      dropped samples is at most half the samples, or the raw gap is at most one. */
  lemma ScaledGapReaches(raw: nat, kept: nat, samples: nat)
    requires 0 < kept <= samples
    ensures CompactedPurge(raw, kept, samples) >= raw <==> raw <= 1 || 2 * raw * (samples - kept) <= samples
  {
    hide CompactedPurge;
    var x := raw as real * (kept as real / samples as real);
    var dropped := raw * (samples - kept);
    PurgeReaches(raw, kept, samples);
    Shortfall(raw, kept, samples);
    ShortfallIsInteger(raw, kept, samples);
    HalfOf(raw as real - x, samples as real);
    assert 2 * raw * (samples - kept) == 2 * dropped;
    assert 2.0 * dropped as real == (2 * dropped) as real;
  }

  lemma PurgeReaches(raw: nat, kept: nat, samples: nat)
    requires 0 < kept <= samples
    ensures CompactedPurge(raw, kept, samples) >= raw
       <==> raw <= 1 || raw as real - raw as real * (kept as real / samples as real) <= 0.5
  {
    FloorReaches(raw as real * (kept as real / samples as real) + 0.5, raw);
  }

  lemma FloorReaches(x: real, raw: nat)
    ensures x.Floor >= raw <==> x >= raw as real
  {
  }

  lemma Shortfall(raw: nat, kept: nat, samples: nat)
    requires 0 < kept <= samples
    ensures (raw as real - raw as real * (kept as real / samples as real)) * samples as real
         == raw as real * (samples as real - kept as real)
  {
    var k, s, r := kept as real, samples as real, raw as real;
    var f := k / s;
    assert f * s == k;
    assert (r * f) * s == r * (f * s);
  }

  lemma ShortfallIsInteger(raw: nat, kept: nat, samples: nat)
    requires kept <= samples
    ensures raw as real * (samples as real - kept as real) == (raw * (samples - kept)) as real
  {
  }

  lemma HalfOf(y: real, s: real)
    requires s > 0.0
    ensures y <= 0.5 <==> 2.0 * (y * s) <= s
  {
    if y <= 0.5 {
      assert (0.5 - y) * s >= 0.0;
    } else {
      assert (y - 0.5) * s > 0.0;
    }
  }

  /** And it does fall short: for every raw gap from two on, an accepted label set of two classes and
      a planned walk-forward with a usable fold whose boundary keeps no more than the raw gap. */
  lemma DenseRegionUnderPurges(raw: nat) returns (labels: seq<Label>, samples: nat, kept: nat, i: nat)
    requires raw >= 2
    ensures 0 < kept <= samples && Accepted(labels, DropNeutral, samples, kept) && Plans(raw, kept, samples, 5)
    ensures i < 5 && Usable(kept, 5, CompactedPurge(raw, kept, samples), 50, i)
    ensures !KeepsRawGap(labels, DropNeutral, 5, CompactedPurge(raw, kept, samples), raw, i)
  {
    kept, i := 1000 * raw, 2;
    samples := 2 * kept;
    labels := DenseFront(DropNeutral, samples, kept);
    HalfDensity(raw, kept);
    var gap := CompactedPurge(raw, kept, samples);
    hide CompactedPurge;
    FrontAccepted(DropNeutral, samples, kept);
    AcceptedWalkForwardHasFolds(kept, 5, gap, 50);
    FrontBreaks(DropNeutral, samples, kept, 5, gap, raw, i);
  }

  lemma HalfDensity(raw: nat, kept: nat)
    requires raw >= 2 && kept > 0
    ensures 1 <= CompactedPurge(raw, kept, 2 * kept) < raw
  {
    assert kept as real / (2 * kept) as real == 0.5;
  }
}
