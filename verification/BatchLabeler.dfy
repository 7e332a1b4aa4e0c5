/** The streaming batch labeler: two data files in memory at a time, one cursor over the samples,
    K label targets per sample. */
module BatchLabeler {
  import opened Labels

  const MAX_TARGETS: nat := 16
  const FORWARD_DEFAULT: int := 1000
  const TP_PCT_DEFAULT: real := 1.5

  /** A data file that could not be opened, or its rows in order. */
  datatype DataFile = Missing | File(rows: Prices)

  datatype Target = Target(kind: Kind, tpPct: real, slPct: real, forward: int)

  datatype Sample = Sample(tick: nat, price: real, regime: int)

  // ---- the corpus and its index ----

  function Rows(file: DataFile): Prices {
    if file.Missing? then [] else file.rows
  }

  /** The concatenation of the first f files. */
  function Corpus(files: seq<DataFile>, f: nat): Prices
    requires f <= |files|
  {
    if f == 0 then [] else Corpus(files, f - 1) + Rows(files[f - 1])
  }

  /** The offset table the first pass builds.  A file that cannot be opened skips the assignment,
      which leaves the zero the table was allocated with. */
  function Offset(files: seq<DataFile>, f: nat): nat
    requires f <= |files|
  {
    if f == 0 || files[f - 1].Missing? then 0 else Offset(files, f - 1) + |files[f - 1].rows|
  }

  ghost predicate OffsetsTrue(files: seq<DataFile>, n: nat)
    requires n <= |files|
  {
    forall f :: 0 <= f <= n ==> Offset(files, f) == |Corpus(files, f)|
  }

  ghost predicate MissingOnlyAtFront(files: seq<DataFile>, n: nat)
    requires n <= |files|
  {
    forall f :: 0 <= f < n && files[f].Missing? ==> Corpus(files, f) == []
  }

  /** The table holds the true file starts exactly when no file is missing behind earlier rows. */
  lemma {:induction false} OffsetsExact(files: seq<DataFile>, n: nat)
    requires n <= |files|
    ensures OffsetsTrue(files, n) <==> MissingOnlyAtFront(files, n)
  {
    if n == 0 {
      assert Offset(files, 0) == |Corpus(files, 0)|;
    } else {
      OffsetsExact(files, n - 1);
      assert Offset(files, n - 1) == |Corpus(files, n - 1)| ==>
        (Offset(files, n) == |Corpus(files, n)| <==> (files[n - 1].Missing? ==> Corpus(files, n - 1) == []));
      hide Offset, Corpus;
      assert OffsetsTrue(files, n) <==> OffsetsTrue(files, n - 1) && Offset(files, n) == |Corpus(files, n)|;
    }
  }

  /** Files f and f + 1, the part of the corpus the labeler holds while it labels file f. */
  function Window(files: seq<DataFile>, f: nat): Prices
    requires f < |files|
  {
    Rows(files[f]) + if f + 1 < |files| then Rows(files[f + 1]) else []
  }

  // ---- resolving a target ----

  predicate PercentTp(kind: Kind) { kind in {WinLoss, Barrier, PeakValleyStable} }

  predicate PercentSl(kind: Kind) { kind in {WinLoss, Barrier, PeakValleyStable} }

  predicate Multiclass(kind: Kind) { kind in {Regime, PeakValleyStable, VolBarrier3C, VolBarrier3CTimed} }

  predicate Regression(kind: Kind) { kind in {ForwardPnl, CsPercentileRank, CsZscoreRobust, CsVolscaledDemeaned} }

  /** The round-trip fee widens percent barriers only. */
  function EffectiveTp(kind: Kind, tp: real, fee: real): real {
    if PercentTp(kind) && fee > 0.0 then tp + fee else tp
  }

  /** A percent default is never substituted into a tick-window slot. */
  function EffectiveSl(kind: Kind, sl: real): real {
    if kind == VolBarrier3CTimed then (if sl >= VOL_MIN_PERIODS as real then sl else VOL_WINDOW_DEFAULT as real)
    else if sl > 0.0 then sl
    else if PercentSl(kind) then 1.0 else 0.0
  }

  function Resolve(t: Target, fee: real): Target {
    Target(t.kind, EffectiveTp(t.kind, if t.tpPct > 0.0 then t.tpPct else TP_PCT_DEFAULT, fee),
           EffectiveSl(t.kind, t.slPct), if t.forward > 0 then t.forward else FORWARD_DEFAULT)
  }

  function Extra(t: Target, s: Sample): int {
    if t.kind == Regime then s.regime else t.forward
  }

  /** The value written for a label that is not finite, or for a skipped sample. */
  function Fallback(kind: Kind): Label {
    if Multiclass(kind) then NotFinite else if Regression(kind) then Num(0.0) else Num(0.5)
  }

  function Finish(kind: Kind, l: Label): Label {
    if l.NotFinite? then Fallback(kind) else l
  }

  /** What a resolved target writes for a sample, given the prices at hand and the global index
      of the first one. */
  function Cell(t: Target, p: Prices, start: nat, s: Sample, sqrt: real -> real): Label {
    if s.tick < start || s.tick - start >= |p| then Fallback(t.kind)
    else Finish(t.kind, Leaf(t.kind, p, s.tick - start, s.price, t.tpPct, t.slPct, Extra(t, s), sqrt))
  }

  // ---- what the walk computes ----

  /** The cursor stops at the first sample that belongs to a later file. */
  function Advance(samples: seq<Sample>, c: nat, end: nat): (r: nat)
    requires c <= |samples|
    ensures c <= r <= |samples|
    decreases |samples| - c
  {
    if c < |samples| && samples[c].tick < end then Advance(samples, c + 1, end) else c
  }

  /** Where the cursor stands after the first f files. */
  function Cursor(files: seq<DataFile>, samples: seq<Sample>, f: nat): (r: nat)
    requires f <= |files|
    ensures r <= |samples|
  {
    if f == 0 then 0 else Advance(samples, Cursor(files, samples, f - 1), Offset(files, f))
  }

  lemma CursorMonotone(files: seq<DataFile>, samples: seq<Sample>, f: nat, g: nat)
    requires f <= g <= |files|
    ensures Cursor(files, samples, f) <= Cursor(files, samples, g)
    decreases g
  {
    if f < g {
      CursorMonotone(files, samples, f, g - 1);
    }
  }

  lemma AdvanceStops(samples: seq<Sample>, c: nat, end: nat)
    requires c <= |samples|
    ensures var r := Advance(samples, c, end);
            && (forall s :: c <= s < r ==> samples[s].tick < end)
            && (r < |samples| ==> samples[r].tick >= end)
    decreases |samples| - c
  {
    if c < |samples| && samples[c].tick < end {
      AdvanceStops(samples, c + 1, end);
    }
  }

  /** Whenever a sample is labelled its row is inside the window: no leaf starts past the buffer. */
  lemma InWindow(files: seq<DataFile>, samples: seq<Sample>, f: nat, s: nat)
    requires f < |files| && Cursor(files, samples, f) <= s < Cursor(files, samples, f + 1)
    requires samples[s].tick >= Offset(files, f)
    ensures samples[s].tick - Offset(files, f) < |Rows(files[f])| <= |Window(files, f)|
  {
    AdvanceStops(samples, Cursor(files, samples, f), Offset(files, f + 1));
  }

  // ---- the walk ----

  /** Read a file to the given place of the buffer. */
  method LoadFile(buf: array<real>, at: nat, file: DataFile) returns (n: nat)
    requires at + |Rows(file)| <= buf.Length
    modifies buf
    ensures n == |Rows(file)| && buf[..at + n] == old(buf[..at]) + Rows(file)
  {
    n := 0;
    if file.Missing? { return; }
    while n < |file.rows|
      invariant n <= |file.rows| && buf[..at + n] == old(buf[..at]) + file.rows[..n]
    {
      buf[at + n] := file.rows[n];
      n := n + 1;
    }
  }

  /** Move the second file to the front of the buffer. */
  method SlideDown(buf: array<real>, from: nat, total: nat)
    requires from <= total <= buf.Length
    modifies buf
    ensures buf[..total - from] == old(buf[from..total])
  {
    for i := 0 to total - from
      invariant forall k :: 0 <= k < i ==> buf[k] == old(buf[from + k])
      invariant forall k :: i <= k < buf.Length ==> buf[k] == old(buf[k])
    {
      buf[i] := buf[from + i];
    }
  }

  /** Label every sample of the current file, K targets each, advancing the cursor. */
  method LabelFile(buf: array<real>, total: nat, start: nat, end: nat, samples: seq<Sample>, cursor: nat,
                   targets: seq<Target>, out: array2<Label>, sqrt: real -> real) returns (next: nat)
    requires total <= buf.Length && cursor <= |samples|
    requires end > start ==> end - start <= total
    requires out.Length0 == |targets| && out.Length1 == |samples|
    modifies out
    ensures next == Advance(samples, cursor, end)
    ensures forall t, s :: 0 <= t < |targets| && cursor <= s < next ==>
              out[t, s] == Cell(targets[t], buf[..total], start, samples[s], sqrt)
    ensures forall t, s :: 0 <= t < |targets| && 0 <= s < |samples| && !(cursor <= s < next) ==> out[t, s] == old(out[t, s])
  {
    hide Leaf, Finish, Fallback, Extra;
    next := cursor;
    while next < |samples|
      invariant cursor <= next <= |samples| && Advance(samples, cursor, end) == Advance(samples, next, end)
      invariant forall t, s :: 0 <= t < |targets| && cursor <= s < next ==>
                  out[t, s] == Cell(targets[t], buf[..total], start, samples[s], sqrt)
      invariant forall t, s :: 0 <= t < |targets| && 0 <= s < |samples| && !(cursor <= s < next) ==> out[t, s] == old(out[t, s])
    {
      var sample := samples[next];
      if sample.tick >= end { break; }
      label Row:
      for k := 0 to |targets|
        invariant forall t :: 0 <= t < k ==> out[t, next] == Cell(targets[t], buf[..total], start, sample, sqrt)
        invariant forall t, s :: 0 <= t < |targets| && 0 <= s < |samples| && s != next ==>
                    out[t, s] == old@Row(out[t, s])
      {
        var t := targets[k];
        out[k, next] :=
          if sample.tick < start then Fallback(t.kind)
          else Finish(t.kind, Leaf(t.kind, buf[..total], sample.tick - start, sample.price, t.tpPct, t.slPct,
                                   Extra(t, sample), sqrt));
      }
      next := next + 1;
    }
  }

  /** The value a sample ends with: the cell of the file whose turn it was, or the prefill. */
  ghost predicate LabelledBy(files: seq<DataFile>, samples: seq<Sample>, f: int, s: int) {
    0 <= f < |files| && Cursor(files, samples, f) <= s < Cursor(files, samples, f + 1)
  }

  /** The rows fit the two-file buffer sized from the largest file. */
  function LargestFile(files: seq<DataFile>, n: nat): (m: nat)
    requires n <= |files|
    ensures forall f :: 0 <= f < n ==> |Rows(files[f])| <= m
  {
    if n == 0 then 0
    else
      var m := LargestFile(files, n - 1);
      if |Rows(files[n - 1])| > m then |Rows(files[n - 1])| else m
  }

  lemma OffsetsStep(files: seq<DataFile>, f: nat)
    requires f < |files|
    ensures Offset(files, f + 1) > Offset(files, f) ==> Offset(files, f + 1) - Offset(files, f) <= |Window(files, f)|
    ensures Offset(files, 0) == 0
  {
  }

  /** Bring files f and f + 1 into the buffer: both on the first turn, one new file afterwards. */
  method Refill(buf: array<real>, files: seq<DataFile>, f: nat, first: nat, total: nat) returns (first': nat, total': nat)
    requires f < |files| && buf.Length >= 2 * LargestFile(files, |files|)
    requires f > 0 ==> total <= buf.Length && buf[..total] == Window(files, f - 1) && first == |Rows(files[f - 1])|
    modifies buf
    ensures total' <= buf.Length && buf[..total'] == Window(files, f) && first' == |Rows(files[f])|
  {
    if f == 0 {
      first' := LoadFile(buf, 0, files[0]);
    } else {
      SlideDown(buf, first, total);
      first' := total - first;
      assert buf[..first'] == Rows(files[f]);
    }
    total' := first';
    if f + 1 < |files| {
      var n := LoadFile(buf, total', files[f + 1]);
      total' := total' + n;
    }
  }

  /** Every sample whose file has had its turn holds its cell. */
  ghost predicate CellsDone(out: array2<Label>, files: seq<DataFile>, samples: seq<Sample>, targets: seq<Target>,
                            f: nat, sqrt: real -> real)
    requires out.Length0 == |targets| && out.Length1 == |samples|
    reads out
  {
    forall t, g, s :: 0 <= t < |targets| && g < f && LabelledBy(files, samples, g, s) ==>
      out[t, s] == Cell(targets[t], Window(files, g), Offset(files, g), samples[s], sqrt)
  }

  ghost predicate PrefillFrom(out: array2<Label>, c: nat)
    reads out
  {
    forall t, s :: 0 <= t < out.Length0 && c <= s < out.Length1 ==> out[t, s] == NotFinite
  }

  /** The turn of file f. */
  method LabelTurn(buf: array<real>, total: nat, files: seq<DataFile>, f: nat, samples: seq<Sample>, cursor: nat,
                   targets: seq<Target>, out: array2<Label>, sqrt: real -> real) returns (next: nat)
    requires f < |files| && total <= buf.Length && buf[..total] == Window(files, f)
    requires out.Length0 == |targets| && out.Length1 == |samples|
    requires cursor == Cursor(files, samples, f)
    requires CellsDone(out, files, samples, targets, f, sqrt) && PrefillFrom(out, cursor)
    modifies out
    ensures next == Cursor(files, samples, f + 1)
    ensures CellsDone(out, files, samples, targets, f + 1, sqrt) && PrefillFrom(out, next)
  {
    hide Cell, Window, Rows, Offset, Cursor, Advance;
    OffsetsStep(files, f);
    CursorStep(files, samples, f);
    next := LabelFile(buf, total, Offset(files, f), Offset(files, f + 1), samples, cursor, targets, out, sqrt);
    forall t, g, s | 0 <= t < |targets| && g < f + 1 && LabelledBy(files, samples, g, s)
      ensures out[t, s] == Cell(targets[t], Window(files, g), Offset(files, g), samples[s], sqrt)
    {
      if g < f {
        CursorMonotone(files, samples, g + 1, f);
        assert out[t, s] == old(out[t, s]);
      }
    }
  }

  lemma CursorStep(files: seq<DataFile>, samples: seq<Sample>, f: nat)
    requires f < |files|
    ensures Cursor(files, samples, f + 1) == Advance(samples, Cursor(files, samples, f), Offset(files, f + 1))
  {
  }

  /** The batch walk: one pass over the files, all targets of a sample at once.  It returns how
      many samples were reached; the others keep the not-finite prefill. */
  method ComputeLabelsBatch(files: seq<DataFile>, samples: seq<Sample>, targets: seq<Target>, fee: real,
                            out: array2<Label>, sqrt: real -> real) returns (labelled: int)
    requires out.Length0 == |targets| && out.Length1 == |samples|
    modifies out
    ensures |targets| > 16 ==> labelled == -1 && unchanged(out)
    ensures |targets| == 0 ==> labelled == 0
    ensures 0 < |targets| <= 16 ==> labelled == Cursor(files, samples, |files|)
    ensures |targets| <= 16 ==>
              forall t, f, s :: 0 <= t < |targets| && LabelledBy(files, samples, f, s) ==>
                out[t, s] == Cell(Resolve(targets[t], fee), Window(files, f), Offset(files, f), samples[s], sqrt)
    ensures |targets| <= 16 ==> PrefillFrom(out, Cursor(files, samples, |files|))
  {
    hide Resolve, Cell, Window, LargestFile, Offset;
    if |targets| == 0 { return 0; }
    if |targets| > MAX_TARGETS { return -1; }
    forall t, s | 0 <= t < |targets| && 0 <= s < |samples| {
      out[t, s] := NotFinite;
    }
    if |files| == 0 { return 0; }
    var resolved := seq(|targets|, t requires 0 <= t < |targets| => Resolve(targets[t], fee));
    var buf := new real[2 * (LargestFile(files, |files|) + 1024)];
    var first: nat, total: nat, cursor: nat := 0, 0, 0;
    for f := 0 to |files|
      invariant cursor == Cursor(files, samples, f)
      invariant f > 0 ==> total <= buf.Length && buf[..total] == Window(files, f - 1) && first == |Rows(files[f - 1])|
      invariant CellsDone(out, files, samples, resolved, f, sqrt) && PrefillFrom(out, cursor)
    {
      first, total := Refill(buf, files, f, first, total);
      cursor := LabelTurn(buf, total, files, f, samples, cursor, resolved, out, sqrt);
    }
    labelled := cursor;
  }
}
