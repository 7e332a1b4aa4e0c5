/** What the batch labeler writes for a sample: the defaults of its target resolved, the fee on the
    percent barriers, and what stands for a label that is not finite. */
module CellMeaning {
  import opened Labels
  import opened LabelMeaning
  import opened BatchLabeler
  import opened Compaction

  const PERCENT: set<Kind> := {WinLoss, Barrier, PeakValleyStable}
  const CLASSES: set<Kind> := {Regime, PeakValleyStable, VolBarrier3C, VolBarrier3CTimed}
  const NUMBERS: set<Kind> := {ForwardPnl, CsPercentileRank, CsZscoreRobust, CsVolscaledDemeaned}

  /** The label where there is one, else nothing for a multiclass target, zero for a regression and
      one half for a binary one. */
  predicate Stands(cell: Label, l: Label, kind: Kind) {
    && (l.Num? ==> cell == l)
    && (l.NotFinite? ==> (kind in CLASSES <==> cell == NotFinite) && (kind in NUMBERS <==> cell == Num(0.0))
                         && (kind !in CLASSES + NUMBERS <==> cell == Num(0.5)))
  }

  /** The barrier slot in use: one and a half when not set, the fee on top of a percent barrier. */
  function UpSlot(t: Target, fee: real): real {
    (if t.tpPct > 0.0 then t.tpPct else 1.5) + if t.kind in PERCENT && fee > 0.0 then fee else 0.0
  }

  /** The second slot in use: a percent barrier, or a window of at least five ticks. */
  function DownSlot(t: Target): real {
    if t.kind == VolBarrier3CTimed then (if t.slPct < 5.0 then 500.0 else t.slPct)
    else if t.slPct <= 0.0 then (if t.kind in PERCENT then 1.0 else 0.0)
    else t.slPct
  }

  /** A cell is the label leaf on the resolved slots, or what stands for a label that is not finite; a
      sample whose row is not at hand has none. */
  lemma CellIsTheLeaf(t: Target, fee: real, p: Prices, start: nat, s: Sample, sqrt: real -> real)
    ensures var extra := if t.kind == Regime then s.regime else if t.forward > 0 then t.forward else 1000;
            Stands(Cell(Resolve(t, fee), p, start, s, sqrt),
                   if start <= s.tick < start + |p|
                   then Leaf(t.kind, p, s.tick - start, s.price, UpSlot(t, fee), DownSlot(t), extra, sqrt)
                   else NotFinite, t.kind)
  {
    hide Leaf;
    SlotsResolve(t, fee);
    hide Resolve;
  }

  lemma SlotsResolve(t: Target, fee: real)
    ensures Resolve(t, fee) == Target(t.kind, UpSlot(t, fee), DownSlot(t), if t.forward > 0 then t.forward else 1000)
  {
  }

  function UpPrice(t: Target, fee: real, price: real): real {
    price * (1.0 + UpSlot(t, fee) / 100.0)
  }

  function DownPrice(t: Target, price: real): real {
    price * (1.0 - DownSlot(t) / 100.0)
  }

  /** So in terms of prices: a percent target is decided by the first tick past the barrier with the
      fee on it, over the rest of the market or over the look-ahead; a regime is carried over. */
  lemma PercentCells(t: Target, fee: real, p: Prices, start: nat, s: Sample, sqrt: real -> real)
    requires start <= s.tick < start + |p|
    ensures var cell, idx := Cell(Resolve(t, fee), p, start, s, sqrt), s.tick - start;
            var up, down := UpPrice(t, fee, s.price), DownPrice(t, s.price);
            && (t.kind == WinLoss ==> cell == if UpFirst(p, idx, |p|, up, down) then Num(1.0) else Num(0.0))
            && (t.kind == Barrier ==> Classed(cell, p, idx, |p|, up, down, 0.5, 1.0, 0.0))
            && (t.kind == PeakValleyStable ==>
                  Classed(cell, p, idx, WindowEnd(idx, if t.forward > 0 then t.forward else 1000, |p|), up, down, 0.0, 2.0, 1.0))
            && (t.kind == Regime ==> cell == Num(s.regime as real))
  {
    hide Classed, UpFirst, Cell, UpSlot, DownSlot, Resolve, Leaf, WindowEnd;
    var idx := s.tick - start;
    var extra := if t.kind == Regime then s.regime else if t.forward > 0 then t.forward else 1000;
    CellIsTheLeaf(t, fee, p, start, s, sqrt);
    TouchLabelsAreFinite(t.kind, p, idx, s.price, UpSlot(t, fee), DownSlot(t), extra, sqrt);
    PercentLeaves(p, idx, s.price, UpSlot(t, fee), DownSlot(t), extra, sqrt, UpPrice(t, fee, s.price), DownPrice(t, s.price));
  }

  lemma PercentLeaves(p: Prices, idx: nat, price: real, tp: real, sl: real, extra: int, sqrt: real -> real, up: real, down: real)
    requires idx < |p| && up == price * (1.0 + tp / 100.0) && down == price * (1.0 - sl / 100.0)
    ensures Leaf(WinLoss, p, idx, price, tp, sl, extra, sqrt) == if UpFirst(p, idx, |p|, up, down) then Num(1.0) else Num(0.0)
    ensures Classed(Leaf(Barrier, p, idx, price, tp, sl, extra, sqrt), p, idx, |p|, up, down, 0.5, 1.0, 0.0)
    ensures Classed(Leaf(PeakValleyStable, p, idx, price, tp, sl, extra, sqrt),
                    p, idx, WindowEnd(idx, if extra > 0 then extra else 500, |p|), up, down, 0.0, 2.0, 1.0)
    ensures Leaf(Regime, p, idx, price, tp, sl, extra, sqrt) == Num(extra as real)
  {
    RegimeMeaning(p, idx, price, tp, sl, extra, sqrt);
    hide Classed, UpFirst, Leaf, WindowEnd;
    WinLossMeaning(p, idx, price, tp, sl, extra, sqrt);
    BarrierMeaning(p, idx, price, tp, sl, extra, sqrt);
    PeakValleyStableMeaning(p, idx, price, tp, sl, extra, sqrt);
  }

  lemma TouchLabelsAreFinite(kind: Kind, p: Prices, idx: nat, price: real, tp: real, sl: real, extra: int, sqrt: real -> real)
    requires idx < |p|
    ensures kind in PERCENT || kind == Regime ==> Leaf(kind, p, idx, price, tp, sl, extra, sqrt).Num?
  {
    hide FirstTouch;
  }

  /** The filter of each target kind drops what stands for a label that is not finite, except that a
      regression keeps its zero. */
  lemma StandInsAreDropped(t: Target, fee: real, p: Prices, start: nat, s: Sample, sqrt: real -> real)
    requires !(start <= s.tick < start + |p|)
    ensures var filter := if t.kind in CLASSES then DropNotFinite else if t.kind in NUMBERS then KeepAll else DropNeutral;
            Keeps(filter, Cell(Resolve(t, fee), p, start, s, sqrt)) <==> t.kind in NUMBERS
  {
    CellIsTheLeaf(t, fee, p, start, s, sqrt);
    hide Cell, Resolve;
  }
}
