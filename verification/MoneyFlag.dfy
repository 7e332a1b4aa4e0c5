/** The composer thread's overflow bit over whole runs.  Every money operation of the thread may
    raise it and nothing but the cycle tail lowers it: the tail reports it, clears it, and only
    then composes.  Which fills the reports of a run speak of, and which ones they never reach. */
module MoneyFlag {
  import opened Decimal
  import opened ExactBooks
  import opened FillBooking
  import opened LedgerTotals

  /** The ledger with the thread's bit cleared. */
  function Cleared(l: Ledger): Ledger {
    l.(overflow := false)
  }

  lemma BookReadsNoFlag(l: Ledger, partialOn: bool, fe: FillEvent)
    requires Sized(l, partialOn) && Placed(fe, |l.rows|, partialOn)
    ensures Book(l, partialOn, fe)
         == Book(Cleared(l), partialOn, fe).(overflow := l.overflow || Book(Cleared(l), partialOn, fe).overflow)
  {
    hide BookNode, BookFits, ApplyOms, OmsFits;
    assert NodeOf(l, fe.node, partialOn) == NodeOf(Cleared(l), fe.node, partialOn);
  }

  /** The bit never feeds back into the books, and a stretch of bookings raises it by itself or not. */
  lemma {:induction false} FoldReadsNoFlag(l: Ledger, partialOn: bool, fills: seq<FillEvent>)
    requires Sized(l, partialOn) && AllPlaced(fills, |l.rows|, partialOn)
    ensures Fold(l, partialOn, fills)
         == Fold(Cleared(l), partialOn, fills).(overflow := l.overflow || Fold(Cleared(l), partialOn, fills).overflow)
  {
    hide Book;
    if fills != [] {
      var k := |fills| - 1;
      FoldReadsNoFlag(l, partialOn, fills[..k]);
      BookReadsNoFlag(Fold(l, partialOn, fills[..k]), partialOn, fills[k]);
      BookReadsNoFlag(Fold(Cleared(l), partialOn, fills[..k]), partialOn, fills[k]);
    }
  }

  /** Two ledgers with the same books: the same fills raise the same new overflow in both. */
  lemma SameBooksFold(l: Ledger, m: Ledger, partialOn: bool, fills: seq<FillEvent>)
    requires Sized(l, partialOn) && AllPlaced(fills, |l.rows|, partialOn) && Cleared(l) == Cleared(m)
    ensures Cleared(Fold(l, partialOn, fills)) == Cleared(Fold(m, partialOn, fills))
    ensures Fold(l, partialOn, fills).overflow <==> l.overflow || Fold(Cleared(l), partialOn, fills).overflow
    ensures Fold(m, partialOn, fills).overflow <==> m.overflow || Fold(Cleared(l), partialOn, fills).overflow
  {
    hide Fold;
    FoldReadsNoFlag(l, partialOn, fills);
    FoldReadsNoFlag(m, partialOn, fills);
  }

  lemma {:induction false} FoldConcat(l: Ledger, partialOn: bool, f: seq<FillEvent>, g: seq<FillEvent>)
    requires Sized(l, partialOn) && AllPlaced(f, |l.rows|, partialOn) && AllPlaced(g, |l.rows|, partialOn)
    ensures AllPlaced(f + g, |l.rows|, partialOn)
    ensures Fold(l, partialOn, f + g) == Fold(Fold(l, partialOn, f), partialOn, g)
  {
    hide Book;
    if g == [] {
      assert f + g == f;
    } else {
      var k := |g| - 1;
      FoldConcat(l, partialOn, f, g[..k]);
      assert (f + g)[..|f + g| - 1] == f + g[..k];
    }
  }

  // ---- cycles: book, report and clear, compose ----

  /** One drainer cycle: what a full ring made it book before the tail, what its compose booked
      after it, and whether another money operation of the thread overflowed in either part. */
  datatype Cycle = Cycle(inlined: seq<FillEvent>, otherBefore: bool, composed: seq<FillEvent>, otherAfter: bool)

  predicate CyclePlaced(c: Cycle, nodes: nat, partialOn: bool) {
    AllPlaced(c.inlined, nodes, partialOn) && AllPlaced(c.composed, nodes, partialOn)
  }

  ghost predicate AllCyclesPlaced(cycles: seq<Cycle>, nodes: nat, partialOn: bool) {
    forall i :: 0 <= i < |cycles| ==> CyclePlaced(cycles[i], nodes, partialOn)
  }

  function RunCycle(l: Ledger, partialOn: bool, c: Cycle): (r: (Ledger, bool))
    requires Sized(l, partialOn) && CyclePlaced(c, |l.rows|, partialOn)
    ensures Sized(r.0, partialOn) && |r.0.rows| == |l.rows|
  {
    var booked := Fold(l, partialOn, c.inlined);
    var composed := Fold(Cleared(booked), partialOn, c.composed);
    (composed.(overflow := composed.overflow || c.otherAfter), booked.overflow || c.otherBefore)
  }

  /** A run of cycles: the ledger it leaves, with the thread's bit, and the report of every tail. */
  ghost function Run(l: Ledger, partialOn: bool, cycles: seq<Cycle>): (r: (Ledger, seq<bool>))
    requires Sized(l, partialOn) && AllCyclesPlaced(cycles, |l.rows|, partialOn)
    ensures Sized(r.0, partialOn) && |r.0.rows| == |l.rows| && |r.1| == |cycles|
  {
    if cycles == [] then (l, [])
    else
      var k := |cycles| - 1;
      var before := Run(l, partialOn, cycles[..k]);
      var last := RunCycle(before.0, partialOn, cycles[k]);
      (last.0, before.1 + [last.1])
  }

  /** Everything the cycles booked, in order. */
  function Fills(cycles: seq<Cycle>): seq<FillEvent> {
    if cycles == [] then []
    else
      var k := |cycles| - 1;
      Fills(cycles[..k]) + cycles[k].inlined + cycles[k].composed
  }

  /** What they booked before the last tail: the last compose comes after every report. */
  function ReportedFills(cycles: seq<Cycle>): seq<FillEvent> {
    if cycles == [] then [] else Fills(cycles[..|cycles| - 1]) + cycles[|cycles| - 1].inlined
  }

  /** Some operation of the thread that is not a booking overflowed. */
  predicate OtherOverflow(cycles: seq<Cycle>) {
    cycles != [] &&
    var c := cycles[|cycles| - 1];
    OtherOverflow(cycles[..|cycles| - 1]) || c.otherBefore || c.otherAfter
  }

  predicate OtherReported(cycles: seq<Cycle>) {
    cycles != [] && (OtherOverflow(cycles[..|cycles| - 1]) || cycles[|cycles| - 1].otherBefore)
  }

  ghost predicate Silent(reports: seq<bool>) {
    forall i :: 0 <= i < |reports| ==> !reports[i]
  }

  lemma FillsPlaced(cycles: seq<Cycle>, nodes: nat, partialOn: bool)
    requires AllCyclesPlaced(cycles, nodes, partialOn)
    ensures AllPlaced(Fills(cycles), nodes, partialOn) && AllPlaced(ReportedFills(cycles), nodes, partialOn)
  {
    if cycles != [] {
      var k := |cycles| - 1;
      FillsPlaced(cycles[..k], nodes, partialOn);
      assert CyclePlaced(cycles[k], nodes, partialOn);
    }
  }

  /** Clearing the bit changes no book: the cycles book what one uninterrupted run of the same
      fills books, and that run's bit is the reports and the bit still standing, taken together. */
  ghost predicate SameRun(l: Ledger, partialOn: bool, cycles: seq<Cycle>)
    requires Sized(l, partialOn) && AllCyclesPlaced(cycles, |l.rows|, partialOn)
    requires AllPlaced(Fills(cycles), |l.rows|, partialOn)
  {
    var run, whole := Run(l, partialOn, cycles), Fold(l, partialOn, Fills(cycles));
    && Cleared(run.0) == Cleared(whole)
    && (Silent(run.1) && !run.0.overflow <==> !whole.overflow && !OtherOverflow(cycles))
  }

  lemma {:induction false} CyclesAreOneRun(l: Ledger, partialOn: bool, cycles: seq<Cycle>)
    requires Sized(l, partialOn) && AllCyclesPlaced(cycles, |l.rows|, partialOn)
    ensures AllPlaced(Fills(cycles), |l.rows|, partialOn) && SameRun(l, partialOn, cycles)
  {
    hide Fold, AllPlaced;
    FillsPlaced(cycles, |l.rows|, partialOn);
    if cycles == [] {
      FoldNothing(l, partialOn);
    } else {
      var k := |cycles| - 1;
      var c, before := cycles[k], Run(l, partialOn, cycles[..k]);
      FillsPlaced(cycles[..k], |l.rows|, partialOn);
      CyclesAreOneRun(l, partialOn, cycles[..k]);
      var whole := Fold(l, partialOn, Fills(cycles[..k]));
      FoldConcat(l, partialOn, Fills(cycles[..k]), c.inlined);
      FoldConcat(l, partialOn, Fills(cycles[..k]) + c.inlined, c.composed);
      SameBooksFold(before.0, whole, partialOn, c.inlined);
      SameBooksFold(Cleared(Fold(before.0, partialOn, c.inlined)), Fold(whole, partialOn, c.inlined), partialOn, c.composed);
      SilentSnoc(before.1, RunCycle(before.0, partialOn, c).1);
    }
  }

  lemma FoldNothing(l: Ledger, partialOn: bool)
    requires Sized(l, partialOn)
    ensures Fold(l, partialOn, []) == l
  {
  }

  lemma SilentSnoc(reports: seq<bool>, last: bool)
    ensures Silent(reports + [last]) <==> Silent(reports) && !last
  {
    if Silent(reports + [last]) {
      forall i | 0 <= i < |reports| ensures !reports[i] { assert !(reports + [last])[i]; }
      assert !(reports + [last])[|reports|];
    }
  }

  /** No tail of a run reports if and only if nothing booked before the last tail saturated and no
      other operation of the thread overflowed by then. */
  lemma SilentExactly(l: Ledger, partialOn: bool, cycles: seq<Cycle>)
    requires Sized(l, partialOn) && AllCyclesPlaced(cycles, |l.rows|, partialOn) && !l.overflow
    ensures AllPlaced(ReportedFills(cycles), |l.rows|, partialOn)
    ensures Silent(Run(l, partialOn, cycles).1)
       <==> !Fold(l, partialOn, ReportedFills(cycles)).overflow && !OtherReported(cycles)
  {
    hide Fold, AllPlaced;
    FillsPlaced(cycles, |l.rows|, partialOn);
    if cycles == [] {
      FoldNothing(l, partialOn);
    } else {
      var k := |cycles| - 1;
      var c, before := cycles[k], Run(l, partialOn, cycles[..k]);
      CyclesAreOneRun(l, partialOn, cycles[..k]);
      var whole := Fold(l, partialOn, Fills(cycles[..k]));
      FoldConcat(l, partialOn, Fills(cycles[..k]), c.inlined);
      SameBooksFold(before.0, whole, partialOn, c.inlined);
      SilentSnoc(before.1, RunCycle(before.0, partialOn, c).1);
    }
  }

  // ---- what the reports say about the books ----

  ghost predicate RunInDomain(nodes: nat, oms: Oms, partialOn: bool, fills: seq<FillEvent>) {
    OmsInDomain(oms, fills) && forall n :: 0 <= n < nodes ==> NodeInDomain(partialOn, fills, n)
  }

  /** From empty books: no tail reports if and only if, in integers and on the fills alone, every
      node's and every global sum stayed in the money domain up to the last tail, and no other
      operation of the thread overflowed by then. */
  lemma NoReportExactly(nodes: nat, slots: nat, oms: Oms, partialOn: bool, cycles: seq<Cycle>)
    requires FirstSlot(nodes, partialOn) <= slots && AllCyclesPlaced(cycles, nodes, partialOn)
    ensures Silent(Run(ZeroLedger(nodes, slots, oms), partialOn, cycles).1)
       <==> RunInDomain(nodes, oms, partialOn, ReportedFills(cycles)) && !OtherReported(cycles)
  {
    hide Fold, Run, OtherReported, ReportedFills, OmsInDomain, NodeInDomain;
    SilentExactly(ZeroLedger(nodes, slots, oms), partialOn, cycles);
    ClearFlagExactly(nodes, slots, oms, partialOn, ReportedFills(cycles));
  }

  /** What every report together with the bit still standing at the end says: all of it, the last
      compose and the unreported shutdown bookings included. */
  lemma NothingOverflowedExactly(nodes: nat, slots: nat, oms: Oms, partialOn: bool, cycles: seq<Cycle>, shutdown: seq<FillEvent>)
    requires FirstSlot(nodes, partialOn) <= slots && AllCyclesPlaced(cycles, nodes, partialOn)
    requires AllPlaced(shutdown, nodes, partialOn)
    ensures var run := Run(ZeroLedger(nodes, slots, oms), partialOn, cycles);
            (Silent(run.1) && !Fold(run.0, partialOn, shutdown).overflow
             <==> RunInDomain(nodes, oms, partialOn, Fills(cycles) + shutdown) && !OtherOverflow(cycles))
  {
    hide Fold, Run, OtherOverflow, Fills, OmsInDomain, NodeInDomain;
    var l := ZeroLedger(nodes, slots, oms);
    CyclesAreOneRun(l, partialOn, cycles);
    FoldConcat(l, partialOn, Fills(cycles), shutdown);
    SameBooksFold(Run(l, partialOn, cycles).0, Fold(l, partialOn, Fills(cycles)), partialOn, shutdown);
    ClearFlagExactly(nodes, slots, oms, partialOn, Fills(cycles) + shutdown);
  }

  /** A run whose tails all stayed silent has every node conserved at its last tail. */
  lemma SilenceConserves(nodes: nat, slots: nat, oms: Oms, partialOn: bool, cycles: seq<Cycle>, n: nat)
    requires FirstSlot(nodes, partialOn) <= slots && AllCyclesPlaced(cycles, nodes, partialOn) && n < nodes
    requires cycles != [] && Silent(Run(ZeroLedger(nodes, slots, oms), partialOn, cycles).1)
    ensures var k := |cycles| - 1;
            var before := Run(ZeroLedger(nodes, slots, oms), partialOn, cycles[..k]).0;
            && CyclePlaced(cycles[k], nodes, partialOn)
            && Conserved(NodeOf(Fold(before, partialOn, cycles[k].inlined), n, partialOn))
  {
    hide Fold, NodeOf, Conserved, Fills;
    var l, k := ZeroLedger(nodes, slots, oms), |cycles| - 1;
    var c, before := cycles[k], Run(l, partialOn, cycles[..k]).0;
    assert CyclePlaced(c, nodes, partialOn);
    CyclesAreOneRun(l, partialOn, cycles[..k]);
    FoldConcat(l, partialOn, Fills(cycles[..k]), c.inlined);
    SilentExactly(l, partialOn, cycles);
    hide Run;
    ClearFlagConserves(nodes, slots, oms, partialOn, ReportedFills(cycles), n);
    var whole := Fold(l, partialOn, Fills(cycles[..k]));
    SameBooksFold(before, whole, partialOn, c.inlined);
    NodeReadsNoFlag(Fold(before, partialOn, c.inlined), Fold(whole, partialOn, c.inlined), n, partialOn);
  }

  lemma NodeReadsNoFlag(l: Ledger, m: Ledger, n: nat, partialOn: bool)
    requires Sized(l, partialOn) && n < |l.rows| && Cleared(l) == Cleared(m)
    ensures NodeOf(l, n, partialOn) == NodeOf(m, n, partialOn)
  {
  }

  lemma LastCycle(l: Ledger, partialOn: bool, cycles: seq<Cycle>)
    requires Sized(l, partialOn) && AllCyclesPlaced(cycles, |l.rows|, partialOn) && cycles != []
    ensures var k := |cycles| - 1; var before := Run(l, partialOn, cycles[..k]);
            && CyclePlaced(cycles[k], |l.rows|, partialOn)
            && Run(l, partialOn, cycles).0 == RunCycle(before.0, partialOn, cycles[k]).0
            && Run(l, partialOn, cycles).1 == before.1 + [RunCycle(before.0, partialOn, cycles[k]).1]
  {
    hide RunCycle;
  }

  /** Each report is about its own stretch: what was booked since the previous tail cleared the
      bit, from the books as they stood there, and nothing earlier. */
  lemma ReportIsLocal(l: Ledger, partialOn: bool, cycles: seq<Cycle>)
    requires Sized(l, partialOn) && AllCyclesPlaced(cycles, |l.rows|, partialOn) && |cycles| >= 2
    ensures var k := |cycles| - 1;
            var prev, c := cycles[k - 1], cycles[k];
            && CyclePlaced(prev, |l.rows|, partialOn) && CyclePlaced(c, |l.rows|, partialOn)
            && AllPlaced(prev.composed + c.inlined, |l.rows|, partialOn)
            && var tail := Cleared(Fold(Run(l, partialOn, cycles[..k - 1]).0, partialOn, prev.inlined));
               Run(l, partialOn, cycles).1[k]
               <==> Fold(tail, partialOn, prev.composed + c.inlined).overflow || prev.otherAfter || c.otherBefore
  {
    hide Fold, Run, RunCycle, AllPlaced, AllCyclesPlaced, CyclePlaced, Sized;
    var k := |cycles| - 1;
    TwoLast(cycles, |l.rows|, partialOn);
    LastCycle(l, partialOn, cycles);
    LastCycle(l, partialOn, cycles[..k]);
    ReportOfTwo(Run(l, partialOn, cycles[..k - 1]).0, partialOn, cycles[k - 1], cycles[k]);
  }

  lemma TwoLast(cycles: seq<Cycle>, nodes: nat, partialOn: bool)
    requires AllCyclesPlaced(cycles, nodes, partialOn) && |cycles| >= 2
    ensures var k := |cycles| - 1;
            && AllCyclesPlaced(cycles[..k], nodes, partialOn) && AllCyclesPlaced(cycles[..k - 1], nodes, partialOn)
            && cycles[..k][..k - 1] == cycles[..k - 1] && cycles[..k][k - 1] == cycles[k - 1]
            && CyclePlaced(cycles[k - 1], nodes, partialOn) && CyclePlaced(cycles[k], nodes, partialOn)
  {
    hide CyclePlaced;
  }

  lemma ReportOfTwo(l: Ledger, partialOn: bool, prev: Cycle, c: Cycle)
    requires Sized(l, partialOn) && CyclePlaced(prev, |l.rows|, partialOn) && CyclePlaced(c, |l.rows|, partialOn)
    ensures AllPlaced(prev.composed + c.inlined, |l.rows|, partialOn)
    ensures var tail := Cleared(Fold(l, partialOn, prev.inlined));
            RunCycle(RunCycle(l, partialOn, prev).0, partialOn, c).1
            <==> Fold(tail, partialOn, prev.composed + c.inlined).overflow || prev.otherAfter || c.otherBefore
  {
    hide Fold;
    var tail := Cleared(Fold(l, partialOn, prev.inlined));
    FoldConcat(tail, partialOn, prev.composed, c.inlined);
    var composed := Fold(tail, partialOn, prev.composed);
    SameBooksFold(composed, composed.(overflow := composed.overflow || prev.otherAfter), partialOn, c.inlined);
  }

  // ---- what the bit at the end and silent tails do not say ----

  const ZERO_OMS := Oms(0, 0, 0, 0, 0, 0, 0, 0)

  lemma OwnFillsOfOneNode(fills: seq<FillEvent>, n: nat, partialOn: bool)
    requires AllOwned(fills, n, partialOn)
    ensures OwnFills(fills, n) == fills
  {
    if fills != [] {
      OwnFillsOfOneNode(fills[..|fills| - 1], n, partialOn);
    }
  }

  /** The three fills that lose profit, booked on an empty ledger of one node. */
  lemma LossyFills() returns (fills: seq<FillEvent>)
    ensures AllPlaced(fills, 1, false)
    ensures var l := Fold(ZeroLedger(1, 1, ZERO_OMS), false, fills); l.overflow && !Conserved(NodeOf(l, 0, false))
  {
    hide Fold, FoldNode, Conserved, NodeOf;
    fills := SaturationLosesProfit();
    var l := ZeroLedger(1, 1, ZERO_OMS);
    OwnFillsOfOneNode(fills, 0, false);
    NodeIndependence(l, false, fills, 0);
    ZeroLedgerNodes(1, 1, ZERO_OMS, false, 0);
    if !Fold(l, false, fills).overflow {
      ClearFlagConserves(1, 1, ZERO_OMS, false, fills, 0);
    }
  }

  lemma OneCycle(l: Ledger, c: Cycle)
    requires Sized(l, false) && CyclePlaced(c, |l.rows|, false)
    ensures AllCyclesPlaced([c], |l.rows|, false)
    ensures Run(l, false, [c]).0 == RunCycle(l, false, c).0 && Run(l, false, [c]).1 == [RunCycle(l, false, c).1]
  {
    hide RunCycle;
    assert [c][..0] == [];
  }

  /** A bit that is down at the end says nothing of the run: here the first tail reported an
      overflow and cleared it, and the books are no longer conserved. */
  lemma FlagDownSaysNothing() returns (cycles: seq<Cycle>)
    ensures AllCyclesPlaced(cycles, 1, false)
    ensures var run := Run(ZeroLedger(1, 1, ZERO_OMS), false, cycles);
            !run.0.overflow && !Silent(run.1) && !Conserved(NodeOf(run.0, 0, false))
  {
    hide Fold, Conserved, NodeOf, Run;
    var l := ZeroLedger(1, 1, ZERO_OMS);
    var fills := LossyFills();
    var c := Cycle(fills, false, [], false);
    cycles := [c];
    OneCycle(l, c);
    FoldNothing(Cleared(Fold(l, false, fills)), false);
    NodeReadsNoFlag(Fold(l, false, fills), Cleared(Fold(l, false, fills)), 0, false);
    assert Run(l, false, cycles).1[0];
  }

  /** Silent tails say nothing of what is booked after the last one: here the last compose
      overflows, nothing reports it, and the books are no longer conserved. */
  lemma LastComposeIsUnreported() returns (cycles: seq<Cycle>)
    ensures AllCyclesPlaced(cycles, 1, false)
    ensures var run := Run(ZeroLedger(1, 1, ZERO_OMS), false, cycles);
            Silent(run.1) && !Conserved(NodeOf(run.0, 0, false))
  {
    hide Fold, Conserved, NodeOf, Run;
    var l := ZeroLedger(1, 1, ZERO_OMS);
    var fills := LossyFills();
    var c := Cycle([], false, fills, false);
    cycles := [c];
    OneCycle(l, c);
    FoldNothing(l, false);
    var run := Run(l, false, cycles);
    assert Cleared(l) == l;
    NodeReadsNoFlag(Fold(l, false, fills), run.0, 0, false);
  }
}
