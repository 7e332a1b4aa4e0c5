/** Whole-ledger consequences of the booking rules: what bookings that never saturate guarantee,
    the drift identity between the global balance and the node rows, and which totals depend on the
    order in which the rings happened to be drained. */
module LedgerTotals {
  import opened Decimal
  import opened FillBooking

  // ---- bookings that never saturate certify every node's run ----

  /** A stretch of bookings with no cycle tail in between that left the bit down. */
  lemma {:induction false} ClearFlagMeansRunsFit(l: Ledger, partialOn: bool, fills: seq<FillEvent>, n: nat)
    requires Sized(l, partialOn) && AllPlaced(fills, |l.rows|, partialOn) && n < |l.rows|
    requires !Fold(l, partialOn, fills).overflow
    ensures AllOwned(OwnFills(fills, n), n, partialOn)
    ensures RunFits(NodeOf(l, n, partialOn), partialOn, n, OwnFills(fills, n))
  {
    hide BookNode, NodeOf, BookFits, OmsFits, ApplyOms;
    OwnFillsOwned(fills, n, |l.rows|, partialOn);
    if fills != [] {
      var k := |fills| - 1;
      ClearFlagMeansRunsFit(l, partialOn, fills[..k], n);
      if fills[k].node == n {
        NodeIndependence(l, partialOn, fills[..k], n);
        var own := OwnFills(fills, n);
        assert own[..|own| - 1] == OwnFills(fills[..k], n);
      }
    }
  }

  /** From empty books, bookings none of which saturated leave every node conserved, at whatever
      point of whatever interleaving they are observed. */
  lemma ClearFlagConserves(nodes: nat, slots: nat, oms: Oms, partialOn: bool, fills: seq<FillEvent>, n: nat)
    requires FirstSlot(nodes, partialOn) <= slots && AllPlaced(fills, nodes, partialOn) && n < nodes
    requires !Fold(ZeroLedger(nodes, slots, oms), partialOn, fills).overflow
    ensures Conserved(NodeOf(Fold(ZeroLedger(nodes, slots, oms), partialOn, fills), n, partialOn))
  {
    hide BookNode, NodeOf, FoldNode, Fold;
    var l := ZeroLedger(nodes, slots, oms);
    ZeroLedgerNodes(nodes, slots, oms, partialOn, n);
    ClearFlagMeansRunsFit(l, partialOn, fills, n);
    NodeIndependence(l, partialOn, fills, n);
    NodeRunConserves(partialOn, n, OwnFills(fills, n));
  }

  // ---- the drift identity ----

  function TotalRealized(rows: seq<NodeRow>): int {
    if rows == [] then 0 else rows[0].realized + TotalRealized(rows[1..])
  }

  lemma TotalRealizedUpdate(rows: seq<NodeRow>, n: nat, row: NodeRow)
    requires n < |rows|
    ensures TotalRealized(rows[n := row]) == TotalRealized(rows) - rows[n].realized + row.realized
  {
    if n == 0 {
      assert rows[n := row][1..] == rows[1..];
    } else {
      TotalRealizedUpdate(rows[1..], n - 1, row);
      assert rows[n := row][1..] == rows[1..][n - 1 := row];
    }
  }

  /** What one booking adds to its node's realized total. */
  lemma RealizedStep(b: NodeBook, partialOn: bool, fe: FillEvent)
    requires Shaped(b, partialOn) && OwnsSlot(fe.node, fe.slot, partialOn) && BookFits(b, partialOn, fe)
    ensures BookNode(b, partialOn, fe).row.realized == b.row.realized + (if fe.isSell then fe.net else 0)
  {
  }

  /** Buys book no net: the sell leg carries the whole realized delta. */
  ghost predicate BuysCarryNoNet(fills: seq<FillEvent>) {
    forall i :: 0 <= i < |fills| ==> !fills[i].isSell ==> fills[i].net == 0
  }

  /** The global balance moves by exactly what the node rows realize: the two are kept by
      different code and never drift apart. */
  lemma {:induction false} BalanceMatchesRows(l: Ledger, partialOn: bool, fills: seq<FillEvent>)
    requires Sized(l, partialOn) && AllPlaced(fills, |l.rows|, partialOn) && BuysCarryNoNet(fills)
    requires !Fold(l, partialOn, fills).overflow
    ensures var r := Fold(l, partialOn, fills);
            && r.oms.balance - l.oms.balance == TotalRealized(r.rows) - TotalRealized(l.rows)
            && r.oms.realizedPnl - l.oms.realizedPnl == TotalRealized(r.rows) - TotalRealized(l.rows)
  {
    hide BookNode, BookFits, NodeOf, TotalRealized;
    if fills != [] {
      var k := |fills| - 1;
      BalanceMatchesRows(l, partialOn, fills[..k]);
      var before, fe := Fold(l, partialOn, fills[..k]), fills[k];
      RealizedStep(NodeOf(before, fe.node, partialOn), partialOn, fe);
      NodeOfRow(before, fe.node, partialOn);
      TotalRealizedUpdate(before.rows, fe.node, BookNode(NodeOf(before, fe.node, partialOn), partialOn, fe).row);
    }
  }

  lemma NodeOfRow(l: Ledger, n: nat, partialOn: bool)
    requires Sized(l, partialOn) && n < |l.rows|
    ensures NodeOf(l, n, partialOn).row == l.rows[n]
  {
  }

  function TotalEntries(rows: seq<NodeRow>): int {
    if rows == [] then 0 else rows[0].entries + TotalEntries(rows[1..])
  }

  function TotalExits(rows: seq<NodeRow>): int {
    if rows == [] then 0 else rows[0].exits + TotalExits(rows[1..])
  }

  lemma TotalCountsUpdate(rows: seq<NodeRow>, n: nat, row: NodeRow)
    requires n < |rows|
    ensures TotalEntries(rows[n := row]) == TotalEntries(rows) - rows[n].entries + row.entries
    ensures TotalExits(rows[n := row]) == TotalExits(rows) - rows[n].exits + row.exits
  {
    if n == 0 {
      assert rows[n := row][1..] == rows[1..];
    } else {
      TotalCountsUpdate(rows[1..], n - 1, row);
      assert rows[n := row][1..] == rows[1..][n - 1 := row];
    }
  }

  lemma CountsOfStep(b: NodeBook, partialOn: bool, fe: FillEvent)
    requires Shaped(b, partialOn) && OwnsSlot(fe.node, fe.slot, partialOn)
    ensures BookNode(b, partialOn, fe).row.entries == b.row.entries + (if fe.isSell then 0 else 1)
    ensures BookNode(b, partialOn, fe).row.exits == b.row.exits + (if fe.isSell then 1 else 0)
  {
  }

  /** The engine-wide counters are the sums of the node counters, and every fill is counted once. */
  lemma {:induction false} EngineCountsMatchRows(l: Ledger, partialOn: bool, fills: seq<FillEvent>)
    requires Sized(l, partialOn) && AllPlaced(fills, |l.rows|, partialOn)
    ensures var r := Fold(l, partialOn, fills);
            && r.engine.entries - l.engine.entries == TotalEntries(r.rows) - TotalEntries(l.rows)
            && r.engine.exits - l.engine.exits == TotalExits(r.rows) - TotalExits(l.rows)
            && r.engine.events == l.engine.events + |fills|
            && r.engine.entries + r.engine.exits == l.engine.entries + l.engine.exits + |fills|
  {
    hide BookNode, BookFits, NodeOf, TotalEntries, TotalExits, OmsFits, ApplyOms;
    if fills != [] {
      var k := |fills| - 1;
      EngineCountsMatchRows(l, partialOn, fills[..k]);
      var before, fe := Fold(l, partialOn, fills[..k]), fills[k];
      CountsOfStep(NodeOf(before, fe.node, partialOn), partialOn, fe);
      NodeOfRow(before, fe.node, partialOn);
      TotalCountsUpdate(before.rows, fe.node, BookNode(NodeOf(before, fe.node, partialOn), partialOn, fe).row);
    }
  }

  // ---- the totals are sums over the fills ----

  function SellNet(fills: seq<FillEvent>): int {
    if fills == [] then 0 else
      var fe := fills[|fills| - 1];
      SellNet(fills[..|fills| - 1]) + if fe.isSell then fe.net else 0
  }

  /** A sell carries its own execution fee and its share of the entry fee. */
  function SellFees(fills: seq<FillEvent>): int {
    if fills == [] then 0 else
      var fe := fills[|fills| - 1];
      SellFees(fills[..|fills| - 1]) + if fe.isSell then fe.entryFeeLeg + fe.fee else 0
  }

  /** Realized profit and fees of a node are plain sums over its sells: nothing is booked twice and
      nothing on a buy. */
  lemma {:induction false} NodeTotalsAreSums(partialOn: bool, node: nat, fills: seq<FillEvent>)
    requires AllOwned(fills, node, partialOn) && RunFits(ZeroNode(partialOn), partialOn, node, fills)
    ensures var row := FoldNode(ZeroNode(partialOn), partialOn, node, fills).row;
            row.realized == SellNet(fills) && row.fees == SellFees(fills)
  {
    if fills != [] {
      var k := |fills| - 1;
      NodeTotalsAreSums(partialOn, node, fills[..k]);
      hide FoldNode;
      FoldStep(partialOn, node, fills);
      NodeTotalsStep(FoldNode(ZeroNode(partialOn), partialOn, node, fills[..k]), partialOn, fills[k]);
    }
  }

  lemma FoldStep(partialOn: bool, node: nat, fills: seq<FillEvent>)
    requires fills != [] && AllOwned(fills, node, partialOn) && RunFits(ZeroNode(partialOn), partialOn, node, fills)
    ensures var before := FoldNode(ZeroNode(partialOn), partialOn, node, fills[..|fills| - 1]);
            && BookFits(before, partialOn, fills[|fills| - 1])
            && FoldNode(ZeroNode(partialOn), partialOn, node, fills) == BookNode(before, partialOn, fills[|fills| - 1])
  {
    hide BookNode, BookFits;
  }

  lemma NodeTotalsStep(b: NodeBook, partialOn: bool, fe: FillEvent)
    requires Shaped(b, partialOn) && OwnsSlot(fe.node, fe.slot, partialOn) && BookFits(b, partialOn, fe)
    ensures var r := BookNode(b, partialOn, fe).row;
            && r.realized == b.row.realized + (if fe.isSell then fe.net else 0)
            && r.fees == b.row.fees + (if fe.isSell then fe.entryFeeLeg + fe.fee else 0)
  {
  }

  function FeesOf(fills: seq<FillEvent>, maker: bool): int {
    if fills == [] then 0 else
      var fe := fills[|fills| - 1];
      FeesOf(fills[..|fills| - 1], maker) + if fe.isMaker == maker then fe.fee else 0
  }

  function CountOf(fills: seq<FillEvent>, maker: bool): nat {
    if fills == [] then 0 else
      CountOf(fills[..|fills| - 1], maker) + if fills[|fills| - 1].isMaker == maker then 1 else 0
  }

  /** The global fees are split exactly by liquidity side, in amount and in count. */
  lemma {:induction false} FeesSplitByLiquidity(l: Ledger, partialOn: bool, fills: seq<FillEvent>)
    requires Sized(l, partialOn) && AllPlaced(fills, |l.rows|, partialOn) && !Fold(l, partialOn, fills).overflow
    ensures var o, r := l.oms, Fold(l, partialOn, fills).oms;
            && r.makerFees == o.makerFees + FeesOf(fills, true) && r.takerFees == o.takerFees + FeesOf(fills, false)
            && r.totalFees == o.totalFees + FeesOf(fills, true) + FeesOf(fills, false)
            && r.makerFills == o.makerFills + CountOf(fills, true) && r.takerFills == o.takerFills + CountOf(fills, false)
            && r.makerFills + r.takerFills == o.makerFills + o.takerFills + |fills|
  {
    hide BookNode, BookFits, NodeOf;
    if fills != [] {
      FeesSplitByLiquidity(l, partialOn, fills[..|fills| - 1]);
    }
  }

  // ---- schedule independence ----

  /** Two drains of the same per-node histories, interleaved in any two ways (different ring
      capacities, different drain times), end with the same rows and the same balance. */
  lemma SameHistoriesSameBooks(l: Ledger, partialOn: bool, f: seq<FillEvent>, g: seq<FillEvent>)
    requires Sized(l, partialOn) && AllPlaced(f, |l.rows|, partialOn) && AllPlaced(g, |l.rows|, partialOn)
    requires forall n :: 0 <= n < |l.rows| ==> OwnFills(f, n) == OwnFills(g, n)
    ensures Fold(l, partialOn, f).rows == Fold(l, partialOn, g).rows
    ensures BuysCarryNoNet(f) && BuysCarryNoNet(g)
            && !Fold(l, partialOn, f).overflow && !Fold(l, partialOn, g).overflow
            ==> Fold(l, partialOn, f).oms.balance == Fold(l, partialOn, g).oms.balance
  {
    hide Fold, NodeOf, FoldNode, OwnFills;
    var a, b := Fold(l, partialOn, f), Fold(l, partialOn, g);
    forall n | 0 <= n < |l.rows|
      ensures a.rows[n] == b.rows[n]
    {
      NodeIndependence(l, partialOn, f, n);
      NodeIndependence(l, partialOn, g, n);
      NodeOfRow(a, n, partialOn);
      NodeOfRow(b, n, partialOn);
    }
    if BuysCarryNoNet(f) && BuysCarryNoNet(g) && !a.overflow && !b.overflow {
      BalanceMatchesRows(l, partialOn, f);
      BalanceMatchesRows(l, partialOn, g);
    }
  }

  // ---- the peak follows the applied order ----

  /** Net booked by the first k fills. */
  function NetUpTo(fills: seq<FillEvent>, k: nat): int
    requires k <= |fills|
  {
    if k == 0 then 0 else NetUpTo(fills, k - 1) + fills[k - 1].net
  }

  lemma NetOfPrefix(fills: seq<FillEvent>, n: nat, k: nat)
    requires k <= n <= |fills|
    ensures NetUpTo(fills[..n], k) == NetUpTo(fills, k)
  {
  }

  /** The balance peak is per applied fill: it is the largest balance any prefix of the applied
      order reached (or the starting peak), and it is attained. */
  ghost predicate IsPeak(peak: int, o: Oms, fills: seq<FillEvent>) {
    && peak >= o.ksPeak
    && (forall k :: 0 < k <= |fills| ==> o.balance + NetUpTo(fills, k) <= peak)
    && (peak == o.ksPeak || exists k :: 0 < k <= |fills| && peak == o.balance + NetUpTo(fills, k))
  }

  lemma {:induction false} PeakIsPerFill(l: Ledger, partialOn: bool, fills: seq<FillEvent>)
    requires Sized(l, partialOn) && AllPlaced(fills, |l.rows|, partialOn)
    requires !Fold(l, partialOn, fills).overflow
    ensures var o := Fold(l, partialOn, fills).oms;
            o.balance == l.oms.balance + NetUpTo(fills, |fills|) && IsPeak(o.ksPeak, l.oms, fills)
  {
    hide BookNode, BookFits, NodeOf;
    if fills != [] {
      var k := |fills| - 1;
      PeakIsPerFill(l, partialOn, fills[..k]);
      NetOfPrefix(fills, k, k);
      PeakSnoc(Fold(l, partialOn, fills[..k]).oms.ksPeak, l.oms, fills);
    }
  }

  lemma PeakSnoc(peak: int, o: Oms, fills: seq<FillEvent>)
    requires fills != [] && IsPeak(peak, o, fills[..|fills| - 1])
    ensures var last := o.balance + NetUpTo(fills, |fills|); IsPeak(if peak > last then peak else last, o, fills)
  {
    var n := |fills| - 1;
    forall k | 0 < k <= n
      ensures NetUpTo(fills, k) == NetUpTo(fills[..n], k)
    {
      NetOfPrefix(fills, n, k);
    }
    hide NetUpTo;
  }

  /** ... so, unlike the totals, the peak does depend on the interleaving. */
  lemma PeakDependsOnSchedule() returns (l: Ledger, f: seq<FillEvent>, g: seq<FillEvent>)
    ensures Sized(l, false) && AllPlaced(f, |l.rows|, false) && AllPlaced(g, |l.rows|, false)
    ensures forall n :: 0 <= n < |l.rows| ==> OwnFills(f, n) == OwnFills(g, n)
    ensures Fold(l, false, f).oms.ksPeak != Fold(l, false, g).oms.ksPeak
  {
    hide Fold, OwnFills;
    l := ZeroLedger(2, 2, Oms(0, 0, 0, 0, 0, 0, 0, 0));
    var gain := FillEvent(0, 0, true, false, true, 1, 100, 0, 0, 0);
    var loss := FillEvent(1, 1, true, false, true, 1, -100, 0, 0, 0);
    f := TwoFills(l, gain, loss);
    g := TwoFills(l, loss, gain);
  }

  lemma TwoFills(l: Ledger, first: FillEvent, second: FillEvent) returns (fills: seq<FillEvent>)
    requires Sized(l, false) && |l.rows| == 2
    requires Placed(first, 2, false) && Placed(second, 2, false) && first.node != second.node
    ensures AllPlaced(fills, 2, false)
    ensures Fold(l, false, fills).oms == ApplyOms(ApplyOms(l.oms, first), second)
    ensures OwnFills(fills, first.node) == [first] && OwnFills(fills, second.node) == [second]
  {
    hide ApplyOms, Book;
    fills := [] + [first] + [second];
    OmsSnoc(l, [], first);
    OmsSnoc(l, [] + [first], second);
    OwnFillsSnoc([], first, first.node);
    OwnFillsSnoc([], first, second.node);
    OwnFillsSnoc([] + [first], second, first.node);
    OwnFillsSnoc([] + [first], second, second.node);
  }

  lemma OmsSnoc(l: Ledger, fills: seq<FillEvent>, fe: FillEvent)
    requires Sized(l, false) && AllPlaced(fills, |l.rows|, false) && Placed(fe, |l.rows|, false)
    ensures AllPlaced(fills + [fe], |l.rows|, false)
    ensures Fold(l, false, fills + [fe]).oms == ApplyOms(Fold(l, false, fills).oms, fe)
  {
    hide BookNode, BookFits;
    assert (fills + [fe])[..|fills|] == fills;
  }
}
