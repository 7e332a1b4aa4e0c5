/** What one fill does to the books: the per-node accounting row with its slot trackers, and
    the global ledger.  Value-level specification; `FillLedger` is the class that performs it. */
module FillBooking {
  import opened Decimal

  datatype FillEvent = FillEvent(
    slot: nat, node: nat, isSell: bool, isMaker: bool, slotFlat: bool, seqNo: nat,
    net: Money, fee: Money, notional: Money, entryFeeLeg: Money)

  datatype NodeRow = NodeRow(
    realized: Money, fees: Money, openNotional: Money, grossWins: Money, grossLosses: Money,
    partnerPnl: Money, partnerPending: bool, wins: nat, losses: nat, entries: nat, exits: nat)

  /** One node's books: its row and the two trackers of each slot it owns. */
  datatype NodeBook = NodeBook(row: NodeRow, notional: seq<Money>, pending: seq<Money>)

  datatype Oms = Oms(
    balance: Money, realizedPnl: Money, ksPeak: Money, totalFees: Money, makerFees: Money,
    takerFees: Money, makerFills: nat, takerFills: nat)

  // ---- slot geometry: one slot per node, or two (leg A, leg B) when partial exits are on ----

  function Legs(partialOn: bool): nat {
    if partialOn then 2 else 1
  }

  function FirstSlot(node: nat, partialOn: bool): nat {
    if partialOn then 2 * node else node
  }

  predicate OwnsSlot(node: nat, slot: nat, partialOn: bool) {
    FirstSlot(node, partialOn) <= slot < FirstSlot(node, partialOn) + Legs(partialOn)
  }

  function LegOf(fe: FillEvent, partialOn: bool): nat
    requires OwnsSlot(fe.node, fe.slot, partialOn)
  {
    fe.slot - FirstSlot(fe.node, partialOn)
  }

  // ---- booking one fill into one node ----

  predicate Shaped(b: NodeBook, partialOn: bool) {
    |b.notional| == |b.pending| == Legs(partialOn)
  }

  function Relief(b: NodeBook, leg: nat, fe: FillEvent): Money
    requires leg < |b.notional|
  {
    if fe.slotFlat then b.notional[leg] else fe.notional
  }

  function Settle(row: NodeRow, net: Money): NodeRow {
    if net > 0 then row.(wins := row.wins + 1, grossWins := Add(row.grossWins, net))
    else row.(losses := row.losses + 1, grossLosses := Add(row.grossLosses, -net))
  }

  /** A closed slot is one trade; with partial exits on, two closed slots are one trade. */
  function Classify(row: NodeRow, partialOn: bool, net: Money): NodeRow {
    if !partialOn then Settle(row, net)
    else if row.partnerPending then
      Settle(row, Add(row.partnerPnl, net)).(partnerPnl := 0, partnerPending := false)
    else row.(partnerPnl := net, partnerPending := true)
  }

  /** A sell leg: realized net and fees, the notional relief, the running net of the trade. */
  function SellLeg(b: NodeBook, leg: nat, fe: FillEvent): NodeBook
    requires leg < |b.notional| && leg < |b.pending|
  {
    NodeBook(b.row.(realized := Add(b.row.realized, fe.net),
                    fees := Add(b.row.fees, Add(fe.entryFeeLeg, fe.fee)),
                    openNotional := Sub(b.row.openNotional, Relief(b, leg, fe)),
                    exits := b.row.exits + 1),
             b.notional[leg := Sub(b.notional[leg], Relief(b, leg, fe))],
             b.pending[leg := Add(b.pending[leg], fe.net)])
  }

  /** The slot went flat: its accumulated net is one closed trade. */
  function CloseSlot(b: NodeBook, partialOn: bool, leg: nat): NodeBook
    requires leg < |b.pending|
  {
    NodeBook(Classify(b.row, partialOn, b.pending[leg]), b.notional, b.pending[leg := 0])
  }

  function BookNode(b: NodeBook, partialOn: bool, fe: FillEvent): (r: NodeBook)
    requires Shaped(b, partialOn) && OwnsSlot(fe.node, fe.slot, partialOn)
    ensures Shaped(r, partialOn)
  {
    var leg := LegOf(fe, partialOn);
    if !fe.isSell then
      NodeBook(b.row.(openNotional := Add(b.row.openNotional, fe.notional), entries := b.row.entries + 1),
               b.notional[leg := Add(b.notional[leg], fe.notional)],
               b.pending)
    else
      var sold := SellLeg(b, leg, fe);
      if fe.slotFlat then CloseSlot(sold, partialOn, leg) else sold
  }

  // ---- when no sum of a booking step saturates ----

  predicate SettleFits(row: NodeRow, net: Money) {
    if net > 0 then Fits(row.grossWins + net) else Fits(row.grossLosses - net)
  }

  predicate ClassifyFits(row: NodeRow, partialOn: bool, net: Money) {
    if !partialOn then SettleFits(row, net)
    else row.partnerPending ==> Fits(row.partnerPnl + net) && SettleFits(row, Add(row.partnerPnl, net))
  }

  predicate SellLegFits(b: NodeBook, leg: nat, fe: FillEvent)
    requires leg < |b.notional| && leg < |b.pending|
  {
    && Fits(b.row.realized + fe.net)
    && Fits(fe.entryFeeLeg + fe.fee)
    && Fits(b.row.fees + Add(fe.entryFeeLeg, fe.fee))
    && Fits(b.row.openNotional - Relief(b, leg, fe))
    && Fits(b.notional[leg] - Relief(b, leg, fe))
    && Fits(b.pending[leg] + fe.net)
  }

  predicate BookFits(b: NodeBook, partialOn: bool, fe: FillEvent)
    requires Shaped(b, partialOn) && OwnsSlot(fe.node, fe.slot, partialOn)
  {
    var leg := LegOf(fe, partialOn);
    if !fe.isSell then
      Fits(b.notional[leg] + fe.notional) && Fits(b.row.openNotional + fe.notional)
    else
      && SellLegFits(b, leg, fe)
      && (fe.slotFlat ==> ClassifyFits(b.row, partialOn, Add(b.pending[leg], fe.net)))
  }

  // ---- booking one fill into the global ledger ----

  function ApplyOms(o: Oms, fe: FillEvent): Oms {
    var balance := Add(o.balance, fe.net);
    Oms(balance, Add(o.realizedPnl, fe.net), Max(o.ksPeak, balance), Add(o.totalFees, fe.fee),
        if fe.isMaker then Add(o.makerFees, fe.fee) else o.makerFees,
        if fe.isMaker then o.takerFees else Add(o.takerFees, fe.fee),
        o.makerFills + (if fe.isMaker then 1 else 0),
        o.takerFills + (if fe.isMaker then 0 else 1))
  }

  predicate OmsFits(o: Oms, fe: FillEvent) {
    && Fits(o.balance + fe.net) && Fits(o.realizedPnl + fe.net) && Fits(o.totalFees + fe.fee)
    && Fits((if fe.isMaker then o.makerFees else o.takerFees) + fe.fee)
  }

  // ---- the whole ledger: flat arrays of rows and slots, as the engine stores them ----

  /** The engine-wide counters. */
  datatype EngineCounts = EngineCounts(entries: nat, exits: nat, events: nat)

  function Count(e: EngineCounts, fe: FillEvent): EngineCounts {
    EngineCounts(e.entries + (if fe.isSell then 0 else 1), e.exits + (if fe.isSell then 1 else 0), e.events + 1)
  }

  /** The books, and the overflow bit of the thread that keeps them: a booking raises it when one
      of its sums saturates and never lowers it; `MoneyFlag` has the cycle tail that does. */
  datatype Ledger = Ledger(
    rows: seq<NodeRow>, slotNotional: seq<Money>, pendingNet: seq<Money>, oms: Oms, engine: EngineCounts, overflow: bool)

  /** Every node's slots exist; the boot check on partial exits refuses anything else. */
  predicate Sized(l: Ledger, partialOn: bool) {
    |l.slotNotional| == |l.pendingNet| && FirstSlot(|l.rows|, partialOn) <= |l.slotNotional|
  }

  predicate Placed(fe: FillEvent, nodes: nat, partialOn: bool) {
    fe.node < nodes && OwnsSlot(fe.node, fe.slot, partialOn)
  }

  function NodeOf(l: Ledger, n: nat, partialOn: bool): (b: NodeBook)
    requires Sized(l, partialOn) && n < |l.rows|
    ensures Shaped(b, partialOn)
  {
    var lo, hi := FirstSlot(n, partialOn), FirstSlot(n, partialOn) + Legs(partialOn);
    NodeBook(l.rows[n], l.slotNotional[lo..hi], l.pendingNet[lo..hi])
  }

  function Book(l: Ledger, partialOn: bool, fe: FillEvent): (r: Ledger)
    requires Sized(l, partialOn) && Placed(fe, |l.rows|, partialOn)
    ensures Sized(r, partialOn) && |r.rows| == |l.rows|
  {
    var before := NodeOf(l, fe.node, partialOn);
    var after := BookNode(before, partialOn, fe);
    var leg := LegOf(fe, partialOn);
    Ledger(l.rows[fe.node := after.row],
           l.slotNotional[fe.slot := after.notional[leg]],
           l.pendingNet[fe.slot := after.pending[leg]],
           ApplyOms(l.oms, fe), Count(l.engine, fe),
           l.overflow || !BookFits(before, partialOn, fe) || !OmsFits(l.oms, fe))
  }

  // ---- folds over fill histories ----

  predicate AllPlaced(fills: seq<FillEvent>, nodes: nat, partialOn: bool) {
    forall i :: 0 <= i < |fills| ==> Placed(fills[i], nodes, partialOn)
  }

  predicate AllOwned(fills: seq<FillEvent>, node: nat, partialOn: bool) {
    forall i :: 0 <= i < |fills| ==> fills[i].node == node && OwnsSlot(node, fills[i].slot, partialOn)
  }

  function Fold(l: Ledger, partialOn: bool, fills: seq<FillEvent>): (r: Ledger)
    requires Sized(l, partialOn) && AllPlaced(fills, |l.rows|, partialOn)
    ensures Sized(r, partialOn) && |r.rows| == |l.rows|
  {
    if fills == [] then l
    else
      var k := |fills| - 1;
      Book(Fold(l, partialOn, fills[..k]), partialOn, fills[k])
  }

  function FoldNode(b: NodeBook, partialOn: bool, node: nat, fills: seq<FillEvent>): (r: NodeBook)
    requires Shaped(b, partialOn) && AllOwned(fills, node, partialOn)
    ensures Shaped(r, partialOn)
  {
    if fills == [] then b
    else
      var k := |fills| - 1;
      BookNode(FoldNode(b, partialOn, node, fills[..k]), partialOn, fills[k])
  }

  function OwnFills(fills: seq<FillEvent>, n: nat): (r: seq<FillEvent>)
    ensures forall i :: 0 <= i < |r| ==> r[i].node == n && r[i] in fills
  {
    if fills == [] then []
    else
      var k := |fills| - 1;
      var own := OwnFills(fills[..k], n);
      if fills[k].node == n then own + [fills[k]] else own
  }

  lemma OwnFillsSnoc(fills: seq<FillEvent>, fe: FillEvent, n: nat)
    ensures OwnFills(fills + [fe], n) == if fe.node == n then OwnFills(fills, n) + [fe] else OwnFills(fills, n)
  {
    assert (fills + [fe])[..|fills|] == fills;
  }

  lemma OwnFillsOwned(fills: seq<FillEvent>, n: nat, nodes: nat, partialOn: bool)
    requires AllPlaced(fills, nodes, partialOn)
    ensures AllOwned(OwnFills(fills, n), n, partialOn)
  {
  }

  lemma FoldSnoc(b: NodeBook, partialOn: bool, node: nat, fills: seq<FillEvent>, fe: FillEvent)
    requires Shaped(b, partialOn) && AllOwned(fills, node, partialOn)
    requires fe.node == node && OwnsSlot(node, fe.slot, partialOn)
    ensures AllOwned(fills + [fe], node, partialOn)
    ensures FoldNode(b, partialOn, node, fills + [fe])
         == BookNode(FoldNode(b, partialOn, node, fills), partialOn, fe)
  {
    hide BookNode;
    assert (fills + [fe])[..|fills|] == fills;
  }

  // ---- node independence ----

  lemma BookTouchesOneNode(l: Ledger, partialOn: bool, fe: FillEvent, n: nat)
    requires Sized(l, partialOn) && Placed(fe, |l.rows|, partialOn) && n < |l.rows|
    ensures NodeOf(Book(l, partialOn, fe), n, partialOn)
         == if fe.node == n then BookNode(NodeOf(l, n, partialOn), partialOn, fe) else NodeOf(l, n, partialOn)
  {
    var before, after := NodeOf(l, n, partialOn), NodeOf(Book(l, partialOn, fe), n, partialOn);
    if fe.node == n {
      var booked := BookNode(before, partialOn, fe);
      assert after.notional == booked.notional;
      assert after.pending == booked.pending;
    } else {
      assert after.notional == before.notional;
      assert after.pending == before.pending;
    }
  }

  /** A node's books are a function of its own fills alone, whatever the other nodes did and
      however the fills interleaved. */
  lemma {:induction false} NodeIndependence(l: Ledger, partialOn: bool, fills: seq<FillEvent>, n: nat)
    requires Sized(l, partialOn) && AllPlaced(fills, |l.rows|, partialOn) && n < |l.rows|
    ensures AllOwned(OwnFills(fills, n), n, partialOn)
    ensures NodeOf(Fold(l, partialOn, fills), n, partialOn)
         == FoldNode(NodeOf(l, n, partialOn), partialOn, n, OwnFills(fills, n))
  {
    hide BookNode, NodeOf, Book;
    OwnFillsOwned(fills, n, |l.rows|, partialOn);
    if fills != [] {
      var k := |fills| - 1;
      NodeIndependence(l, partialOn, fills[..k], n);
      BookTouchesOneNode(Fold(l, partialOn, fills[..k]), partialOn, fills[k], n);
      if fills[k].node == n {
        FoldSnoc(NodeOf(l, n, partialOn), partialOn, n, OwnFills(fills[..k], n), fills[k]);
      }
    }
  }

  // ---- conservation ----

  function Sum(s: seq<Money>): int {
    if s == [] then 0 else s[0] + Sum(s[1..])
  }

  lemma SumUpdate(s: seq<Money>, i: nat, v: Money)
    requires i < |s|
    ensures Sum(s[i := v]) == Sum(s) - s[i] + v
  {
    if i == 0 {
      assert s[i := v][1..] == s[1..];
    } else {
      SumUpdate(s[1..], i - 1, v);
      assert s[i := v][1..] == s[1..][i - 1 := v];
    }
  }

  /** Realized profit is fully accounted for by settled trades, the waiting partner leg and the
      still-open trades; open notional is exactly what the slot trackers hold. */
  ghost predicate Conserved(b: NodeBook) {
    && b.row.realized == b.row.grossWins - b.row.grossLosses + b.row.partnerPnl + Sum(b.pending)
    && b.row.openNotional == Sum(b.notional)
    && (!b.row.partnerPending ==> b.row.partnerPnl == 0)
    && b.row.grossWins >= 0 && b.row.grossLosses >= 0
  }

  lemma ZeroNodeConserved(partialOn: bool)
    ensures Conserved(ZeroNode(partialOn)) && Covered(ZeroNode(partialOn), 0)
  {
    AllZeroSum(ZeroNode(partialOn).notional);
  }

  /** Potential of a row: everything its closed trades have moved. */
  function Settled(row: NodeRow): int {
    row.grossWins + row.grossLosses + Abs(row.partnerPnl)
  }

  predicate Signs(row: NodeRow) {
    row.grossWins >= 0 && row.grossLosses >= 0 && (!row.partnerPending ==> row.partnerPnl == 0)
  }

  lemma ClassifyExact(row: NodeRow, partialOn: bool, net: Money)
    requires Signs(row) && ClassifyFits(row, partialOn, net)
    ensures var r := Classify(row, partialOn, net);
            && Signs(r) && r.realized == row.realized && r.openNotional == row.openNotional && r.fees == row.fees
            && r.grossWins - r.grossLosses + r.partnerPnl
               == row.grossWins - row.grossLosses + row.partnerPnl + net
            && Settled(r) <= Settled(row) + Abs(net)
  {
  }

  /** Classification neither reads nor writes the running totals. */
  lemma ClassifyFrame(row: NodeRow, partialOn: bool, net: Money,
                      realized: Money, fees: Money, open: Money, exits: nat)
    ensures Classify(row.(realized := realized, fees := fees, openNotional := open, exits := exits), partialOn, net)
         == Classify(row, partialOn, net).(realized := realized, fees := fees, openNotional := open, exits := exits)
  {
  }

  lemma BookConserves(b: NodeBook, partialOn: bool, fe: FillEvent)
    requires Shaped(b, partialOn) && OwnsSlot(fe.node, fe.slot, partialOn)
    requires Conserved(b) && BookFits(b, partialOn, fe)
    ensures Conserved(BookNode(b, partialOn, fe))
  {
    hide Sum, AbsSum, Classify, ClassifyFits;
    TrackersMove(b, partialOn, fe);
    if fe.isSell && fe.slotFlat {
      var leg := LegOf(fe, partialOn);
      ClassifyExact(b.row, partialOn, Add(b.pending[leg], fe.net));
      ClassifyFrame(b.row, partialOn, Add(b.pending[leg], fe.net),
                    Add(b.row.realized, fe.net), Add(b.row.fees, Add(fe.entryFeeLeg, fe.fee)),
                    Sub(b.row.openNotional, b.notional[leg]), b.row.exits + 1);
    }
  }

  /** How a booking moves the sums of the two trackers. */
  lemma TrackersMove(b: NodeBook, partialOn: bool, fe: FillEvent)
    requires Shaped(b, partialOn) && OwnsSlot(fe.node, fe.slot, partialOn)
    ensures var leg := LegOf(fe, partialOn); var r := BookNode(b, partialOn, fe);
            && Sum(r.notional) == Sum(b.notional) - b.notional[leg] + r.notional[leg]
            && Sum(r.pending) == Sum(b.pending) - b.pending[leg] + r.pending[leg]
            && AbsSum(r.notional) == AbsSum(b.notional) - Abs(b.notional[leg]) + Abs(r.notional[leg])
            && AbsSum(r.pending) == AbsSum(b.pending) - Abs(b.pending[leg]) + Abs(r.pending[leg])
            && Abs(b.notional[leg]) <= AbsSum(b.notional) && Abs(b.pending[leg]) <= AbsSum(b.pending)
  {
    var leg, r := LegOf(fe, partialOn), BookNode(b, partialOn, fe);
    assert r.pending == b.pending[leg := r.pending[leg]];
    assert r.notional == b.notional[leg := r.notional[leg]];
    SumUpdate(b.notional, leg, r.notional[leg]);
    SumUpdate(b.pending, leg, r.pending[leg]);
    AbsSumUpdate(b.notional, leg, r.notional[leg]);
    AbsSumUpdate(b.pending, leg, r.pending[leg]);
  }

  /** The closing leg relieves the tracked remainder, so no rounding of the partial legs can
      leave a residue: both trackers are exactly zero. */
  lemma FlatSellClearsSlot(b: NodeBook, partialOn: bool, fe: FillEvent)
    requires Shaped(b, partialOn) && OwnsSlot(fe.node, fe.slot, partialOn)
    requires fe.isSell && fe.slotFlat
    ensures var r := BookNode(b, partialOn, fe); var leg := LegOf(fe, partialOn);
            r.notional[leg] == 0 && r.pending[leg] == 0
  {
  }

  ghost predicate RunFits(b: NodeBook, partialOn: bool, node: nat, fills: seq<FillEvent>)
    requires Shaped(b, partialOn) && AllOwned(fills, node, partialOn)
  {
    fills != [] ==>
      var k := |fills| - 1;
      RunFits(b, partialOn, node, fills[..k]) && BookFits(FoldNode(b, partialOn, node, fills[..k]), partialOn, fills[k])
  }

  const ZERO_ROW := NodeRow(0, 0, 0, 0, 0, 0, false, 0, 0, 0, 0)

  function ZeroLedger(nodes: nat, slots: nat, oms: Oms): Ledger {
    Ledger(seq(nodes, _ => ZERO_ROW), seq(slots, _ => 0), seq(slots, _ => 0), oms, EngineCounts(0, 0, 0), false)
  }

  lemma ZeroLedgerNodes(nodes: nat, slots: nat, oms: Oms, partialOn: bool, n: nat)
    requires FirstSlot(nodes, partialOn) <= slots && n < nodes
    ensures NodeOf(ZeroLedger(nodes, slots, oms), n, partialOn) == ZeroNode(partialOn)
  {
    var b := NodeOf(ZeroLedger(nodes, slots, oms), n, partialOn);
    assert b.notional == ZeroNode(partialOn).notional;
    assert b.pending == ZeroNode(partialOn).pending;
  }

  function ZeroNode(partialOn: bool): (b: NodeBook)
    ensures Shaped(b, partialOn)
  {
    var z: seq<Money> := if partialOn then [0, 0] else [0];
    NodeBook(ZERO_ROW, z, z)
  }

  /** Number of fills that closed a slot. */
  function Closes(fills: seq<FillEvent>): nat {
    if fills == [] then 0
    else
      var k := |fills| - 1;
      Closes(fills[..k]) + (if fills[k].isSell && fills[k].slotFlat then 1 else 0)
  }

  /** The last fill of this leg, if any, closed its slot. */
  ghost predicate LegClosed(fills: seq<FillEvent>, node: nat, partialOn: bool, leg: nat) {
    fills == [] ||
    var k := |fills| - 1;
    if fills[k].slot == FirstSlot(node, partialOn) + leg then fills[k].isSell && fills[k].slotFlat
    else LegClosed(fills[..k], node, partialOn, leg)
  }

  /** Each trade is classified once: every closed slot is a win or a loss, or with partial exits
      every second one, the odd one being the waiting partner. */
  ghost predicate TradesCounted(row: NodeRow, partialOn: bool, closes: nat) {
    if partialOn then 2 * (row.wins + row.losses) + (if row.partnerPending then 1 else 0) == closes
    else row.wins + row.losses == closes && !row.partnerPending
  }

  lemma {:induction false} NodeRunConserves(partialOn: bool, node: nat, fills: seq<FillEvent>)
    requires AllOwned(fills, node, partialOn)
    requires RunFits(ZeroNode(partialOn), partialOn, node, fills)
    ensures Conserved(FoldNode(ZeroNode(partialOn), partialOn, node, fills))
  {
    if fills == [] {
      ZeroNodeConserved(partialOn);
    } else {
      var k := |fills| - 1;
      NodeRunConserves(partialOn, node, fills[..k]);
      BookConserves(FoldNode(ZeroNode(partialOn), partialOn, node, fills[..k]), partialOn, fills[k]);
    }
  }

  ghost predicate Counted(row: NodeRow, partialOn: bool, fills: seq<FillEvent>) {
    TradesCounted(row, partialOn, Closes(fills)) && row.entries + row.exits == |fills|
  }

  lemma CountsStep(b: NodeBook, partialOn: bool, fills: seq<FillEvent>)
    requires fills != [] && var fe := fills[|fills| - 1]; Shaped(b, partialOn) && OwnsSlot(fe.node, fe.slot, partialOn)
    requires Counted(b.row, partialOn, fills[..|fills| - 1])
    ensures Counted(BookNode(b, partialOn, fills[|fills| - 1]).row, partialOn, fills)
  {
    hide Add, Sub;
  }

  lemma {:induction false} NodeRunCounts(partialOn: bool, node: nat, fills: seq<FillEvent>)
    requires AllOwned(fills, node, partialOn)
    ensures Counted(FoldNode(ZeroNode(partialOn), partialOn, node, fills).row, partialOn, fills)
  {
    hide BookNode, Counted, ZeroNode;
    if fills == [] {
      NothingCounted(partialOn);
    } else {
      var k := |fills| - 1;
      NodeRunCounts(partialOn, node, fills[..k]);
      CountsStep(FoldNode(ZeroNode(partialOn), partialOn, node, fills[..k]), partialOn, fills);
    }
  }

  lemma NothingCounted(partialOn: bool)
    ensures Counted(ZeroNode(partialOn).row, partialOn, [])
  {
  }

  lemma {:induction false} ClosedSlotIsZero(partialOn: bool, node: nat, fills: seq<FillEvent>, leg: nat)
    requires AllOwned(fills, node, partialOn) && leg < Legs(partialOn)
    requires LegClosed(fills, node, partialOn, leg)
    ensures var b := FoldNode(ZeroNode(partialOn), partialOn, node, fills);
            b.notional[leg] == 0 && b.pending[leg] == 0
  {
    if fills != [] {
      var k := |fills| - 1;
      var b := FoldNode(ZeroNode(partialOn), partialOn, node, fills[..k]);
      if fills[k].slot == FirstSlot(node, partialOn) + leg {
        FlatSellClearsSlot(b, partialOn, fills[k]);
      } else {
        ClosedSlotIsZero(partialOn, node, fills[..k], leg);
      }
    }
  }

  lemma AllZeroSum(s: seq<Money>)
    requires forall i :: 0 <= i < |s| ==> s[i] == 0
    ensures Sum(s) == 0 && AbsSum(s) == 0
  {
  }

  /** A node with every slot closed carries no open notional and no pending net. */
  lemma AllClosedMeansNothingOpen(partialOn: bool, node: nat, fills: seq<FillEvent>)
    requires AllOwned(fills, node, partialOn)
    requires RunFits(ZeroNode(partialOn), partialOn, node, fills)
    requires forall leg :: 0 <= leg < Legs(partialOn) ==> LegClosed(fills, node, partialOn, leg)
    ensures var row := FoldNode(ZeroNode(partialOn), partialOn, node, fills).row;
            row.openNotional == 0 && row.realized == row.grossWins - row.grossLosses + row.partnerPnl
  {
    var b := FoldNode(ZeroNode(partialOn), partialOn, node, fills);
    NodeRunConserves(partialOn, node, fills);
    forall leg | 0 <= leg < Legs(partialOn)
      ensures b.notional[leg] == 0 && b.pending[leg] == 0
    {
      ClosedSlotIsZero(partialOn, node, fills, leg);
    }
    AllZeroSum(b.notional);
    AllZeroSum(b.pending);
  }

  // ---- when a booking can saturate at all ----

  function Flow(fe: FillEvent): nat {
    Abs(fe.net) + Abs(fe.notional) + Abs(fe.fee) + Abs(fe.entryFeeLeg)
  }

  function TotalFlow(fills: seq<FillEvent>): nat {
    if fills == [] then 0
    else TotalFlow(fills[..|fills| - 1]) + Flow(fills[|fills| - 1])
  }

  function AbsSum(s: seq<Money>): nat {
    if s == [] then 0 else Abs(s[0]) + AbsSum(s[1..])
  }

  lemma AbsSumUpdate(s: seq<Money>, i: nat, v: Money)
    requires i < |s|
    ensures AbsSum(s[i := v]) == AbsSum(s) - Abs(s[i]) + Abs(v)
    ensures Abs(s[i]) <= AbsSum(s)
  {
    if i == 0 {
      assert s[i := v][1..] == s[1..];
    } else {
      AbsSumUpdate(s[1..], i - 1, v);
      assert s[i := v][1..] == s[1..][i - 1 := v];
    }
  }

  lemma AbsBounds(w: int, x: int, y: int, z: int)
    ensures w <= Abs(w) && 0 <= w + Abs(w) && x <= Abs(x) && 0 <= x + Abs(x)
    ensures w == 0 ==> Abs(w) == 0
    ensures y <= Abs(y) && 0 <= y + Abs(y) && z <= Abs(z) && 0 <= z + Abs(z)
  {
  }

  lemma SumWithinAbsSum(s: seq<Money>)
    ensures Sum(s) <= AbsSum(s) && 0 <= Sum(s) + AbsSum(s)
  {
  }

  /** Every accumulator is covered by the total flow booked so far. */
  ghost predicate Covered(b: NodeBook, flow: nat) {
    && Abs(b.row.realized) <= flow && Abs(b.row.fees) <= flow
    && AbsSum(b.notional) <= flow
    && b.row.grossWins + b.row.grossLosses + Abs(b.row.partnerPnl) + AbsSum(b.pending) <= flow
  }

  lemma CoveredFits(b: NodeBook, partialOn: bool, fe: FillEvent, flow: nat)
    requires Shaped(b, partialOn) && OwnsSlot(fe.node, fe.slot, partialOn)
    requires Conserved(b) && Covered(b, flow) && flow + Flow(fe) <= MONEY_MAX
    ensures BookFits(b, partialOn, fe)
  {
    hide Sum, AbsSum, Classify, ClassifyFits, BookNode, Add, Abs;
    var leg := LegOf(fe, partialOn);
    AbsBounds(b.row.realized, b.row.fees, b.notional[leg], b.pending[leg]);
    AbsBounds(fe.net, fe.notional, fe.fee, fe.entryFeeLeg);
    AbsSumUpdate(b.notional, leg, 0);
    AbsSumUpdate(b.pending, leg, 0);
    SumWithinAbsSum(b.notional);
    if fe.isSell {
      AddExact(fe.entryFeeLeg, fe.fee);
      AddExact(b.pending[leg], fe.net);
      if fe.slotFlat {
        ClassifyRoom(b.row, partialOn, b.pending[leg] + fe.net, Abs(b.pending[leg]) + Abs(fe.net));
        OthersCovered(b.notional, leg);
      }
    }
  }

  lemma AddExact(a: Money, b: Money)
    requires Abs(a) + Abs(b) <= MONEY_MAX
    ensures Fits(a + b) && Add(a, b) == a + b
  {
  }

  lemma ClassifyRoom(row: NodeRow, partialOn: bool, net: Money, room: nat)
    requires Signs(row) && Settled(row) + room <= MONEY_MAX && net <= room && 0 <= net + room
    ensures ClassifyFits(row, partialOn, net)
  {
  }

  /** Relieving one tracker leaves a sum the other trackers still cover. */
  lemma OthersCovered(s: seq<Money>, i: nat)
    requires i < |s|
    ensures Sum(s) - s[i] <= AbsSum(s) && 0 <= Sum(s) - s[i] + AbsSum(s)
  {
    SumUpdate(s, i, 0);
    AbsSumUpdate(s, i, 0);
    SumWithinAbsSum(s[i := 0]);
  }

  lemma CoveredStep(b: NodeBook, partialOn: bool, fe: FillEvent, flow: nat)
    requires Shaped(b, partialOn) && OwnsSlot(fe.node, fe.slot, partialOn)
    requires Conserved(b) && Covered(b, flow) && flow + Flow(fe) <= MONEY_MAX
    ensures Covered(BookNode(b, partialOn, fe), flow + Flow(fe))
  {
    if !fe.isSell {
      CoveredBuy(b, partialOn, fe, flow);
    } else if fe.slotFlat {
      CoveredClose(b, partialOn, fe, flow);
    } else {
      CoveredLeg(b, partialOn, fe, flow);
    }
  }

  lemma CoveredBuy(b: NodeBook, partialOn: bool, fe: FillEvent, flow: nat)
    requires Shaped(b, partialOn) && OwnsSlot(fe.node, fe.slot, partialOn) && !fe.isSell
    requires Covered(b, flow) && flow + Flow(fe) <= MONEY_MAX
    ensures Covered(BookNode(b, partialOn, fe), flow + Flow(fe))
  {
    hide AbsSum, Sum, Add, Sub, Abs, Classify;
    var leg := LegOf(fe, partialOn);
    TrackersMove(b, partialOn, fe);
    AbsBounds(fe.net, fe.notional, fe.fee, fe.entryFeeLeg);
    AbsTriangle(b.notional[leg], fe.notional);
  }

  lemma CoveredLeg(b: NodeBook, partialOn: bool, fe: FillEvent, flow: nat)
    requires Shaped(b, partialOn) && OwnsSlot(fe.node, fe.slot, partialOn) && fe.isSell && !fe.slotFlat
    requires Conserved(b) && Covered(b, flow) && flow + Flow(fe) <= MONEY_MAX
    ensures Covered(BookNode(b, partialOn, fe), flow + Flow(fe))
  {
    hide AbsSum, Sum, Add, Sub, Abs, Classify;
    var leg := LegOf(fe, partialOn);
    TrackersMove(b, partialOn, fe);
    AbsBounds(fe.net, fe.notional, fe.fee, fe.entryFeeLeg);
    AbsTriangle(b.row.realized, fe.net);
    AbsDifference(b.notional[leg], fe.notional);
    AbsTriangle(b.pending[leg], fe.net);
    AbsTriangle(fe.entryFeeLeg, fe.fee);
    AbsTriangle(b.row.fees, fe.entryFeeLeg + fe.fee);
  }

  lemma CoveredClose(b: NodeBook, partialOn: bool, fe: FillEvent, flow: nat)
    requires Shaped(b, partialOn) && OwnsSlot(fe.node, fe.slot, partialOn) && fe.isSell && fe.slotFlat
    requires Conserved(b) && Covered(b, flow) && flow + Flow(fe) <= MONEY_MAX
    ensures Covered(BookNode(b, partialOn, fe), flow + Flow(fe))
  {
    hide AbsSum, Sum, Classify, ClassifyFits, Add, Sub, Abs;
    var leg := LegOf(fe, partialOn);
    var net := b.pending[leg] + fe.net;
    TrackersMove(b, partialOn, fe);
    FlatSellClearsSlot(b, partialOn, fe);
    AbsBounds(0, b.pending[leg], fe.net, 0);
    AbsBounds(fe.notional, b.notional[leg], fe.fee, fe.entryFeeLeg);
    AbsTriangle(b.row.realized, fe.net);
    AbsTriangle(b.pending[leg], fe.net);
    AbsTriangle(fe.entryFeeLeg, fe.fee);
    AbsTriangle(b.row.fees, fe.entryFeeLeg + fe.fee);
    ClassifyRoom(b.row, partialOn, net, Abs(b.pending[leg]) + Abs(fe.net));
    ClassifyExact(b.row, partialOn, net);
    ClassifyFrame(b.row, partialOn, net,
                  Add(b.row.realized, fe.net), Add(b.row.fees, Add(fe.entryFeeLeg, fe.fee)),
                  Sub(b.row.openNotional, b.notional[leg]), b.row.exits + 1);
  }

  lemma AbsDifference(a: Money, b: Money)
    requires Abs(a) + Abs(b) <= MONEY_MAX
    ensures Sub(a, b) == a - b && Abs(a - b) <= Abs(a) + Abs(b)
  {
  }

  lemma AbsTriangle(a: Money, b: Money)
    requires Abs(a) + Abs(b) <= MONEY_MAX
    ensures Fits(a + b) && Add(a, b) == a + b && Abs(a + b) <= Abs(a) + Abs(b)
  {
  }

  /** A condition a caller can check on the fills alone: while the absolute money flow of a node
      stays inside the money domain nothing saturates, and its books are conserved. */
  lemma {:induction false} BoundedFlowConserves(partialOn: bool, node: nat, fills: seq<FillEvent>)
    requires AllOwned(fills, node, partialOn) && TotalFlow(fills) <= MONEY_MAX
    ensures RunFits(ZeroNode(partialOn), partialOn, node, fills)
    ensures Conserved(FoldNode(ZeroNode(partialOn), partialOn, node, fills))
    ensures Covered(FoldNode(ZeroNode(partialOn), partialOn, node, fills), TotalFlow(fills))
  {
    if fills == [] {
      ZeroNodeConserved(partialOn);
    } else {
      var k := |fills| - 1;
      hide BookNode, Conserved, Covered, BookFits;
      BoundedFlowConserves(partialOn, node, fills[..k]);
      var b := FoldNode(ZeroNode(partialOn), partialOn, node, fills[..k]);
      CoveredFits(b, partialOn, fills[k], TotalFlow(fills[..k]));
      CoveredStep(b, partialOn, fills[k], TotalFlow(fills[..k]));
      BookConserves(b, partialOn, fills[k]);
    }
  }

  /** Outside the domain conservation really fails: a maximal profit followed by one more unit
      saturates the realized total while the pair of trades is settled in full. */
  lemma SaturationLosesProfit() returns (fills: seq<FillEvent>)
    ensures AllOwned(fills, 0, false) && !Conserved(FoldNode(ZeroNode(false), false, 0, fills))
  {
    hide SingleSlotRun;
    EmptyRun();
    var one := SingleClose([], ZERO_ROW, MONEY_MAX);
    var two := SingleClose(one.0, one.1, -10);
    var three := SingleClose(two.0, two.1, 20);
    fills := three.0;
    RunNotConserved(fills, three.1);
  }

  /** A run of whole trades on one slot has led to this row, with nothing left open. */
  ghost predicate SingleSlotRun(fills: seq<FillEvent>, row: NodeRow) {
    && AllOwned(fills, 0, false) && row.fees == row.openNotional == 0
    && FoldNode(ZeroNode(false), false, 0, fills) == NodeBook(row, [0], [0])
  }

  lemma EmptyRun()
    ensures SingleSlotRun([], ZERO_ROW)
  {
  }

  lemma SingleClose(fills: seq<FillEvent>, row: NodeRow, net: Money) returns (r: (seq<FillEvent>, NodeRow))
    requires SingleSlotRun(fills, row)
    ensures SingleSlotRun(r.0, r.1)
    ensures r.1.realized == Add(row.realized, net) && r.1.partnerPnl == row.partnerPnl
    ensures r.1.grossWins == (if net > 0 then Add(row.grossWins, net) else row.grossWins)
    ensures r.1.grossLosses == (if net > 0 then row.grossLosses else Add(row.grossLosses, -net))
  {
    var fe := FillEvent(0, 0, true, false, true, 0, net, 0, 0, 0);
    r := (fills + [fe], Settle(row.(realized := Add(row.realized, net), exits := row.exits + 1), net));
    FoldSnoc(ZeroNode(false), false, 0, fills, fe);
  }

  lemma RunNotConserved(fills: seq<FillEvent>, row: NodeRow)
    requires SingleSlotRun(fills, row)
    requires row.realized != row.grossWins - row.grossLosses + row.partnerPnl
    ensures AllOwned(fills, 0, false) && !Conserved(FoldNode(ZeroNode(false), false, 0, fills))
  {
    AllZeroSum([0]);
  }
}
