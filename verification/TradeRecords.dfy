/** What the running totals of a node mean: each is a count or a sum over the trades in the fill
    history, defined here from the history alone. */
module TradeRecords {
  import opened Decimal
  import opened ExactBooks
  import opened FillBooking
  import opened LedgerTotals

  // ---- the trades of a history ----

  predicate ClosesSlot(fe: FillEvent) {
    fe.isSell && fe.slotFlat
  }

  /** The fills of a slot since it was last closed. */
  function SinceClose(fills: seq<FillEvent>, slot: nat): seq<FillEvent> {
    if fills == [] then []
    else
      var front, last := fills[..|fills| - 1], fills[|fills| - 1];
      if last.slot != slot then SinceClose(front, slot)
      else if ClosesSlot(last) then []
      else SinceClose(front, slot) + [last]
  }

  /** Notional bought less notional sold. */
  function NotionalOf(fills: seq<FillEvent>): int {
    if fills == [] then 0
    else
      var fe := fills[|fills| - 1];
      NotionalOf(fills[..|fills| - 1]) + if fe.isSell then -fe.notional else fe.notional
  }

  function Buys(fills: seq<FillEvent>): nat {
    if fills == [] then 0 else Buys(fills[..|fills| - 1]) + if fills[|fills| - 1].isSell then 0 else 1
  }

  /** The net of each closed slot, in order: everything sold from it since it was last closed. */
  function CloseNets(fills: seq<FillEvent>): seq<int> {
    if fills == [] then []
    else
      var front, last := fills[..|fills| - 1], fills[|fills| - 1];
      CloseNets(front) + if ClosesSlot(last) then [SellNet(SinceClose(front, last.slot)) + last.net] else []
  }

  /** One closed slot is a trade; with partial exits on, two in a row are one. */
  function Trades(nets: seq<int>, partialOn: bool): seq<int> {
    var n := |nets|;
    if !partialOn then nets
    else if n < 2 then []
    else if n % 2 == 1 then Trades(nets[..n - 1], partialOn)
    else Trades(nets[..n - 2], partialOn) + [nets[n - 2] + nets[n - 1]]
  }

  function Gains(trades: seq<int>): nat {
    if trades == [] then 0 else Gains(trades[..|trades| - 1]) + if trades[|trades| - 1] > 0 then 1 else 0
  }

  function GainSum(trades: seq<int>): int {
    if trades == [] then 0
    else GainSum(trades[..|trades| - 1]) + if trades[|trades| - 1] > 0 then trades[|trades| - 1] else 0
  }

  function LossSum(trades: seq<int>): int {
    if trades == [] then 0
    else LossSum(trades[..|trades| - 1]) + if trades[|trades| - 1] > 0 then 0 else -trades[|trades| - 1]
  }

  // ---- the trackers of a slot ----

  lemma TotalsSnoc(fills: seq<FillEvent>, fe: FillEvent)
    ensures NotionalOf(fills + [fe]) == NotionalOf(fills) + if fe.isSell then -fe.notional else fe.notional
    ensures SellNet(fills + [fe]) == SellNet(fills) + if fe.isSell then fe.net else 0
  {
    assert (fills + [fe])[..|fills|] == fills;
  }

  /** A slot's trackers hold what was bought less what was sold, and the net of what was sold, since
      the slot was last closed. */
  lemma {:induction false} TrackersAreSinceClose(partialOn: bool, node: nat, fills: seq<FillEvent>, leg: nat)
    requires AllOwned(fills, node, partialOn) && leg < Legs(partialOn)
    ensures var b, own := ExactFold(partialOn, node, fills), SinceClose(fills, FirstSlot(node, partialOn) + leg);
            b.notional[leg] == NotionalOf(own) && b.pending[leg] == SellNet(own)
  {
    hide ExactBookNode, NotionalOf, SellNet, SinceClose, ClosesSlot, ExactFold;
    NothingTraded();
    if fills == [] {
      NothingTracked(partialOn, node, leg);
      SinceNothing(FirstSlot(node, partialOn) + leg);
    } else {
      var k, slot := |fills| - 1, FirstSlot(node, partialOn) + leg;
      TrackersAreSinceClose(partialOn, node, fills[..k], leg);
      TrackersStep(ExactFold(partialOn, node, fills[..k]), partialOn, fills[k], leg, SinceClose(fills[..k], slot));
      FoldUnfolds(partialOn, node, fills);
      SinceUnfolds(fills, slot);
    }
  }

  lemma SinceNothing(slot: nat)
    ensures SinceClose([], slot) == []
  {
  }

  lemma SinceUnfolds(fills: seq<FillEvent>, slot: nat)
    requires fills != []
    ensures var front, last := fills[..|fills| - 1], fills[|fills| - 1];
            SinceClose(fills, slot) == if last.slot != slot then SinceClose(front, slot)
                                       else if ClosesSlot(last) then [] else SinceClose(front, slot) + [last]
  {
  }

  lemma NothingTracked(partialOn: bool, node: nat, leg: nat)
    requires leg < Legs(partialOn)
    ensures var b := ExactFold(partialOn, node, []); b.notional[leg] == 0 && b.pending[leg] == 0
  {
  }

  lemma NothingTraded()
    ensures NotionalOf([]) == 0 && SellNet([]) == 0
  {
  }

  lemma TrackersStep(b: ExactBook, partialOn: bool, fe: FillEvent, leg: nat, own: seq<FillEvent>)
    requires ExactShaped(b, partialOn) && OwnsSlot(fe.node, fe.slot, partialOn) && leg < Legs(partialOn)
    requires b.notional[leg] == NotionalOf(own) && b.pending[leg] == SellNet(own)
    ensures var r := ExactBookNode(b, partialOn, fe);
            if fe.slot != FirstSlot(fe.node, partialOn) + leg then
              r.notional[leg] == b.notional[leg] && r.pending[leg] == b.pending[leg]
            else if ClosesSlot(fe) then r.notional[leg] == 0 && r.pending[leg] == 0
            else r.notional[leg] == NotionalOf(own + [fe]) && r.pending[leg] == SellNet(own + [fe])
  {
    TotalsSnoc(own, fe);
    hide NotionalOf, SellNet, ExactClassify;
  }

  // ---- the row ----

  /** The row says of this list of trades what it should, with this net waiting for its partner. */
  ghost predicate Records(row: ExactRow, nets: seq<int>, partialOn: bool) {
    var trades := Trades(nets, partialOn);
    && row.wins == Gains(trades) && row.losses == |trades| - Gains(trades)
    && row.grossWins == GainSum(trades) && row.grossLosses == LossSum(trades)
    && (row.partnerPending <==> partialOn && |nets| % 2 == 1)
    && row.partnerPnl == if row.partnerPending then nets[|nets| - 1] else 0
  }

  lemma TradesSnoc(nets: seq<int>, net: int, partialOn: bool)
    ensures Trades(nets + [net], partialOn)
         == if !partialOn then nets + [net]
            else if |nets| % 2 == 0 then Trades(nets, partialOn)
            else Trades(nets, partialOn) + [nets[|nets| - 1] + net]
  {
    var all := nets + [net];
    assert all[..|nets|] == nets;
    if |nets| % 2 == 1 {
      assert all[..|all| - 2] == nets[..|nets| - 1];
      assert Trades(nets, true) == Trades(nets[..|nets| - 1], true);
    }
  }

  lemma GainsSnoc(trades: seq<int>, net: int)
    ensures Gains(trades + [net]) == Gains(trades) + if net > 0 then 1 else 0
    ensures GainSum(trades + [net]) == GainSum(trades) + if net > 0 then net else 0
    ensures LossSum(trades + [net]) == LossSum(trades) + if net > 0 then 0 else -net
  {
    assert (trades + [net])[..|trades|] == trades;
  }

  /** Classifying the net of a close extends the record by it. */
  lemma ClassifyRecords(row: ExactRow, nets: seq<int>, net: int, partialOn: bool)
    requires Records(row, nets, partialOn)
    ensures Records(ExactClassify(row, partialOn, net), nets + [net], partialOn)
  {
    hide Gains, GainSum, LossSum, Trades;
    TradesSnoc(nets, net, partialOn);
    TradesOff(nets);
    var trades := Trades(nets, partialOn);
    if !partialOn {
      GainsSnoc(trades, net);
    } else if |nets| % 2 == 1 {
      GainsSnoc(trades, nets[|nets| - 1] + net);
    }
  }

  lemma TradesOff(nets: seq<int>)
    ensures Trades(nets, false) == nets
  {
  }

  lemma RecordsIgnoreTotals(row: ExactRow, nets: seq<int>, partialOn: bool,
                            realized: int, fees: int, open: int, entries: nat, exits: nat)
    ensures Records(row.(realized := realized, fees := fees, openNotional := open, entries := entries, exits := exits), nets, partialOn)
       <==> Records(row, nets, partialOn)
  {
    hide Gains, GainSum, LossSum, Trades;
  }

  /** For every history: wins and losses count the trades that gained and those that did not, the
      gross totals are their sums, the waiting partner is the odd close, and entries and exits are
      the buys and the sells. */
  lemma {:induction false} RowIsTheRecord(partialOn: bool, node: nat, fills: seq<FillEvent>)
    requires AllOwned(fills, node, partialOn)
    ensures var row := ExactFold(partialOn, node, fills).row;
            Records(row, CloseNets(fills), partialOn) && row.entries == Buys(fills) && row.exits == |fills| - Buys(fills)
  {
    hide Records, ExactBookNode, SinceClose, SellNet;
    if fills == [] {
      NothingRecorded(partialOn);
    } else {
      var k := |fills| - 1;
      var before, fe := ExactFold(partialOn, node, fills[..k]), fills[k];
      RowIsTheRecord(partialOn, node, fills[..k]);
      TrackersAreSinceClose(partialOn, node, fills[..k], LegOf(fe, partialOn));
      RecordStep(before, partialOn, fe, CloseNets(fills[..k]));
      FoldUnfolds(partialOn, node, fills);
      ClosesUnfold(fills);
      hide CloseNets, Buys, ExactFold;
    }
  }

  lemma NothingRecorded(partialOn: bool)
    ensures Records(Exact(ZeroNode(partialOn)).row, [], partialOn)
  {
  }

  lemma FoldUnfolds(partialOn: bool, node: nat, fills: seq<FillEvent>)
    requires AllOwned(fills, node, partialOn) && fills != []
    ensures ExactFold(partialOn, node, fills)
         == ExactBookNode(ExactFold(partialOn, node, fills[..|fills| - 1]), partialOn, fills[|fills| - 1])
  {
    hide ExactBookNode;
  }

  lemma ClosesUnfold(fills: seq<FillEvent>)
    requires fills != []
    ensures var front, fe := fills[..|fills| - 1], fills[|fills| - 1];
            && CloseNets(fills) == CloseNets(front) + (if ClosesSlot(fe) then [SellNet(SinceClose(front, fe.slot)) + fe.net] else [])
            && Buys(fills) == Buys(front) + (if fe.isSell then 0 else 1)
  {
  }

  lemma RecordStep(b: ExactBook, partialOn: bool, fe: FillEvent, nets: seq<int>)
    requires ExactShaped(b, partialOn) && OwnsSlot(fe.node, fe.slot, partialOn) && Records(b.row, nets, partialOn)
    ensures var r := ExactBookNode(b, partialOn, fe).row; var leg := LegOf(fe, partialOn);
            && Records(r, nets + (if ClosesSlot(fe) then [b.pending[leg] + fe.net] else []), partialOn)
            && r.entries == b.row.entries + (if fe.isSell then 0 else 1)
            && r.exits == b.row.exits + (if fe.isSell then 1 else 0)
  {
    hide Records, ExactClassify;
    var leg := LegOf(fe, partialOn);
    if !fe.isSell {
      RecordsIgnoreTotals(b.row, nets, partialOn, b.row.realized, b.row.fees, b.row.openNotional + fe.notional,
                          b.row.entries + 1, b.row.exits);
      assert nets + [] == nets;
    } else {
      var sold := ExactSellLeg(b, leg, fe);
      RecordsIgnoreTotals(b.row, nets, partialOn, sold.row.realized, sold.row.fees, sold.row.openNotional,
                          b.row.entries, b.row.exits + 1);
      if fe.slotFlat {
        ClassifyRecords(sold.row, nets, sold.pending[leg], partialOn);
        ClassifyKeepsCounts(sold.row, partialOn, sold.pending[leg]);
      } else {
        assert nets + [] == nets;
      }
    }
  }

  lemma ClassifyKeepsCounts(row: ExactRow, partialOn: bool, net: int)
    ensures var r := ExactClassify(row, partialOn, net); r.entries == row.entries && r.exits == row.exits
  {
  }

  /** So, inside the money domain, says the row the engine keeps. */
  lemma SavedRowIsTheRecord(partialOn: bool, node: nat, fills: seq<FillEvent>)
    requires AllOwned(fills, node, partialOn) && InDomain(partialOn, node, fills)
    ensures var row := FoldNode(ZeroNode(partialOn), partialOn, node, fills).row;
            && Records(ExactOfRow(row), CloseNets(fills), partialOn)
            && row.realized == SellNet(fills) && row.fees == SellFees(fills)
            && row.entries == Buys(fills) && row.exits == |fills| - Buys(fills)
  {
    hide Records, InDomain, ExactFold, FoldNode, CloseNets;
    InDomainConserves(partialOn, node, fills);
    RowIsTheRecord(partialOn, node, fills);
    IntegerTotalsAreSums(partialOn, node, fills);
  }
}
