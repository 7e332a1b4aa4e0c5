/** The booking rules over unbounded integers, and exactly when the saturating books agree with
    them.  Every condition here is a statement about the fills alone. */
module ExactBooks {
  import opened Decimal
  import opened FillBooking
  import opened LedgerTotals

  datatype ExactRow = ExactRow(
    realized: int, fees: int, openNotional: int, grossWins: int, grossLosses: int,
    partnerPnl: int, partnerPending: bool, wins: nat, losses: nat, entries: nat, exits: nat)

  datatype ExactBook = ExactBook(row: ExactRow, notional: seq<int>, pending: seq<int>)

  function ExactOfRow(r: NodeRow): ExactRow {
    ExactRow(r.realized, r.fees, r.openNotional, r.grossWins, r.grossLosses, r.partnerPnl, r.partnerPending,
             r.wins, r.losses, r.entries, r.exits)
  }

  /** The books as integers. */
  function Exact(b: NodeBook): ExactBook {
    ExactBook(ExactOfRow(b.row), b.notional, b.pending)
  }

  predicate ExactShaped(b: ExactBook, partialOn: bool) {
    |b.notional| == |b.pending| == Legs(partialOn)
  }

  // ---- one fill, without a domain ----

  function ExactSettle(row: ExactRow, net: int): ExactRow {
    if net > 0 then row.(wins := row.wins + 1, grossWins := row.grossWins + net)
    else row.(losses := row.losses + 1, grossLosses := row.grossLosses - net)
  }

  function ExactClassify(row: ExactRow, partialOn: bool, net: int): ExactRow {
    if !partialOn then ExactSettle(row, net)
    else if row.partnerPending then
      ExactSettle(row, row.partnerPnl + net).(partnerPnl := 0, partnerPending := false)
    else row.(partnerPnl := net, partnerPending := true)
  }

  function ExactRelief(b: ExactBook, leg: nat, fe: FillEvent): int
    requires leg < |b.notional|
  {
    if fe.slotFlat then b.notional[leg] else fe.notional
  }

  function ExactSellLeg(b: ExactBook, leg: nat, fe: FillEvent): ExactBook
    requires leg < |b.notional| && leg < |b.pending|
  {
    ExactBook(b.row.(realized := b.row.realized + fe.net,
                     fees := b.row.fees + fe.entryFeeLeg + fe.fee,
                     openNotional := b.row.openNotional - ExactRelief(b, leg, fe),
                     exits := b.row.exits + 1),
              b.notional[leg := b.notional[leg] - ExactRelief(b, leg, fe)],
              b.pending[leg := b.pending[leg] + fe.net])
  }

  function ExactBookNode(b: ExactBook, partialOn: bool, fe: FillEvent): (r: ExactBook)
    requires ExactShaped(b, partialOn) && OwnsSlot(fe.node, fe.slot, partialOn)
    ensures ExactShaped(r, partialOn)
  {
    var leg := LegOf(fe, partialOn);
    if !fe.isSell then
      ExactBook(b.row.(openNotional := b.row.openNotional + fe.notional, entries := b.row.entries + 1),
                b.notional[leg := b.notional[leg] + fe.notional],
                b.pending)
    else
      var sold := ExactSellLeg(b, leg, fe);
      if fe.slotFlat then
        ExactBook(ExactClassify(sold.row, partialOn, sold.pending[leg]), sold.notional, sold.pending[leg := 0])
      else sold
  }

  /** The books of a run of fills, exactly. */
  function ExactFold(partialOn: bool, node: nat, fills: seq<FillEvent>): (r: ExactBook)
    requires AllOwned(fills, node, partialOn)
    ensures ExactShaped(r, partialOn)
  {
    if fills == [] then Exact(ZeroNode(partialOn))
    else
      var k := |fills| - 1;
      ExactBookNode(ExactFold(partialOn, node, fills[..k]), partialOn, fills[k])
  }

  // ---- every sum of a step stays in the money domain ----

  predicate SettleInDomain(row: ExactRow, net: int) {
    if net > 0 then Fits(row.grossWins + net) else Fits(row.grossLosses - net)
  }

  predicate ClassifyInDomain(row: ExactRow, partialOn: bool, net: int) {
    if !partialOn then SettleInDomain(row, net)
    else row.partnerPending ==> Fits(row.partnerPnl + net) && SettleInDomain(row, row.partnerPnl + net)
  }

  predicate SellLegInDomain(b: ExactBook, leg: nat, fe: FillEvent)
    requires leg < |b.notional| && leg < |b.pending|
  {
    && Fits(b.row.realized + fe.net)
    && Fits(fe.entryFeeLeg + fe.fee)
    && Fits(b.row.fees + fe.entryFeeLeg + fe.fee)
    && Fits(b.row.openNotional - ExactRelief(b, leg, fe))
    && Fits(b.notional[leg] - ExactRelief(b, leg, fe))
    && Fits(b.pending[leg] + fe.net)
  }

  predicate StepInDomain(b: ExactBook, partialOn: bool, fe: FillEvent)
    requires ExactShaped(b, partialOn) && OwnsSlot(fe.node, fe.slot, partialOn)
  {
    var leg := LegOf(fe, partialOn);
    if !fe.isSell then
      Fits(b.notional[leg] + fe.notional) && Fits(b.row.openNotional + fe.notional)
    else
      && SellLegInDomain(b, leg, fe)
      && (fe.slotFlat ==> ClassifyInDomain(b.row, partialOn, b.pending[leg] + fe.net))
  }

  /** No exact sum of the run leaves the domain: a condition on the fills. */
  ghost predicate InDomain(partialOn: bool, node: nat, fills: seq<FillEvent>)
    requires AllOwned(fills, node, partialOn)
  {
    fills != [] ==>
      var k := |fills| - 1;
      InDomain(partialOn, node, fills[..k]) && StepInDomain(ExactFold(partialOn, node, fills[..k]), partialOn, fills[k])
  }

  // ---- one step: fitting, staying exact, and the integer condition are one thing ----

  lemma FitsIsInDomain(b: NodeBook, partialOn: bool, fe: FillEvent)
    requires Shaped(b, partialOn) && OwnsSlot(fe.node, fe.slot, partialOn)
    ensures BookFits(b, partialOn, fe) <==> StepInDomain(Exact(b), partialOn, fe)
  {
  }

  /** Saturation only ever moves an amount towards zero. */
  predicate Towards(net: int, exact: int) {
    net == exact || 0 <= net < exact || exact < net <= 0
  }

  /** A settled amount that was moved on the way shows in the row. */
  lemma SettleShows(row: NodeRow, net: Money, exact: int)
    requires row.grossWins >= 0 && row.grossLosses >= 0 && Towards(net, exact)
    ensures ExactOfRow(Settle(row, net)) == ExactSettle(ExactOfRow(row), exact) <==> net == exact && SettleFits(row, net)
  {
  }

  lemma PairTowards(partner: Money, net: Money, exact: int)
    requires net == Saturate(exact)
    ensures Towards(net, exact) && Towards(Add(partner, net), partner + exact)
    ensures Add(partner, net) == partner + exact <==> net == exact && Fits(partner + net)
  {
  }

  lemma ClassifyShows(row: NodeRow, partialOn: bool, net: Money, exact: int)
    requires row.grossWins >= 0 && row.grossLosses >= 0 && net == Saturate(exact)
    requires !row.partnerPending ==> row.partnerPnl == 0
    ensures ExactOfRow(Classify(row, partialOn, net)) == ExactClassify(ExactOfRow(row), partialOn, exact)
       <==> net == exact && ClassifyFits(row, partialOn, net)
  {
    PairTowards(row.partnerPnl, net, exact);
    hide SettleFits, Towards, Add, Saturate, Fits;
    if !partialOn {
      SettleShows(row, net, exact);
    } else if row.partnerPending {
      SettleShows(row, Add(row.partnerPnl, net), row.partnerPnl + exact);
      SettleKeepsPartner(row, Add(row.partnerPnl, net), row.partnerPnl + exact);
    }
  }

  lemma SettleKeepsPartner(row: NodeRow, net: Money, exact: int)
    ensures var a, b := ExactOfRow(Settle(row, net)), ExactSettle(ExactOfRow(row), exact);
            && a.partnerPnl == b.partnerPnl && a.partnerPending == b.partnerPending
            && (a.(partnerPnl := 0, partnerPending := false) == b.(partnerPnl := 0, partnerPending := false) <==> a == b)
  {
  }

  lemma ExactClassifyFrame(row: ExactRow, partialOn: bool, net: int, realized: int, fees: int, open: int, exits: nat)
    ensures ExactClassify(row.(realized := realized, fees := fees, openNotional := open, exits := exits), partialOn, net)
         == ExactClassify(row, partialOn, net).(realized := realized, fees := fees, openNotional := open, exits := exits)
  {
  }

  /** Classification leaves the four running totals alone, so they and the rest compare apart. */
  lemma RowsCompareApart(row: NodeRow, partialOn: bool, net: Money, exact: int,
                         realized: Money, fees: Money, open: Money, exits: nat, realized': int, fees': int, open': int)
    ensures var x, y := ExactOfRow(Classify(row, partialOn, net)), ExactClassify(ExactOfRow(row), partialOn, exact);
            x.(realized := realized, fees := fees, openNotional := open, exits := exits)
            == y.(realized := realized', fees := fees', openNotional := open', exits := exits)
            <==> x == y && realized == realized' && fees == fees' && open == open'
  {
  }

  /** A sum of a stored amount and a saturated one is exact only if both fit. */
  lemma NestedSum(a: Money, x: int)
    ensures Add(a, Saturate(x)) == a + x <==> Fits(x) && Fits(a + x)
  {
  }

  /** The sell of a leg is exact exactly when its sums fit. */
  lemma SellLegShows(b: NodeBook, leg: nat, fe: FillEvent)
    requires leg < |b.notional| == |b.pending|
    ensures var s, x := SellLeg(b, leg, fe), ExactSellLeg(Exact(b), leg, fe);
            && (s.row.realized == x.row.realized <==> Fits(b.row.realized + fe.net))
            && (s.row.fees == x.row.fees <==> Fits(fe.entryFeeLeg + fe.fee) && Fits(b.row.fees + Add(fe.entryFeeLeg, fe.fee)))
            && (s.row.openNotional == x.row.openNotional <==> Fits(b.row.openNotional - Relief(b, leg, fe)))
            && (s.notional[leg] == x.notional[leg] <==> Fits(b.notional[leg] - Relief(b, leg, fe)))
            && (s.pending[leg] == x.pending[leg] <==> Fits(b.pending[leg] + fe.net))
            && s.row == b.row.(realized := s.row.realized, fees := s.row.fees, openNotional := s.row.openNotional, exits := b.row.exits + 1)
            && x.row == ExactOfRow(b.row).(realized := x.row.realized, fees := x.row.fees, openNotional := x.row.openNotional, exits := b.row.exits + 1)
  {
    NestedSum(b.row.fees, fe.entryFeeLeg + fe.fee);
  }

  lemma UpdatesCompare(a: seq<int>, i: nat, v: int, w: int)
    requires i < |a|
    ensures a[i := v] == a[i := w] <==> v == w
  {
    assert a[i := v][i] == v && a[i := w][i] == w;
  }

  lemma BuyShows(b: NodeBook, partialOn: bool, fe: FillEvent)
    requires Shaped(b, partialOn) && OwnsSlot(fe.node, fe.slot, partialOn) && !fe.isSell
    ensures Exact(BookNode(b, partialOn, fe)) == ExactBookNode(Exact(b), partialOn, fe) <==> BookFits(b, partialOn, fe)
  {
    var leg := LegOf(fe, partialOn);
    UpdatesCompare(b.notional, leg, Add(b.notional[leg], fe.notional), b.notional[leg] + fe.notional);
  }

  lemma PartialSellShows(b: NodeBook, partialOn: bool, fe: FillEvent)
    requires Shaped(b, partialOn) && OwnsSlot(fe.node, fe.slot, partialOn) && fe.isSell && !fe.slotFlat
    ensures Exact(BookNode(b, partialOn, fe)) == ExactBookNode(Exact(b), partialOn, fe) <==> BookFits(b, partialOn, fe)
  {
    var leg := LegOf(fe, partialOn);
    var s, x := SellLeg(b, leg, fe), ExactSellLeg(Exact(b), leg, fe);
    SellLegShows(b, leg, fe);
    UpdatesCompare(b.notional, leg, s.notional[leg], x.notional[leg]);
    UpdatesCompare(b.pending, leg, s.pending[leg], x.pending[leg]);
    hide Add, Sub, Fits, Saturate;
  }

  lemma FlatSellShows(b: NodeBook, partialOn: bool, fe: FillEvent)
    requires Shaped(b, partialOn) && OwnsSlot(fe.node, fe.slot, partialOn) && Signs(b.row) && fe.isSell && fe.slotFlat
    ensures Exact(BookNode(b, partialOn, fe)) == ExactBookNode(Exact(b), partialOn, fe) <==> BookFits(b, partialOn, fe)
  {
    var leg := LegOf(fe, partialOn);
    var s, x := SellLeg(b, leg, fe), ExactSellLeg(Exact(b), leg, fe);
    SellLegShows(b, leg, fe);
    UpdatesCompare(b.notional, leg, s.notional[leg], x.notional[leg]);
    assert s.pending[leg := 0] == b.pending[leg := 0] == x.pending[leg := 0];
    var net, exact := s.pending[leg], x.pending[leg];
    hide Add, Sub, Fits, Classify, ExactClassify, ClassifyFits;
    ClassifyShows(b.row, partialOn, net, exact);
    ClassifyFrame(b.row, partialOn, net, s.row.realized, s.row.fees, s.row.openNotional, b.row.exits + 1);
    ExactClassifyFrame(ExactOfRow(b.row), partialOn, exact, x.row.realized, x.row.fees, x.row.openNotional, b.row.exits + 1);
    RowsCompareApart(b.row, partialOn, net, exact, s.row.realized, s.row.fees, s.row.openNotional, b.row.exits + 1,
                     x.row.realized, x.row.fees, x.row.openNotional);
  }

  /** One booking step stays exact exactly when none of its sums saturates. */
  lemma StepShows(b: NodeBook, partialOn: bool, fe: FillEvent)
    requires Shaped(b, partialOn) && OwnsSlot(fe.node, fe.slot, partialOn) && Signs(b.row)
    ensures Exact(BookNode(b, partialOn, fe)) == ExactBookNode(Exact(b), partialOn, fe) <==> BookFits(b, partialOn, fe)
  {
    hide BookNode, ExactBookNode, BookFits, Exact;
    if !fe.isSell {
      BuyShows(b, partialOn, fe);
    } else if fe.slotFlat {
      FlatSellShows(b, partialOn, fe);
    } else {
      PartialSellShows(b, partialOn, fe);
    }
  }

  // ---- runs ----

  lemma BookKeepsSigns(b: NodeBook, partialOn: bool, fe: FillEvent)
    requires Shaped(b, partialOn) && OwnsSlot(fe.node, fe.slot, partialOn) && Signs(b.row)
    ensures Signs(BookNode(b, partialOn, fe).row)
  {
  }

  lemma {:induction false} RunKeepsSigns(partialOn: bool, node: nat, fills: seq<FillEvent>)
    requires AllOwned(fills, node, partialOn)
    ensures Signs(FoldNode(ZeroNode(partialOn), partialOn, node, fills).row)
  {
    hide BookNode;
    if fills != [] {
      var k := |fills| - 1;
      RunKeepsSigns(partialOn, node, fills[..k]);
      BookKeepsSigns(FoldNode(ZeroNode(partialOn), partialOn, node, fills[..k]), partialOn, fills[k]);
    }
  }

  ghost predicate ExactAt(partialOn: bool, node: nat, fills: seq<FillEvent>, k: nat)
    requires AllOwned(fills, node, partialOn) && k <= |fills|
  {
    Exact(FoldNode(ZeroNode(partialOn), partialOn, node, fills[..k])) == ExactFold(partialOn, node, fills[..k])
  }

  /** After every prefix the saturating books are the integer books. */
  ghost predicate StaysExact(partialOn: bool, node: nat, fills: seq<FillEvent>)
    requires AllOwned(fills, node, partialOn)
  {
    forall k :: 0 <= k <= |fills| ==> ExactAt(partialOn, node, fills, k)
  }

  lemma StaysExactStep(partialOn: bool, node: nat, fills: seq<FillEvent>)
    requires AllOwned(fills, node, partialOn) && fills != []
    ensures StaysExact(partialOn, node, fills)
       <==> StaysExact(partialOn, node, fills[..|fills| - 1]) && ExactAt(partialOn, node, fills, |fills|)
  {
    hide FoldNode, ExactFold, Exact;
    var front := fills[..|fills| - 1];
    forall k | 0 <= k <= |front|
      ensures ExactAt(partialOn, node, fills, k) <==> ExactAt(partialOn, node, front, k)
    {
      assert fills[..k] == front[..k];
    }
    hide ExactAt;
  }

  /** The saturating books of a run equal the integer books after every fill if and only if no
      booking saturates, if and only if no sum of the integer books leaves the money domain.  The
      last is a condition on the fills alone. */
  lemma {:induction false} BooksAreExactExactly(partialOn: bool, node: nat, fills: seq<FillEvent>)
    requires AllOwned(fills, node, partialOn)
    ensures RunFits(ZeroNode(partialOn), partialOn, node, fills) <==> StaysExact(partialOn, node, fills)
    ensures RunFits(ZeroNode(partialOn), partialOn, node, fills) <==> InDomain(partialOn, node, fills)
  {
    hide BookNode, BookFits, ExactBookNode, StepInDomain, Exact;
    if fills == [] {
      assert fills[..0] == [];
      assert ExactAt(partialOn, node, fills, 0);
    } else {
      var k := |fills| - 1;
      BooksAreExactExactly(partialOn, node, fills[..k]);
      RunKeepsSigns(partialOn, node, fills[..k]);
      StaysExactStep(partialOn, node, fills);
      var b := FoldNode(ZeroNode(partialOn), partialOn, node, fills[..k]);
      StepShows(b, partialOn, fills[k]);
      FitsIsInDomain(b, partialOn, fills[k]);
      assert fills[..|fills|] == fills && fills[..k][..k] == fills[..k];
      assert StaysExact(partialOn, node, fills[..k]) ==> ExactAt(partialOn, node, fills[..k], k);
      hide StaysExact;
    }
  }

  // ---- the integer books are always conserved ----

  function ExactSum(s: seq<int>): int {
    if s == [] then 0 else s[0] + ExactSum(s[1..])
  }

  lemma ExactSumUpdate(s: seq<int>, i: nat, v: int)
    requires i < |s|
    ensures ExactSum(s[i := v]) == ExactSum(s) - s[i] + v
  {
    if i == 0 {
      assert s[i := v][1..] == s[1..];
    } else {
      ExactSumUpdate(s[1..], i - 1, v);
      assert s[i := v][1..] == s[1..][i - 1 := v];
    }
  }

  lemma ZeroSum(s: seq<int>)
    requires forall i :: 0 <= i < |s| ==> s[i] == 0
    ensures ExactSum(s) == 0
  {
  }

  ghost predicate ExactConserved(b: ExactBook) {
    && b.row.realized == b.row.grossWins - b.row.grossLosses + b.row.partnerPnl + ExactSum(b.pending)
    && b.row.openNotional == ExactSum(b.notional)
    && (!b.row.partnerPending ==> b.row.partnerPnl == 0)
    && b.row.grossWins >= 0 && b.row.grossLosses >= 0
  }

  /** Profit and open notional are conserved by every fill sequence whatever, in integers: only the
      money domain can break the law. */
  lemma {:induction false} IntegersAlwaysConserve(partialOn: bool, node: nat, fills: seq<FillEvent>)
    requires AllOwned(fills, node, partialOn)
    ensures ExactConserved(ExactFold(partialOn, node, fills))
  {
    if fills == [] {
      ZeroSum(Exact(ZeroNode(partialOn)).notional);
      ZeroSum(Exact(ZeroNode(partialOn)).pending);
    } else {
      var k := |fills| - 1;
      var b, fe := ExactFold(partialOn, node, fills[..k]), fills[k];
      IntegersAlwaysConserve(partialOn, node, fills[..k]);
      ExactStepConserves(b, partialOn, fe);
    }
  }

  lemma ExactStepConserves(b: ExactBook, partialOn: bool, fe: FillEvent)
    requires ExactShaped(b, partialOn) && OwnsSlot(fe.node, fe.slot, partialOn) && ExactConserved(b)
    ensures ExactConserved(ExactBookNode(b, partialOn, fe))
  {
    hide ExactSum;
    var leg, r := LegOf(fe, partialOn), ExactBookNode(b, partialOn, fe);
    assert r.pending == b.pending[leg := r.pending[leg]];
    assert r.notional == b.notional[leg := r.notional[leg]];
    ExactSumUpdate(b.pending, leg, r.pending[leg]);
    ExactSumUpdate(b.notional, leg, r.notional[leg]);
  }

  /** Realized profit and fees are the plain sums over the sells, for every fill sequence. */
  lemma {:induction false} IntegerTotalsAreSums(partialOn: bool, node: nat, fills: seq<FillEvent>)
    requires AllOwned(fills, node, partialOn)
    ensures var row := ExactFold(partialOn, node, fills).row;
            row.realized == SellNet(fills) && row.fees == SellFees(fills)
  {
    if fills != [] {
      var k := |fills| - 1;
      IntegerTotalsAreSums(partialOn, node, fills[..k]);
      IntegerTotalsStep(ExactFold(partialOn, node, fills[..k]), partialOn, fills[k]);
      hide ExactBookNode;
    }
  }

  lemma IntegerTotalsStep(b: ExactBook, partialOn: bool, fe: FillEvent)
    requires ExactShaped(b, partialOn) && OwnsSlot(fe.node, fe.slot, partialOn)
    ensures var r := ExactBookNode(b, partialOn, fe).row;
            && r.realized == b.row.realized + (if fe.isSell then fe.net else 0)
            && r.fees == b.row.fees + (if fe.isSell then fe.entryFeeLeg + fe.fee else 0)
  {
  }

  lemma {:induction false} IntegerClosedSlot(partialOn: bool, node: nat, fills: seq<FillEvent>, leg: nat)
    requires AllOwned(fills, node, partialOn) && leg < Legs(partialOn) && LegClosed(fills, node, partialOn, leg)
    ensures var b := ExactFold(partialOn, node, fills); b.notional[leg] == 0 && b.pending[leg] == 0
  {
    if fills != [] {
      var k := |fills| - 1;
      if fills[k].slot != FirstSlot(node, partialOn) + leg {
        IntegerClosedSlot(partialOn, node, fills[..k], leg);
      }
    }
  }

  /** A node with every slot closed carries nothing open, for every fill sequence. */
  lemma IntegersCloseOut(partialOn: bool, node: nat, fills: seq<FillEvent>)
    requires AllOwned(fills, node, partialOn)
    requires forall leg :: 0 <= leg < Legs(partialOn) ==> LegClosed(fills, node, partialOn, leg)
    ensures var row := ExactFold(partialOn, node, fills).row;
            row.openNotional == 0 && row.realized == row.grossWins - row.grossLosses + row.partnerPnl
  {
    var b := ExactFold(partialOn, node, fills);
    IntegersAlwaysConserve(partialOn, node, fills);
    forall leg | 0 <= leg < Legs(partialOn)
      ensures b.notional[leg] == 0 && b.pending[leg] == 0
    {
      IntegerClosedSlot(partialOn, node, fills, leg);
    }
    ZeroSum(b.notional);
    ZeroSum(b.pending);
  }

  // ---- the global ledger and the overflow bit between two cycle tails ----

  /** No exact global total leaves the domain at any point of the run. */
  ghost predicate OmsInDomain(o: Oms, fills: seq<FillEvent>) {
    fills != [] ==>
      var k := |fills| - 1;
      && OmsInDomain(o, fills[..k])
      && Fits(o.balance + NetUpTo(fills, |fills|)) && Fits(o.realizedPnl + NetUpTo(fills, |fills|))
      && Fits(o.totalFees + FeesOf(fills, true) + FeesOf(fills, false))
      && Fits(o.makerFees + FeesOf(fills, true)) && Fits(o.takerFees + FeesOf(fills, false))
  }

  /** Inside the domain the global totals are the exact sums. */
  lemma {:induction false} OmsTotals(l: Ledger, partialOn: bool, fills: seq<FillEvent>)
    requires Sized(l, partialOn) && AllPlaced(fills, |l.rows|, partialOn) && OmsInDomain(l.oms, fills)
    ensures var o, r := l.oms, Fold(l, partialOn, fills).oms;
            && r.balance == o.balance + NetUpTo(fills, |fills|) && r.realizedPnl == o.realizedPnl + NetUpTo(fills, |fills|)
            && r.totalFees == o.totalFees + FeesOf(fills, true) + FeesOf(fills, false)
            && r.makerFees == o.makerFees + FeesOf(fills, true) && r.takerFees == o.takerFees + FeesOf(fills, false)
  {
    hide BookNode, BookFits, NodeOf, OmsFits;
    if fills != [] {
      var k := |fills| - 1;
      OmsTotals(l, partialOn, fills[..k]);
      NetOfPrefix(fills, k, k);
    }
  }

  lemma OmsStep(l: Ledger, partialOn: bool, fills: seq<FillEvent>)
    requires Sized(l, partialOn) && AllPlaced(fills, |l.rows|, partialOn) && fills != []
    requires OmsInDomain(l.oms, fills[..|fills| - 1])
    ensures OmsInDomain(l.oms, fills) <==> OmsFits(Fold(l, partialOn, fills[..|fills| - 1]).oms, fills[|fills| - 1])
  {
    hide Fold;
    var k := |fills| - 1;
    OmsTotals(l, partialOn, fills[..k]);
    NetOfPrefix(fills, k, k);
    assert NetUpTo(fills, |fills|) == NetUpTo(fills[..k], k) + fills[k].net;
  }

  ghost predicate NodeFits(l: Ledger, partialOn: bool, fills: seq<FillEvent>, n: nat)
    requires Sized(l, partialOn) && n < |l.rows|
  {
    AllOwned(OwnFills(fills, n), n, partialOn) && RunFits(NodeOf(l, n, partialOn), partialOn, n, OwnFills(fills, n))
  }

  lemma NodeFitsStep(l: Ledger, partialOn: bool, fills: seq<FillEvent>, n: nat)
    requires Sized(l, partialOn) && AllPlaced(fills, |l.rows|, partialOn) && fills != [] && n < |l.rows|
    ensures var k := |fills| - 1;
            NodeFits(l, partialOn, fills, n)
            <==> NodeFits(l, partialOn, fills[..k], n)
                 && (fills[k].node == n ==> BookFits(NodeOf(Fold(l, partialOn, fills[..k]), n, partialOn), partialOn, fills[k]))
  {
    hide BookNode, BookFits, NodeOf, Fold;
    var k := |fills| - 1;
    OwnFillsOwned(fills, n, |l.rows|, partialOn);
    OwnFillsOwned(fills[..k], n, |l.rows|, partialOn);
    NodeIndependence(l, partialOn, fills[..k], n);
    if fills[k].node == n {
      var own := OwnFills(fills, n);
      assert own[..|own| - 1] == OwnFills(fills[..k], n);
    }
  }

  /** Over bookings with no cycle tail in between the bit stays down if and only if it was down and
      no booking of any node and no global total saturates. */
  lemma {:induction false} FlagExactly(l: Ledger, partialOn: bool, fills: seq<FillEvent>)
    requires Sized(l, partialOn) && AllPlaced(fills, |l.rows|, partialOn)
    ensures !Fold(l, partialOn, fills).overflow
       <==> !l.overflow && OmsInDomain(l.oms, fills) && forall n :: 0 <= n < |l.rows| ==> NodeFits(l, partialOn, fills, n)
  {
    hide BookNode, BookFits, OmsFits, ApplyOms, NodeOf, OwnFills, RunFits, AllOwned;
    if fills == [] {
      forall n | 0 <= n < |l.rows| ensures NodeFits(l, partialOn, fills, n) { NothingFits(l, partialOn, n); }
    } else {
      var k := |fills| - 1;
      FlagExactly(l, partialOn, fills[..k]);
      forall n | 0 <= n < |l.rows|
        ensures NodeFits(l, partialOn, fills, n)
           <==> NodeFits(l, partialOn, fills[..k], n)
                && (fills[k].node == n ==> BookFits(NodeOf(Fold(l, partialOn, fills[..k]), n, partialOn), partialOn, fills[k]))
      {
        NodeFitsStep(l, partialOn, fills, n);
      }
      if OmsInDomain(l.oms, fills[..k]) { OmsStep(l, partialOn, fills); }
      hide NodeFits;
    }
  }

  lemma NothingFits(l: Ledger, partialOn: bool, n: nat)
    requires Sized(l, partialOn) && n < |l.rows|
    ensures NodeFits(l, partialOn, [], n)
  {
  }

  ghost predicate NodeInDomain(partialOn: bool, fills: seq<FillEvent>, n: nat) {
    AllOwned(OwnFills(fills, n), n, partialOn) && InDomain(partialOn, n, OwnFills(fills, n))
  }

  /** From empty books no booking saturates if and only if, in integers and on the fills alone, no
      node's sum and no global total ever leaves the money domain. */
  lemma ClearFlagExactly(nodes: nat, slots: nat, oms: Oms, partialOn: bool, fills: seq<FillEvent>)
    requires FirstSlot(nodes, partialOn) <= slots && AllPlaced(fills, nodes, partialOn)
    ensures !Fold(ZeroLedger(nodes, slots, oms), partialOn, fills).overflow
       <==> OmsInDomain(oms, fills) && forall n :: 0 <= n < nodes ==> NodeInDomain(partialOn, fills, n)
  {
    hide Fold, NodeOf, OwnFills, RunFits, OmsInDomain, InDomain, ZeroNode;
    var l := ZeroLedger(nodes, slots, oms);
    FlagExactly(l, partialOn, fills);
    forall n | 0 <= n < nodes
      ensures NodeFits(l, partialOn, fills, n) <==> NodeInDomain(partialOn, fills, n)
    {
      ZeroLedgerNodes(nodes, slots, oms, partialOn, n);
      OwnFillsOwned(fills, n, nodes, partialOn);
      BooksAreExactExactly(partialOn, n, OwnFills(fills, n));
    }
  }

  /** A node whose exact sums stay in the domain is conserved by the saturating books. */
  lemma InDomainConserves(partialOn: bool, node: nat, fills: seq<FillEvent>)
    requires AllOwned(fills, node, partialOn) && InDomain(partialOn, node, fills)
    ensures Conserved(FoldNode(ZeroNode(partialOn), partialOn, node, fills))
    ensures Exact(FoldNode(ZeroNode(partialOn), partialOn, node, fills)) == ExactFold(partialOn, node, fills)
  {
    hide FoldNode, RunFits, InDomain, Conserved, Exact, ExactFold;
    BooksAreExactExactly(partialOn, node, fills);
    NodeRunConserves(partialOn, node, fills);
    assert ExactAt(partialOn, node, fills, |fills|);
    assert fills[..|fills|] == fills;
  }
}
