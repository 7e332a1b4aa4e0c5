/** The composer's side of the ledger: leaves push fills onto bounded per-node rings, and one
    thread drains the rings in ascending node order, first in first out, booking each fill. */
module FillLedger {
  import opened Decimal
  import opened FillBooking
  import opened MoneyFlag

  function Concat(rings: seq<seq<FillEvent>>): seq<FillEvent> {
    if rings == [] then [] else Concat(rings[..|rings| - 1]) + rings[|rings| - 1]
  }

  /** The rings one after the other, each in its own order. */
  lemma {:induction false} ConcatIsInOrder(a: seq<seq<FillEvent>>, b: seq<seq<FillEvent>>, ring: seq<FillEvent>)
    ensures Concat(a + b) == Concat(a) + Concat(b) && Concat([ring]) == ring
  {
    assert [ring][..0] == [] && Concat([]) == [];
    if b == [] {
      assert a + b == a;
    } else {
      assert (a + b)[..|a + b| - 1] == a + b[..|b| - 1];
      ConcatIsInOrder(a, b[..|b| - 1], ring);
    }
  }

  /** One node's emits are its booked fills followed by its ring, and the sequence number is the
      last one booked. */
  ghost predicate RingHolds(emitted: seq<FillEvent>, own: seq<FillEvent>, ring: seq<FillEvent>, lastSeq: nat,
                            n: nat, partialOn: bool, capacity: nat) {
    && |ring| <= capacity && AllOwned(ring, n, partialOn)
    && emitted == own + ring
    && (own != [] ==> lastSeq == own[|own| - 1].seqNo)
  }

  lemma PoppedRing(emitted: seq<FillEvent>, own: seq<FillEvent>, ring: seq<FillEvent>, lastSeq: nat,
                   n: nat, partialOn: bool, capacity: nat)
    requires RingHolds(emitted, own, ring, lastSeq, n, partialOn, capacity) && ring != []
    ensures RingHolds(emitted, own + [ring[0]], ring[1..], ring[0].seqNo, n, partialOn, capacity)
    ensures ring[0].node == n && OwnsSlot(n, ring[0].slot, partialOn)
  {
    assert ring == [ring[0]] + ring[1..];
    assert own + ring == (own + [ring[0]]) + ring[1..];
  }

  /** What one pass of the drainer loop meets: the fills its leaves emit, and whether other money
      work of the thread overflows before or after the tail. */
  datatype Pass = Pass(emits: seq<FillEvent>, otherBefore: bool, otherAfter: bool)

  class Composer {
    const partialOn: bool
    const capacity: nat
    const rows: array<NodeRow>
    const slotNotional: array<Money>
    const pendingTradeNet: array<Money>
    const fillRings: array<seq<FillEvent>>
    const appliedSeq: array<nat>
    var oms: Oms
    var engine: EngineCounts
    // The overflow bit of this thread's money flags.
    var moneyOverflow: bool
    var fillRingFullEvents: nat

    // The run so far: where it began, what each node emitted, what was booked and in what order,
    // whether a cycle tail has reported an overflow, and whether anything but a booking overflowed.
    ghost var start: Ledger
    ghost var emitted: seq<seq<FillEvent>>
    ghost var applied: seq<FillEvent>
    ghost var reported: bool
    ghost var otherOverflow: bool

    ghost function Footprint(): set<object> {
      {this, rows, slotNotional, pendingTradeNet, fillRings, appliedSeq}
    }

    ghost predicate Geometry() {
      && slotNotional.Length == pendingTradeNet.Length && slotNotional != pendingTradeNet
      && FirstSlot(rows.Length, partialOn) <= slotNotional.Length
      && fillRings.Length == appliedSeq.Length == rows.Length
      && capacity >= 1
    }

    ghost function State(): Ledger
      reads `oms, `engine, `moneyOverflow, rows, slotNotional, pendingTradeNet
    {
      Ledger(rows[..], slotNotional[..], pendingTradeNet[..], oms, engine, moneyOverflow)
    }

    /** What node n emitted is what was booked for it, followed by what waits on its ring. */
    ghost predicate RingOk(n: nat)
      requires Geometry() && n < rows.Length && |emitted| == rows.Length
      reads `emitted, `applied, fillRings, appliedSeq
    {
      RingHolds(emitted[n], OwnFills(applied, n), fillRings[n], appliedSeq[n], n, partialOn, capacity)
    }

    /** The books are the fold of everything applied.  Whatever saturated among it still stands in
        the bit or was reported: clearing the bit loses nothing. */
    ghost predicate Booked()
      requires Geometry()
      reads `oms, `engine, `moneyOverflow, `start, `applied, `reported, `otherOverflow
      reads rows, slotNotional, pendingTradeNet
    {
      && Sized(start, partialOn) && |start.rows| == rows.Length
      && AllPlaced(applied, rows.Length, partialOn)
      && var whole := Fold(start, partialOn, applied);
         && Cleared(State()) == Cleared(whole)
         && (moneyOverflow || reported <==> whole.overflow || otherOverflow)
    }

    /** Since the given state exactly the fills from position k on were booked. */
    ghost predicate BookedSince(before: Ledger, k: nat)
      requires Geometry()
      reads `oms, `engine, `moneyOverflow, `applied, rows, slotNotional, pendingTradeNet
    {
      && Sized(before, partialOn) && |before.rows| == rows.Length
      && k <= |applied| && AllPlaced(applied[k..], rows.Length, partialOn)
      && State() == Fold(before, partialOn, applied[k..])
    }

    ghost predicate Valid()
      reads `oms, `engine, `moneyOverflow, `start, `emitted, `applied, `reported, `otherOverflow
      reads rows, slotNotional, pendingTradeNet, fillRings, appliedSeq
    {
      && Geometry()
      && Booked()
      && |emitted| == rows.Length
      && (forall n :: 0 <= n < rows.Length ==> RingOk(n))
    }

    constructor (nodes: nat, slots: nat, partialOn: bool, capacity: nat, oms: Oms)
      requires FirstSlot(nodes, partialOn) <= slots && capacity >= 1
      ensures Valid() && fresh(Footprint()) && rows.Length == nodes
      ensures this.partialOn == partialOn && this.capacity == capacity
      ensures applied == [] && start == ZeroLedger(nodes, slots, oms)
      ensures !moneyOverflow && !reported && !otherOverflow
      ensures forall n :: 0 <= n < nodes ==> emitted[n] == []
    {
      this.partialOn, this.capacity, this.oms := partialOn, capacity, oms;
      rows := new NodeRow[nodes](_ => ZERO_ROW);
      slotNotional := new Money[slots](_ => 0);
      pendingTradeNet := new Money[slots](_ => 0);
      fillRings := new seq<FillEvent>[nodes](_ => []);
      appliedSeq := new nat[nodes](_ => 0);
      moneyOverflow, fillRingFullEvents, engine := false, 0, EngineCounts(0, 0, 0);
      applied, reported, otherOverflow := [], false, false;
      emitted := seq(nodes, _ => []);
      start := ZeroLedger(nodes, slots, oms);
      new;
      assert State() == start;
      assert forall n :: 0 <= n < nodes ==> RingOk(n);
    }

    /** A money sum of the composer thread; it only ever raises the overflow bit. */
    method AddMoney(a: Money, b: Money) returns (r: Money)
      modifies this`moneyOverflow
      ensures r == Add(a, b) && moneyOverflow == (old(moneyOverflow) || !Fits(a + b))
    {
      moneyOverflow := moneyOverflow || !Fits(a + b);
      r := Saturate(a + b);
    }

    method SubMoney(a: Money, b: Money) returns (r: Money)
      modifies this`moneyOverflow
      ensures r == Sub(a, b) && moneyOverflow == (old(moneyOverflow) || !Fits(a - b))
    {
      r := AddMoney(a, -b);
    }

    method LedgerApplyFill(fe: FillEvent)
      modifies this`oms, this`moneyOverflow
      ensures oms == ApplyOms(old(oms), fe)
      ensures moneyOverflow == (old(moneyOverflow) || !OmsFits(old(oms), fe))
    {
      var total := AddMoney(oms.totalFees, fe.fee);
      oms := oms.(totalFees := total);
      if fe.isMaker {
        var maker := AddMoney(oms.makerFees, fe.fee);
        oms := oms.(makerFees := maker, makerFills := oms.makerFills + 1);
      } else {
        var taker := AddMoney(oms.takerFees, fe.fee);
        oms := oms.(takerFees := taker, takerFills := oms.takerFills + 1);
      }
      var balance := AddMoney(oms.balance, fe.net);
      var realized := AddMoney(oms.realizedPnl, fe.net);
      oms := oms.(balance := balance, realizedPnl := realized, ksPeak := Max(oms.ksPeak, balance));
    }

    /** One win or one loss for a closed trade. */
    method SettleTrade(n: nat, net: Money)
      requires n < rows.Length
      modifies this`moneyOverflow, rows
      ensures rows[..] == old(rows[..])[n := Settle(old(rows[n]), net)]
      ensures moneyOverflow == (old(moneyOverflow) || !SettleFits(old(rows[n]), net))
    {
      if net > 0 {
        var gross := AddMoney(rows[n].grossWins, net);
        rows[n] := rows[n].(wins := rows[n].wins + 1, grossWins := gross);
      } else {
        var gross := AddMoney(rows[n].grossLosses, -net);
        rows[n] := rows[n].(losses := rows[n].losses + 1, grossLosses := gross);
      }
    }

    /** Win/loss classification at slot-flat, pairing the two legs when partial exits are on. */
    method ClassifyTrade(n: nat, net: Money)
      requires n < rows.Length
      modifies this`moneyOverflow, rows
      ensures rows[..] == old(rows[..])[n := Classify(old(rows[n]), partialOn, net)]
      ensures moneyOverflow == (old(moneyOverflow) || !ClassifyFits(old(rows[n]), partialOn, net))
    {
      if !partialOn {
        SettleTrade(n, net);
      } else if rows[n].partnerPending {
        var total := AddMoney(rows[n].partnerPnl, net);
        SettleTrade(n, total);
        rows[n] := rows[n].(partnerPnl := 0, partnerPending := false);
      } else {
        rows[n] := rows[n].(partnerPnl := net, partnerPending := true);
      }
    }

    /** BUY leg: notional add, entry counter; no fee here. */
    method BookBuy(fe: FillEvent)
      requires Geometry() && Placed(fe, rows.Length, partialOn) && !fe.isSell
      modifies this`moneyOverflow, this`engine, rows, slotNotional, pendingTradeNet
      ensures var before := old(NodeOf(State(), fe.node, partialOn));
              var after := BookNode(before, partialOn, fe);
              var leg := LegOf(fe, partialOn);
              && rows[..] == old(rows[..])[fe.node := after.row]
              && slotNotional[..] == old(slotNotional[..])[fe.slot := after.notional[leg]]
              && pendingTradeNet[..] == old(pendingTradeNet[..])[fe.slot := after.pending[leg]]
              && moneyOverflow == (old(moneyOverflow) || !BookFits(before, partialOn, fe))
      ensures engine == Count(old(engine), fe)
    {
      hide Saturate, Fits;
      var n, slot := fe.node, fe.slot;
      var tracked := AddMoney(slotNotional[slot], fe.notional);
      slotNotional[slot] := tracked;
      var open := AddMoney(rows[n].openNotional, fe.notional);
      rows[n] := rows[n].(openNotional := open, entries := rows[n].entries + 1);
      engine := engine.(entries := engine.entries + 1, events := engine.events + 1);
    }

    /** The node row of a sell leg. */
    method SellRow(n: nat, fe: FillEvent, relief: Money)
      requires n < rows.Length
      modifies this`moneyOverflow, rows
      ensures var row := old(rows[n]); var legFees := Add(fe.entryFeeLeg, fe.fee);
              && rows[..] == old(rows[..])[n := row.(realized := Add(row.realized, fe.net),
                                                     fees := Add(row.fees, legFees),
                                                     openNotional := Sub(row.openNotional, relief),
                                                     exits := row.exits + 1)]
              && moneyOverflow == (old(moneyOverflow) || !(
                   && Fits(row.realized + fe.net) && Fits(fe.entryFeeLeg + fe.fee)
                   && Fits(row.fees + legFees) && Fits(row.openNotional - relief)))
    {
      hide Saturate, Fits, Add, Sub;
      var realized := AddMoney(rows[n].realized, fe.net);
      var legFees := AddMoney(fe.entryFeeLeg, fe.fee);
      var fees := AddMoney(rows[n].fees, legFees);
      var open := SubMoney(rows[n].openNotional, relief);
      rows[n] := rows[n].(realized := realized, fees := fees, openNotional := open, exits := rows[n].exits + 1);
    }

    /** The trackers of the slot sold from, and the exit counter. */
    method SellSlot(fe: FillEvent, relief: Money)
      requires Geometry() && fe.slot < slotNotional.Length && fe.isSell
      modifies this`moneyOverflow, this`engine, slotNotional, pendingTradeNet
      ensures slotNotional[..] == old(slotNotional[..])[fe.slot := Sub(old(slotNotional[fe.slot]), relief)]
      ensures pendingTradeNet[..] == old(pendingTradeNet[..])[fe.slot := Add(old(pendingTradeNet[fe.slot]), fe.net)]
      ensures moneyOverflow == (old(moneyOverflow) || !(
                Fits(old(slotNotional[fe.slot]) - relief) && Fits(old(pendingTradeNet[fe.slot]) + fe.net)))
      ensures engine == Count(old(engine), fe)
    {
      hide Saturate, Fits, Add, Sub;
      var tracked := SubMoney(slotNotional[fe.slot], relief);
      slotNotional[fe.slot] := tracked;
      engine := engine.(exits := engine.exits + 1, events := engine.events + 1);
      var pending := AddMoney(pendingTradeNet[fe.slot], fe.net);
      pendingTradeNet[fe.slot] := pending;
    }

    /** SELL leg: realized net, fees at close, notional relief (the tracked remainder on the
        closing leg), and the running net of the trade. */
    method BookSellLeg(fe: FillEvent)
      requires Geometry() && Placed(fe, rows.Length, partialOn) && fe.isSell
      modifies this`moneyOverflow, this`engine, rows, slotNotional, pendingTradeNet
      ensures var before := old(NodeOf(State(), fe.node, partialOn));
              var leg := LegOf(fe, partialOn);
              var after := SellLeg(before, leg, fe);
              && rows[..] == old(rows[..])[fe.node := after.row]
              && slotNotional[..] == old(slotNotional[..])[fe.slot := after.notional[leg]]
              && pendingTradeNet[..] == old(pendingTradeNet[..])[fe.slot := after.pending[leg]]
              && moneyOverflow == (old(moneyOverflow) || !SellLegFits(before, leg, fe))
      ensures engine == Count(old(engine), fe)
    {
      hide Saturate, Fits, Add, Sub;
      ghost var before := NodeOf(State(), fe.node, partialOn);
      ghost var leg := LegOf(fe, partialOn);
      assert before.notional[leg] == slotNotional[fe.slot] && before.pending[leg] == pendingTradeNet[fe.slot];
      var relief := if fe.slotFlat then slotNotional[fe.slot] else fe.notional;
      SellRow(fe.node, fe, relief);
      SellSlot(fe, relief);
    }

    /** A sell; at slot-flat the trade is classified once on its accumulated net. */
    method BookSell(fe: FillEvent)
      requires Geometry() && Placed(fe, rows.Length, partialOn) && fe.isSell
      modifies this`moneyOverflow, this`engine, rows, slotNotional, pendingTradeNet
      ensures var before := old(NodeOf(State(), fe.node, partialOn));
              var after := BookNode(before, partialOn, fe);
              var leg := LegOf(fe, partialOn);
              && rows[..] == old(rows[..])[fe.node := after.row]
              && slotNotional[..] == old(slotNotional[..])[fe.slot := after.notional[leg]]
              && pendingTradeNet[..] == old(pendingTradeNet[..])[fe.slot := after.pending[leg]]
              && moneyOverflow == (old(moneyOverflow) || !BookFits(before, partialOn, fe))
      ensures engine == Count(old(engine), fe)
    {
      hide Fits, Add, Sub, Settle, SellLegFits;
      BookSellLeg(fe);
      if fe.slotFlat {
        var net := pendingTradeNet[fe.slot];
        pendingTradeNet[fe.slot] := 0;
        ClassifyTrade(fe.node, net);
      }
    }

    /** The node accounting row of one fill. */
    method NodeRowsBook(fe: FillEvent)
      requires Geometry() && Placed(fe, rows.Length, partialOn)
      modifies this`moneyOverflow, this`engine, rows, slotNotional, pendingTradeNet
      ensures var before := old(NodeOf(State(), fe.node, partialOn));
              var after := BookNode(before, partialOn, fe);
              var leg := LegOf(fe, partialOn);
              && rows[..] == old(rows[..])[fe.node := after.row]
              && slotNotional[..] == old(slotNotional[..])[fe.slot := after.notional[leg]]
              && pendingTradeNet[..] == old(pendingTradeNet[..])[fe.slot := after.pending[leg]]
              && moneyOverflow == (old(moneyOverflow) || !BookFits(before, partialOn, fe))
      ensures engine == Count(old(engine), fe)
    {
      hide BookNode, BookFits;
      if fe.isSell {
        BookSell(fe);
      } else {
        BookBuy(fe);
      }
    }

    /** The one booking of a fill: the global ledger, then the node's row. */
    method ApplyFill(fe: FillEvent)
      requires Geometry() && Placed(fe, rows.Length, partialOn)
      modifies this`oms, this`engine, this`moneyOverflow, rows, slotNotional, pendingTradeNet
      ensures State() == Book(old(State()), partialOn, fe)
    {
      hide BookNode, BookFits, ApplyOms, OmsFits;
      LedgerApplyFill(fe);
      NodeRowsBook(fe);
    }

    /** Pop the oldest fill of ring n and book it. */
    method PopAndApply(n: nat)
      requires Valid() && n < rows.Length && fillRings[n] != []
      modifies Footprint()
      ensures Valid()
      ensures start == old(start) && emitted == old(emitted) && fillRingFullEvents == old(fillRingFullEvents)
      ensures reported == old(reported) && otherOverflow == old(otherOverflow)
      ensures applied == old(applied) + [old(fillRings[n][0])] && BookedSince(old(State()), |old(applied)|)
      ensures fillRings[..] == old(fillRings[..])[n := old(fillRings[n][1..])]
    {
      hide Book, Fold, OwnFills, AllPlaced, OwnsSlot, RingHolds, FirstSlot, Cleared;
      ghost var before := State();
      assert RingOk(n);
      var fe := fillRings[n][0];
      PoppedRing(emitted[n], OwnFills(applied, n), fillRings[n], appliedSeq[n], n, partialOn, capacity);
      BookedSnoc(start, partialOn, applied, fe, before, reported, otherOverflow);
      BookOne(before, partialOn, applied, fe);
      fillRings[n] := fillRings[n][1..];
      ApplyFill(fe);
      appliedSeq[n] := fe.seqNo;
      applied := applied + [fe];
      forall m | 0 <= m < rows.Length
        ensures RingOk(m)
      {
        OwnFillsSnoc(old(applied), fe, m);
        assert old(RingOk(m));
      }
    }

    /** Drain one ring, first in first out. */
    method DrainRing(n: nat) returns (count: nat)
      requires Valid() && n < rows.Length
      modifies Footprint()
      ensures Valid()
      ensures start == old(start) && emitted == old(emitted) && fillRingFullEvents == old(fillRingFullEvents)
      ensures reported == old(reported) && otherOverflow == old(otherOverflow)
      ensures applied == old(applied) + old(fillRings[n]) && count == |old(fillRings[n])|
      ensures BookedSince(old(State()), |old(applied)|)
      ensures fillRings[..] == old(fillRings[..])[n := []]
    {
      hide Fold, OwnFills, State, Sized, AllPlaced, RingOk, Booked;
      count := 0;
      ghost var ring := fillRings[n];
      BookedNothing();
      while fillRings[n] != []
        invariant Valid()
        invariant start == old(start) && emitted == old(emitted) && fillRingFullEvents == old(fillRingFullEvents)
        invariant reported == old(reported) && otherOverflow == old(otherOverflow)
        invariant count <= |ring| && applied == old(applied) + ring[..count]
        invariant BookedSince(old(State()), |old(applied)|)
        invariant fillRings[..] == old(fillRings[..])[n := ring[count..]]
        decreases |fillRings[n]|
      {
        ghost var mid, done := State(), applied;
        PopAndApply(n);
        count := count + 1;
        BookedChain(old(State()), mid, |old(applied)|, done);
      }
    }

    /** The defined-order apply.  After it every ring is empty and every node's books are exactly
        its own emitted fills, folded from where the run began. */
    method FillRingsApply() returns (count: nat)
      requires Valid()
      modifies Footprint()
      ensures Valid()
      ensures start == old(start) && emitted == old(emitted) && fillRingFullEvents == old(fillRingFullEvents)
      ensures reported == old(reported) && otherOverflow == old(otherOverflow)
      ensures forall n :: 0 <= n < rows.Length ==> fillRings[n] == []
      ensures applied == old(applied) + Concat(old(fillRings[..])) && count == |Concat(old(fillRings[..]))|
      ensures BookedSince(old(State()), |old(applied)|)
      ensures Settled()
    {
      hide Fold, OwnFills, State, Sized, AllPlaced, RingOk, Booked;
      count := 0;
      ghost var rings := fillRings[..];
      BookedNothing();
      for n := 0 to rows.Length
        invariant Valid()
        invariant start == old(start) && emitted == old(emitted) && fillRingFullEvents == old(fillRingFullEvents)
        invariant forall m :: 0 <= m < n ==> fillRings[m] == []
        invariant forall m :: n <= m < rows.Length ==> fillRings[m] == rings[m]
        invariant reported == old(reported) && otherOverflow == old(otherOverflow)
        invariant applied == old(applied) + Concat(rings[..n]) && count == |Concat(rings[..n])|
        invariant BookedSince(old(State()), |old(applied)|)
      {
        ghost var mid, done := State(), applied;
        var k := DrainRing(n);
        BookedChain(old(State()), mid, |old(applied)|, done);
        count := count + k;
        assert rings[..n + 1][..n] == rings[..n];
      }
      assert rings[..rows.Length] == rings;
      EmptyRingsSettle();
    }

    /** Every node's books are the fold of all it ever emitted, whatever the other nodes did. */
    ghost predicate Settled()
      reads Footprint()
    {
      Valid() &&
      forall n :: 0 <= n < rows.Length ==>
        AllOwned(emitted[n], n, partialOn)
        && NodeOf(State(), n, partialOn) == FoldNode(NodeOf(start, n, partialOn), partialOn, n, emitted[n])
    }

    lemma BookedNothing()
      requires Valid()
      ensures BookedSince(State(), |applied|)
    {
      FoldNothing(State(), partialOn);
      assert applied[|applied|..] == [];
    }

    /** Two stretches of bookings are one. */
    lemma BookedChain(before: Ledger, mid: Ledger, k: nat, done: seq<FillEvent>)
      requires Geometry() && k <= |done| && done <= applied && BookedSince(mid, |done|)
      requires Sized(before, partialOn) && |before.rows| == rows.Length && AllPlaced(done[k..], rows.Length, partialOn)
      requires mid == Fold(before, partialOn, done[k..])
      ensures BookedSince(before, k)
    {
      hide Fold, State, Geometry, Sized;
      FoldConcat(before, partialOn, done[k..], applied[|done|..]);
      assert applied[k..] == done[k..] + applied[|done|..];
    }

    lemma EmptyRingsSettle()
      requires Valid() && forall n :: 0 <= n < rows.Length ==> fillRings[n] == []
      ensures Settled()
    {
      hide Fold, OwnFills, FoldNode, NodeOf;
      forall n | 0 <= n < rows.Length
        ensures AllOwned(emitted[n], n, partialOn)
        ensures NodeOf(State(), n, partialOn) == FoldNode(NodeOf(start, n, partialOn), partialOn, n, emitted[n])
      {
        assert RingOk(n);
        assert emitted[n] == OwnFills(applied, n);
        NodeIndependence(start, partialOn, applied, n);
        NodeReadsNoFlag(State(), Fold(start, partialOn, applied), n, partialOn);
      }
    }

    method TryPush(n: nat, fe: FillEvent) returns (ok: bool)
      requires n < fillRings.Length
      modifies fillRings
      ensures ok == (|old(fillRings[n])| < capacity)
      ensures ok ==> fillRings[..] == old(fillRings[..])[n := old(fillRings[n]) + [fe]]
      ensures !ok ==> unchanged(fillRings)
    {
      ok := |fillRings[n]| < capacity;
      if ok {
        fillRings[n] := fillRings[n] + [fe];
      }
    }

    /** One push attempt of a leaf, recorded in the emit history when it succeeds. */
    method TryEmit(fe: FillEvent) returns (ok: bool)
      requires Valid() && Placed(fe, rows.Length, partialOn)
      modifies `emitted, fillRings
      ensures Valid() && ok == (|old(fillRings[fe.node])| < capacity)
      ensures ok ==> emitted == old(emitted)[fe.node := old(emitted)[fe.node] + [fe]]
      ensures !ok ==> emitted == old(emitted) && unchanged(fillRings)
    {
      hide Fold, OwnFills;
      assert RingOk(fe.node);
      ok := TryPush(fe.node, fe);
      if ok {
        emitted := emitted[fe.node := emitted[fe.node] + [fe]];
        forall m | 0 <= m < rows.Length
          ensures RingOk(m)
        {
          assert old(RingOk(m));
        }
      }
    }

    /** The never-drop emit: on a full ring drain everything in the defined order, then push.
        The second push cannot fail, at any capacity of at least one. */
    method FillEmit(fe: FillEvent) returns (ok: bool)
      requires Valid() && Placed(fe, rows.Length, partialOn)
      modifies Footprint()
      ensures Valid() && ok && start == old(start)
      ensures reported == old(reported) && otherOverflow == old(otherOverflow)
      ensures BookedSince(old(State()), |old(applied)|)
      ensures emitted == old(emitted)[fe.node := old(emitted)[fe.node] + [fe]]
      ensures var full := |old(fillRings[fe.node])| >= capacity;
              && fillRingFullEvents == old(fillRingFullEvents) + (if full then 1 else 0)
              && applied == if full then old(applied) + Concat(old(fillRings[..])) else old(applied)
    {
      hide Fold, OwnFills, Concat, Settled, RingOk, State, Booked, AllPlaced;
      BookedNothing();
      ok := TryEmit(fe);
      if !ok {
        assert fillRings[..] == old(fillRings[..]);
        fillRingFullEvents := fillRingFullEvents + 1;
        var _ := FillRingsApply();
        ok := TryEmit(fe);
      }
    }

    // ---- the drainer loop: book, report the money flag, compose ----

    /** Whatever else the thread computes in money may raise the bit too. */
    method OtherMoneyWork(overflows: bool)
      requires Valid()
      modifies `moneyOverflow, `otherOverflow
      ensures Valid() && State() == old(State()).(overflow := old(State()).overflow || overflows)
    {
      hide Fold, Sized, AllPlaced, RingHolds;
      if overflows {
        moneyOverflow, otherOverflow := true, true;
      }
      assert forall n :: 0 <= n < rows.Length ==> old(RingOk(n)) ==> RingOk(n);
    }

    /** The cycle tail: report the bit and arm it again. */
    method ReportMoneyFlag() returns (tripped: bool)
      requires Valid()
      modifies `moneyOverflow, `reported
      ensures Valid() && State() == Cleared(old(State()))
      ensures tripped == old(State()).overflow && reported == (old(reported) || tripped)
    {
      hide Fold, Sized, AllPlaced, RingHolds;
      tripped := moneyOverflow;
      if tripped {
        moneyOverflow, reported := false, true;
      }
      assert forall n :: 0 <= n < rows.Length ==> old(RingOk(n)) ==> RingOk(n);
    }

    /** The leaves of one pass emit in turn. */
    method EmitAll(emits: seq<FillEvent>)
      requires Valid() && AllPlaced(emits, rows.Length, partialOn)
      modifies Footprint()
      ensures Valid() && start == old(start)
      ensures reported == old(reported) && otherOverflow == old(otherOverflow)
      ensures old(applied) <= applied && BookedSince(old(State()), |old(applied)|)
      ensures forall n :: 0 <= n < rows.Length ==> emitted[n] == old(emitted[n]) + OwnFills(emits, n)
    {
      hide Fold, State, Booked, RingOk, Sized, OwnFills, Concat, OwnsSlot;
      BookedNothing();
      NothingEmitted(emits);
      for k := 0 to |emits|
        invariant Valid() && start == old(start)
        invariant reported == old(reported) && otherOverflow == old(otherOverflow)
        invariant old(applied) <= applied && BookedSince(old(State()), |old(applied)|)
        invariant forall n :: 0 <= n < rows.Length ==> emitted[n] == old(emitted[n]) + OwnFills(emits[..k], n)
      {
        EmitNext(emits[k], old(State()), |old(applied)|);
        EmittedOneMore(emits, k);
      }
      assert emits[..|emits|] == emits;
    }

    /** One emit of a pass that began with these books and this many fills applied. */
    method EmitNext(fe: FillEvent, ghost before: Ledger, ghost from: nat)
      requires Valid() && Placed(fe, rows.Length, partialOn)
      requires from <= |applied| && BookedSince(before, from)
      modifies Footprint()
      ensures Valid() && start == old(start)
      ensures reported == old(reported) && otherOverflow == old(otherOverflow)
      ensures old(applied) <= applied && BookedSince(before, from)
      ensures forall n :: 0 <= n < rows.Length ==>
                emitted[n] == old(emitted[n]) + if fe.node == n then [fe] else []
    {
      hide Fold, State, Booked, RingOk, Sized, OwnFills, Concat, OwnsSlot;
      ghost var mid, done := State(), applied;
      var _ := FillEmit(fe);
      BookedChain(before, mid, from, done);
    }

    /** The thread went through this cycle and its tail reported this. */
    ghost predicate RunsAs(before: Ledger, c: Cycle, tripped: bool)
      requires Geometry()
      reads `oms, `engine, `moneyOverflow, rows, slotNotional, pendingTradeNet
    {
      && Sized(before, partialOn) && |before.rows| == rows.Length && CyclePlaced(c, rows.Length, partialOn)
      && RunCycle(before, partialOn, c) == (State(), tripped)
    }

    /** One cycle of the drainer: the pass, the tail, the compose's apply and evaluations. */
    method DrainerCycle(emits: seq<FillEvent>, otherBefore: bool, otherAfter: bool)
        returns (tripped: bool, ghost c: Cycle)
      requires Valid() && AllPlaced(emits, rows.Length, partialOn)
      modifies Footprint()
      ensures Settled() && start == old(start)
      ensures forall n :: 0 <= n < rows.Length ==> fillRings[n] == [] && emitted[n] == old(emitted[n]) + OwnFills(emits, n)
      ensures CyclePlaced(c, rows.Length, partialOn) && applied == old(applied) + c.inlined + c.composed
      ensures c.otherBefore == otherBefore && c.otherAfter == otherAfter
      ensures RunsAs(old(State()), c, tripped)
    {
      hide Fold, State, Booked, RingOk, Sized, OwnFills, Concat, AllPlaced;
      EmitAll(emits);
      ghost var inlined, booked := applied[|old(applied)|..], State();
      OtherMoneyWork(otherBefore);
      tripped := ReportMoneyFlag();
      ghost var tail, done := State(), applied;
      assert tail == Cleared(booked);
      var _ := FillRingsApply();
      c := Cycle(inlined, otherBefore, applied[|done|..], otherAfter);
      ghost var composed := State();
      OtherMoneyWork(otherAfter);
      assert applied == done + c.composed;
      assert composed == Fold(tail, partialOn, c.composed);
      EmptyRingsSettle();
    }

    /** The drainer loop: its reports and its books are those of a run of cycles. */
    method DrainerLoop(passes: seq<Pass>) returns (reports: seq<bool>, ghost cycles: seq<Cycle>)
      requires Valid() && forall i :: 0 <= i < |passes| ==> AllPlaced(passes[i].emits, rows.Length, partialOn)
      modifies Footprint()
      ensures Valid() && start == old(start) && |cycles| == |passes|
      ensures forall i :: 0 <= i < |passes| ==>
                cycles[i].otherBefore == passes[i].otherBefore && cycles[i].otherAfter == passes[i].otherAfter
      ensures RunsAsCycles(old(State()), cycles, reports)
    {
      hide Fold, State, Booked, RingOk, Sized, OwnFills, AllPlaced, RunCycle, CyclePlaced;
      BookedNothing();
      reports, cycles := [], [];
      for k := 0 to |passes|
        invariant Valid() && start == old(start) && |cycles| == k
        invariant forall i :: 0 <= i < k ==>
                    cycles[i].otherBefore == passes[i].otherBefore && cycles[i].otherAfter == passes[i].otherAfter
        invariant RunsAsCycles(old(State()), cycles, reports)
      {
        ghost var before := cycles;
        var tripped, c := DrainerCycle(passes[k].emits, passes[k].otherBefore, passes[k].otherAfter);
        reports, cycles := reports + [tripped], cycles + [c];
        assert cycles[..|cycles| - 1] == before;
      }
    }

    ghost predicate RunsAsCycles(before: Ledger, cycles: seq<Cycle>, reports: seq<bool>)
      requires Geometry()
      reads `oms, `engine, `moneyOverflow, rows, slotNotional, pendingTradeNet
    {
      && Sized(before, partialOn) && |before.rows| == rows.Length && AllCyclesPlaced(cycles, rows.Length, partialOn)
      && Run(before, partialOn, cycles) == (State(), reports)
    }
  }

  lemma BookSnoc(l: Ledger, partialOn: bool, fills: seq<FillEvent>, fe: FillEvent)
    requires Sized(l, partialOn) && AllPlaced(fills, |l.rows|, partialOn) && Placed(fe, |l.rows|, partialOn)
    ensures AllPlaced(fills + [fe], |l.rows|, partialOn)
    ensures Fold(l, partialOn, fills + [fe]) == Book(Fold(l, partialOn, fills), partialOn, fe)
  {
    assert (fills + [fe])[..|fills|] == fills;
  }

  /** What the nodes emitted grows by the next fill of the batch. */
  lemma EmittedOneMore(emits: seq<FillEvent>, k: nat)
    requires k < |emits|
    ensures forall n :: OwnFills(emits[..k + 1], n)
                     == if emits[k].node == n then OwnFills(emits[..k], n) + [emits[k]] else OwnFills(emits[..k], n)
  {
    assert emits[..k + 1] == emits[..k] + [emits[k]];
    forall n
      ensures OwnFills(emits[..k + 1], n)
           == if emits[k].node == n then OwnFills(emits[..k], n) + [emits[k]] else OwnFills(emits[..k], n)
    {
      OwnFillsSnoc(emits[..k], emits[k], n);
    }
  }

  lemma NothingEmitted(emits: seq<FillEvent>)
    ensures forall n :: OwnFills(emits[..0], n) == []
  {
  }

  lemma BookOne(l: Ledger, partialOn: bool, fills: seq<FillEvent>, fe: FillEvent)
    requires Sized(l, partialOn) && Placed(fe, |l.rows|, partialOn)
    ensures AllPlaced((fills + [fe])[|fills|..], |l.rows|, partialOn)
    ensures Fold(l, partialOn, (fills + [fe])[|fills|..]) == Book(l, partialOn, fe)
  {
    BookSnoc(l, partialOn, [], fe);
    FoldNothing(l, partialOn);
    assert (fills + [fe])[|fills|..] == [] + [fe];
  }

  /** One more booking keeps the books the fold of what was applied, and loses no overflow. */
  lemma BookedSnoc(start: Ledger, partialOn: bool, applied: seq<FillEvent>, fe: FillEvent,
                   before: Ledger, reported: bool, other: bool)
    requires Sized(start, partialOn) && AllPlaced(applied, |start.rows|, partialOn) && Placed(fe, |start.rows|, partialOn)
    requires Cleared(before) == Cleared(Fold(start, partialOn, applied))
    requires before.overflow || reported <==> Fold(start, partialOn, applied).overflow || other
    ensures AllPlaced(applied + [fe], |start.rows|, partialOn)
    ensures var after, whole := Book(before, partialOn, fe), Fold(start, partialOn, applied + [fe]);
            Cleared(after) == Cleared(whole) && (after.overflow || reported <==> whole.overflow || other)
  {
    hide Fold, Book, AllPlaced, Placed;
    BookSnoc(start, partialOn, applied, fe);
    BookReadsNoFlag(before, partialOn, fe);
    BookReadsNoFlag(Fold(start, partialOn, applied), partialOn, fe);
  }
}
