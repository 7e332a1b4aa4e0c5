/** The event pump: trade events leave each node's ring in bounded batches, are mapped to a
    portfolio slot, given a quantity (entries split between legs A and B), and handed to the
    per-slot submit queues. */
module EventPump {
  import opened Decimal
  import opened Wrappers
  import FillBooking

  const MAX_EVENTS_PER_NODE: nat := 16

  datatype TradeEvent = TradeEvent(isEntry: bool, isExit: bool, leg: nat, price: Money)

  datatype Command = Command(slot: nat, isBuy: bool, qty: Money, leg: nat, price: Money)

  /** What the pump reads while it drains: the partial-exit switch, the slot count, the intended
      quantity and split fraction of each node, and the quantity held in each slot. */
  datatype Books = Books(partialOn: bool, slots: nat, intended: seq<Money>, pct: seq<Money>, held: seq<Money>)

  /** The portfolio slot of a leg; none for a leg the mode does not have or a slot off the end. */
  function LegSlot(node: nat, leg: nat, b: Books): Option<nat> {
    if !b.partialOn then (if leg == 0 then Some(node) else None)
    else if leg > 1 || 2 * node + leg >= b.slots then None
    else Some(2 * node + leg)
  }

  function LegA(intended: Money, pct: Money): Money {
    Mul(intended, pct)
  }

  /** The remainder form: never a second rounded product. */
  function LegB(intended: Money, pct: Money): Money {
    Sub(intended, LegA(intended, pct))
  }

  predicate Sized(b: Books) {
    |b.intended| == |b.pct| && |b.held| == b.slots && |b.intended| <= b.slots
  }

  function OrderQty(node: nat, slot: nat, ev: TradeEvent, b: Books): Money
    requires Sized(b) && node < |b.intended| && slot < b.slots
  {
    if ev.isExit then b.held[slot]
    else if !ev.isEntry then 0
    else if b.partialOn && ev.leg == 0 then LegA(b.intended[node], b.pct[node])
    else if b.partialOn && ev.leg == 1 then LegB(b.intended[node], b.pct[node])
    else b.intended[node]
  }

  /** The command an event becomes; malformed events and empty quantities become none. */
  function CommandOf(node: nat, ev: TradeEvent, b: Books): Option<Command>
    requires Sized(b) && node < |b.intended|
  {
    match LegSlot(node, ev.leg, b)
    case None => None
    case Some(slot) =>
      if (ev.isEntry || ev.isExit) && OrderQty(node, slot, ev, b) > 0
      then Some(Command(slot, ev.isEntry, OrderQty(node, slot, ev, b), ev.leg, ev.price))
      else None
  }

  function Commands(node: nat, events: seq<TradeEvent>, b: Books): seq<Command>
    requires Sized(b) && node < |b.intended|
  {
    if events == [] then []
    else
      var k := |events| - 1;
      var cmd := CommandOf(node, events[k], b);
      Commands(node, events[..k], b) + if cmd.Some? then [cmd.value] else []
  }

  /** Events that map to a slot, submitted or not. */
  function WellFormed(node: nat, events: seq<TradeEvent>, b: Books): nat {
    if events == [] then 0
    else
      var k := |events| - 1;
      WellFormed(node, events[..k], b) + if LegSlot(node, events[k].leg, b).Some? then 1 else 0
  }

  /** How many events one call takes from a ring. */
  function Batch(ring: seq<TradeEvent>, hasCore: bool): nat {
    if !hasCore then 0 else if |ring| < MAX_EVENTS_PER_NODE then |ring| else MAX_EVENTS_PER_NODE
  }

  function AllCommands(rings: seq<seq<TradeEvent>>, hasCore: seq<bool>, n: nat, b: Books): seq<Command>
    requires Sized(b) && n <= |rings| == |hasCore| && n <= |b.intended|
  {
    if n == 0 then []
    else AllCommands(rings, hasCore, n - 1, b) + Commands(n - 1, rings[n - 1][..Batch(rings[n - 1], hasCore[n - 1])], b)
  }

  function AllWellFormed(rings: seq<seq<TradeEvent>>, hasCore: seq<bool>, n: nat, b: Books): nat
    requires n <= |rings| == |hasCore|
  {
    if n == 0 then 0
    else AllWellFormed(rings, hasCore, n - 1, b) + WellFormed(n - 1, rings[n - 1][..Batch(rings[n - 1], hasCore[n - 1])], b)
  }

  function ForSlot(cmds: seq<Command>, slot: nat): seq<Command> {
    if cmds == [] then []
    else
      var k := |cmds| - 1;
      ForSlot(cmds[..k], slot) + if cmds[k].slot == slot then [cmds[k]] else []
  }

  /** A bounded queue offered a run of commands keeps them until it is full. */
  function Offer(q: seq<Command>, cmds: seq<Command>, capacity: nat): seq<Command> {
    if cmds == [] then q
    else
      var k := |cmds| - 1;
      var r := Offer(q, cmds[..k], capacity);
      if |r| < capacity then r + [cmds[k]] else r
  }

  /** What a queue keeps is a prefix of what it was offered, cut only by its capacity. */
  lemma OfferKeepsPrefix(q: seq<Command>, cmds: seq<Command>, capacity: nat)
    requires |q| <= capacity
    ensures var room := capacity - |q|;
            Offer(q, cmds, capacity) == q + cmds[..if |cmds| < room then |cmds| else room]
  {
    if cmds != [] {
      OfferKeepsPrefix(q, cmds[..|cmds| - 1], capacity);
    }
  }

  // ---- properties of the split and the mapping ----

  /** For a fraction in [0, 1] both legs lie inside the intended quantity and add up to it
      exactly, whatever the product rounds to. */
  lemma SplitConserves(intended: Money, pct: Money)
    requires 0 <= intended && 0 <= pct <= SCALE
    ensures 0 <= LegA(intended, pct) <= intended && 0 <= LegB(intended, pct) <= intended
    ensures LegA(intended, pct) + LegB(intended, pct) == intended
  {
    hide Mul;
    FractionStaysInside(intended, pct);
  }

  /** The slot an order is submitted for is the one its fill is booked on, leg for leg. */
  lemma SlotsAreTheBooks(node: nat, leg: nat, slot: nat, b: Books)
    ensures LegSlot(node, leg, b) == Some(slot)
       <==> if b.partialOn then leg < 2 && slot == 2 * node + leg && slot < b.slots else leg == 0 && slot == node
    ensures LegSlot(node, leg, b) == Some(slot)
       <==> && FillBooking.OwnsSlot(node, slot, b.partialOn) && (b.partialOn ==> slot < b.slots)
            && leg == slot - FillBooking.FirstSlot(node, b.partialOn)
  {
  }

  /** Leg A is the product rounded once, half to even. */
  lemma LegAIsNearest(intended: Money, pct: Money)
    requires 0 <= intended && 0 <= pct <= SCALE
    ensures NearestEven(LegA(intended, pct), intended * pct, SCALE)
  {
    FractionStaysInside(intended, pct);
    RoundDivExact(intended * pct, SCALE, LegA(intended, pct));
    hide RoundDiv, NearestEven;
  }

  /** What the pump orders for the two entry events of one node: together exactly the intended
      quantity, each within it, and with partial exits off the first alone is all of it. */
  lemma EntryLegsAddUp(node: nat, slot: nat, slot': nat, a: TradeEvent, b: TradeEvent, books: Books)
    requires Sized(books) && node < |books.intended| && slot < books.slots && slot' < books.slots
    requires a.isEntry && !a.isExit && a.leg == 0 && b.isEntry && !b.isExit && b.leg == 1
    requires 0 <= books.intended[node] && 0 <= books.pct[node] <= SCALE
    ensures var p, q, all := OrderQty(node, slot, a, books), OrderQty(node, slot', b, books), books.intended[node];
            && 0 <= p <= all && 0 <= q <= all
            && if books.partialOn then p + q == all else p == all && LegSlot(node, b.leg, books).None?
  {
    hide LegA, LegB;
    SplitConserves(books.intended[node], books.pct[node]);
  }

  /** Rounding both legs independently would not conserve: half of one unit rounds to zero twice. */
  lemma TwoProductsWouldLeak()
    ensures Mul(1, SCALE / 2) + Mul(1, SCALE - SCALE / 2) != 1
  {
    assert RoundDiv(50_000_000, SCALE) == 0;
  }

  lemma SlotsAreDistinct(n: nat, leg: nat, m: nat, leg': nat, b: Books)
    requires LegSlot(n, leg, b).Some? && LegSlot(n, leg, b) == LegSlot(m, leg', b)
    ensures n == m && leg == leg'
  {
  }

  /** Whatever is submitted has a positive quantity, an owned slot, and comes from the events. */
  lemma CommandsArePositive(node: nat, events: seq<TradeEvent>, b: Books, i: nat)
    requires Sized(b) && node < |b.intended| && i < |Commands(node, events, b)|
    ensures var c := Commands(node, events, b)[i];
            c.qty > 0 && LegSlot(node, c.leg, b) == Some(c.slot)
            && exists ev :: ev in events && CommandOf(node, ev, b) == Some(c)
  {
    var k := |events| - 1;
    if i < |Commands(node, events[..k], b)| {
      CommandsArePositive(node, events[..k], b, i);
      var ev :| ev in events[..k] && CommandOf(node, ev, b) == Some(Commands(node, events, b)[i]);
      assert ev in events;
    } else {
      assert events[k] in events;
    }
  }

  /** The command answers the event: same leg and price, the slot of the leg, a buy exactly for an
      entry, and a positive quantity: what the slot holds for an exit, the leg's share for an entry. */
  ghost predicate Answers(node: nat, ev: TradeEvent, b: Books, c: Command)
    requires Sized(b) && node < |b.intended|
  {
    && (ev.isEntry || ev.isExit) && c.qty > 0
    && c.leg == ev.leg && c.price == ev.price && (c.isBuy <==> ev.isEntry)
    && c.slot < b.slots
    && (if b.partialOn then ev.leg <= 1 && c.slot == 2 * node + ev.leg else ev.leg == 0 && c.slot == node)
    && c.qty == if ev.isExit then b.held[c.slot]
                else if !b.partialOn then b.intended[node]
                else if ev.leg == 0 then Mul(b.intended[node], b.pct[node])
                else Sub(b.intended[node], Mul(b.intended[node], b.pct[node]))
  }

  lemma CommandAnswers(node: nat, ev: TradeEvent, b: Books)
    requires Sized(b) && node < |b.intended|
    ensures forall c :: Answers(node, ev, b, c) <==> CommandOf(node, ev, b) == Some(c)
  {
    hide Mul, Sub;
  }

  ghost predicate InOrder(at: seq<nat>, n: nat) {
    (forall i :: 0 <= i < |at| ==> at[i] < n) && (forall i, j :: 0 <= i < j < |at| ==> at[i] < at[j])
  }

  /** The commands of a batch are exactly the answers to its events, in order: one for every event
      that has an answer, none for the others. */
  lemma {:induction false} CommandsExactly(node: nat, events: seq<TradeEvent>, b: Books) returns (at: seq<nat>)
    requires Sized(b) && node < |b.intended|
    ensures |at| == |Commands(node, events, b)| && InOrder(at, |events|)
    ensures forall i :: 0 <= i < |at| ==> Answers(node, events[at[i]], b, Commands(node, events, b)[i])
    ensures forall k :: 0 <= k < |events| && k !in at ==> forall c :: !Answers(node, events[k], b, c)
  {
    hide Answers, CommandOf;
    at := [];
    if events != [] {
      var k := |events| - 1;
      at := CommandsExactly(node, events[..k], b);
      CommandAnswers(node, events[k], b);
      if CommandOf(node, events[k], b).Some? {
        var before := at;
        at := at + [k];
        assert forall m :: m in at <==> m in before || m == k;
      }
    }
  }

  /** Order-preserving: the commands of a batch are the commands of its parts, one after the other. */
  lemma {:induction false} CommandsConcat(node: nat, a: seq<TradeEvent>, b: seq<TradeEvent>, books: Books)
    requires Sized(books) && node < |books.intended|
    ensures Commands(node, a + b, books) == Commands(node, a, books) + Commands(node, b, books)
    ensures WellFormed(node, a + b, books) == WellFormed(node, a, books) + WellFormed(node, b, books)
  {
    hide CommandOf, LegSlot;
    if b == [] {
      assert a + b == a;
    } else {
      var k := |b| - 1;
      assert (a + b)[..|a| + k] == a + b[..k] && (a + b)[|a| + k] == b[k];
      CommandsConcat(node, a, b[..k], books);
    }
  }

  /** The slot's share of a run of commands: its own, all of them, in order. */
  lemma {:induction false} ForSlotIsTheFilter(cmds: seq<Command>, slot: nat) returns (at: seq<nat>)
    ensures |at| == |ForSlot(cmds, slot)| && InOrder(at, |cmds|)
    ensures forall i :: 0 <= i < |at| ==> ForSlot(cmds, slot)[i] == cmds[at[i]] && cmds[at[i]].slot == slot
    ensures forall k :: 0 <= k < |cmds| && k !in at ==> cmds[k].slot != slot
  {
    at := [];
    if cmds != [] {
      var k := |cmds| - 1;
      at := ForSlotIsTheFilter(cmds[..k], slot);
      if cmds[k].slot == slot {
        var before := at;
        at := at + [k];
        assert forall m :: m in at <==> m in before || m == k;
      }
    }
  }

  /** The places of the events whose leg has a slot. */
  function Slotted(node: nat, events: seq<TradeEvent>, b: Books): set<nat> {
    set k: nat | k < |events| && (if b.partialOn then events[k].leg <= 1 && 2 * node + events[k].leg < b.slots
                                  else events[k].leg == 0)
  }

  /** Those are the events that are counted. */
  lemma {:induction false} WellFormedCounts(node: nat, events: seq<TradeEvent>, b: Books)
    ensures WellFormed(node, events, b) == |Slotted(node, events, b)|
  {
    if events != [] {
      var k := |events| - 1;
      WellFormedCounts(node, events[..k], b);
      var front, all := Slotted(node, events[..k], b), Slotted(node, events, b);
      assert all == if k in all then front + {k} else front;
    }
  }

  /** The commands of a call are those of the nodes one after the other: node m contributes, at the
      place the nodes before it leave off, the commands of its first sixteen events. */
  lemma {:induction false} NodeBatches(rings: seq<seq<TradeEvent>>, hasCore: seq<bool>, n: nat, m: nat, b: Books)
    requires Sized(b) && m < n <= |rings| == |hasCore| && n <= |b.intended|
    ensures AllCommands(rings, hasCore, m + 1, b) <= AllCommands(rings, hasCore, n, b)
    ensures var ring := rings[m];
            var batch := if !hasCore[m] then [] else if |ring| < 16 then ring else ring[..16];
            && AllCommands(rings, hasCore, m + 1, b) == AllCommands(rings, hasCore, m, b) + Commands(m, batch, b)
            && AllWellFormed(rings, hasCore, m + 1, b) == AllWellFormed(rings, hasCore, m, b) + WellFormed(m, batch, b)
    ensures AllCommands(rings, hasCore, 0, b) == [] && AllWellFormed(rings, hasCore, 0, b) == 0
  {
    hide Commands, WellFormed;
    var ring := rings[m];
    assert ring[..Batch(ring, hasCore[m])] == if !hasCore[m] then [] else if |ring| < 16 then ring else ring[..16];
    if m + 1 < n { NodeBatches(rings, hasCore, n - 1, m, b); }
  }

  lemma OfferSnoc(q: seq<Command>, cmds: seq<Command>, cmd: Command, slot: nat, capacity: nat)
    ensures var before := Offer(q, ForSlot(cmds, slot), capacity);
            Offer(q, ForSlot(cmds + [cmd], slot), capacity)
            == if cmd.slot == slot && |before| < capacity then before + [cmd] else before
  {
    assert (cmds + [cmd])[..|cmds|] == cmds;
    if cmd.slot == slot {
      var all := ForSlot(cmds + [cmd], slot);
      assert all[..|all| - 1] == ForSlot(cmds, slot);
    } else {
      assert ForSlot(cmds + [cmd], slot) == ForSlot(cmds, slot);
    }
  }

  class Pump {
    const rings: array<seq<TradeEvent>>
    const hasCore: array<bool>
    const queues: array<seq<Command>>
    const queueCapacity: nat
    // What the queues held when the record began, and every command handed to them since.
    ghost var base: seq<seq<Command>>
    ghost var handed: seq<Command>

    ghost predicate Valid()
      reads `base, `handed, queues
    {
      && hasCore.Length == rings.Length && |base| == queues.Length
      && forall s :: 0 <= s < queues.Length ==> queues[s] == Offer(base[s], ForSlot(handed, s), queueCapacity)
    }

    constructor (slots: nat, queueCapacity: nat, present: seq<bool>)
      ensures Valid() && fresh(rings) && fresh(queues) && handed == []
      ensures rings.Length == |present| && queues.Length == slots && this.queueCapacity == queueCapacity
      ensures hasCore[..] == present && forall n :: 0 <= n < rings.Length ==> rings[n] == []
    {
      rings := new seq<TradeEvent>[|present|](_ => []);
      hasCore := new bool[|present|](n requires 0 <= n < |present| => present[n]);
      queues := new seq<Command>[slots](_ => []);
      this.queueCapacity := queueCapacity;
      base, handed := seq(slots, _ => []), [];
      new;
      assert hasCore[..] == present;
    }

    /** Push one command on its slot's queue; a full queue drops it. */
    method PushSubmit(cmd: Command) returns (pushed: bool)
      requires Valid() && cmd.slot < queues.Length
      modifies queues, `handed
      ensures Valid() && handed == old(handed) + [cmd]
      ensures pushed == (|old(queues[cmd.slot])| < queueCapacity)
      ensures queues[cmd.slot] == if pushed then old(queues[cmd.slot]) + [cmd] else old(queues[cmd.slot])
      ensures forall s :: 0 <= s < queues.Length && s != cmd.slot ==> queues[s] == old(queues[s])
    {
      pushed := |queues[cmd.slot]| < queueCapacity;
      if pushed {
        queues[cmd.slot] := queues[cmd.slot] + [cmd];
      }
      forall s | 0 <= s < queues.Length
        ensures queues[s] == Offer(base[s], ForSlot(handed + [cmd], s), queueCapacity)
      {
        OfferSnoc(base[s], handed, cmd, s, queueCapacity);
      }
      handed := handed + [cmd];
    }

    /** The quantity of one event: the held quantity on an exit, the leg's share on an entry. */
    method Quantity(n: nat, slot: nat, ev: TradeEvent, b: Books) returns (qty: Money)
      requires Sized(b) && n < |b.intended| && slot < b.slots
      ensures qty == OrderQty(n, slot, ev, b)
    {
      qty := 0;
      if ev.isExit {
        qty := b.held[slot];
      } else if ev.isEntry {
        var intended := b.intended[n];
        var legA := Mul(intended, b.pct[n]);
        if b.partialOn && ev.leg == 0 {
          qty := legA;
        } else if b.partialOn && ev.leg == 1 {
          qty := Sub(intended, legA);
        } else {
          qty := intended;
        }
      }
    }

    /** One event: dropped when it maps to no slot, counted otherwise, submitted when its
        quantity is positive. */
    method HandleEvent(n: nat, ev: TradeEvent, b: Books) returns (counted: bool)
      requires Valid() && Sized(b) && n < |b.intended| && queues.Length == b.slots
      modifies queues, `handed
      ensures Valid() && counted == LegSlot(n, ev.leg, b).Some?
      ensures var cmd := CommandOf(n, ev, b);
              handed == if cmd.Some? then old(handed) + [cmd.value] else old(handed)
    {
      hide OrderQty;
      var slot := LegSlot(n, ev.leg, b);
      counted := slot.Some?;
      if slot.None? { return; }
      var qty := Quantity(n, slot.value, ev, b);
      if (ev.isEntry || ev.isExit) && qty > 0 {
        var _ := PushSubmit(Command(slot.value, ev.isEntry, qty, ev.leg, ev.price));
      }
    }

    /** One node's batch: at most sixteen events leave the ring, oldest first. */
    method DrainNode(n: nat, b: Books) returns (count: nat)
      requires Valid() && Sized(b) && n < rings.Length == |b.intended| && queues.Length == b.slots
      modifies rings, queues, `handed
      ensures Valid()
      ensures var batch := old(rings[n])[..Batch(old(rings[n]), hasCore[n])];
              && handed == old(handed) + Commands(n, batch, b)
              && count == WellFormed(n, batch, b)
      ensures rings[n] == old(rings[n])[Batch(old(rings[n]), hasCore[n])..]
      ensures forall m :: 0 <= m < rings.Length && m != n ==> rings[m] == old(rings[m])
    {
      hide CommandOf, LegSlot, Offer, ForSlot;
      count := 0;
      if !hasCore[n] { return; }
      ghost var ring := rings[n];
      var i := 0;
      while i < MAX_EVENTS_PER_NODE
        invariant Valid()
        invariant 0 <= i <= MAX_EVENTS_PER_NODE && i <= |ring|
        invariant rings[n] == ring[i..]
        invariant forall m :: 0 <= m < rings.Length && m != n ==> rings[m] == old(rings[m])
        invariant handed == old(handed) + Commands(n, ring[..i], b) && count == WellFormed(n, ring[..i], b)
      {
        if rings[n] == [] { break; }
        var ev := rings[n][0];
        rings[n] := rings[n][1..];
        assert ring[..i + 1][..i] == ring[..i] && ev == ring[i];
        i := i + 1;
        var counted := HandleEvent(n, ev, b);
        if counted { count := count + 1; }
      }
    }

    /** One call of the pump over all nodes, in node order. */
    method DrainEventsAndSubmit(b: Books) returns (drained: nat)
      requires Valid() && Sized(b) && rings.Length == |b.intended| && queues.Length == b.slots
      modifies rings, queues, `handed
      ensures Valid()
      ensures drained == AllWellFormed(old(rings[..]), hasCore[..], rings.Length, b)
      ensures handed == old(handed) + AllCommands(old(rings[..]), hasCore[..], rings.Length, b)
      ensures forall n :: 0 <= n < rings.Length ==> rings[n] == old(rings[n])[Batch(old(rings[n]), hasCore[n])..]
    {
      hide Commands, WellFormed, Offer, ForSlot;
      drained := 0;
      ghost var before, cores := rings[..], hasCore[..];
      for n := 0 to rings.Length
        invariant Valid()
        invariant drained == AllWellFormed(before, cores, n, b)
        invariant handed == old(handed) + AllCommands(before, cores, n, b)
        invariant forall m :: 0 <= m < n ==> rings[m] == before[m][Batch(before[m], cores[m])..]
        invariant forall m :: n <= m < rings.Length ==> rings[m] == before[m]
      {
        var k := DrainNode(n, b);
        drained := drained + k;
      }
    }
  }
}
