/** The kill machine the composer runs after booking: pending resets, then trip requests, then
    the per-node drawdown evaluation, then the account-level evaluation, then the published
    kill word. */
module KillMachine {
  import opened Decimal
  import FillBooking
  import FillLedger

  const MAX_NODES: nat := 16

  datatype NodeKill = NodeKill(tripped: bool, peak: Money, dd: Money, trips: nat)

  /** What one compose knows of a node: its allocation, its current value, its threshold. */
  datatype Mark = Mark(alloc: Money, value: Money, threshold: Money)

  datatype NodeInput = NodeInput(reset: bool, tripRequest: bool, mark: Mark)

  datatype KillConfig = KillConfig(
    maxDrawdownPct: Money, nodeDrawdownPct: seq<Money>, minKillLoss: Money,
    ksMinBalance: Money, ksMaxDrawdownPct: Money)

  // ---- one node, one compose ----

  function Reset(k: NodeKill): NodeKill {
    k.(tripped := false, peak := 0, dd := 0)
  }

  function Trip(k: NodeKill): NodeKill {
    if k.tripped then k else k.(tripped := true, trips := k.trips + 1)
  }

  function Drop(k: NodeKill, m: Mark): Money {
    Sub(k.peak, m.value)
  }

  function Drawdown(k: NodeKill, m: Mark): Money {
    if Drop(k, m) > 0 && k.peak > 0 then Div(Drop(k, m), k.peak) else 0
  }

  function RaisePeak(k: NodeKill, m: Mark): NodeKill {
    k.(peak := Max(if k.peak == 0 then m.alloc else k.peak, m.value))
  }

  predicate Breached(k: NodeKill, m: Mark, minLoss: Money) {
    k.dd > m.threshold && Drop(k, m) > minLoss
  }

  function Evaluate(k: NodeKill, m: Mark, minLoss: Money): NodeKill {
    var raised := RaisePeak(k, m);
    var marked := raised.(dd := Drawdown(raised, m));
    if Breached(marked, m, minLoss) then Trip(marked) else marked
  }

  function AfterReset(k: NodeKill, inp: NodeInput): NodeKill {
    if inp.reset then Reset(k) else k
  }

  function ComposeNode(k: NodeKill, inp: NodeInput, minLoss: Money): NodeKill {
    var cleared := AfterReset(k, inp);
    Evaluate(if inp.tripRequest then Trip(cleared) else cleared, inp.mark, minLoss)
  }

  /** After a compose an untripped node is not in breach, the peak covers the value, a request
      wins over a reset, and only a reset clears the flag. */
  lemma ComposeNodeSafe(k: NodeKill, inp: NodeInput, minLoss: Money)
    ensures var r := ComposeNode(k, inp, minLoss);
            && (r.tripped || !Breached(r, inp.mark, minLoss))
            && r.peak >= inp.mark.value
            && (inp.tripRequest ==> r.tripped)
            && (k.tripped && !inp.reset ==> r.tripped)
            && (inp.reset && inp.tripRequest ==> r.trips == k.trips + 1)
  {
  }

  /** The trip flag is raised exactly by a standing trip, a request, or a breach of the two
      thresholds measured against the raised peak. */
  lemma TrippedExactly(k: NodeKill, inp: NodeInput, minLoss: Money)
    ensures var r := ComposeNode(k, inp, minLoss);
            r.tripped <==> (k.tripped && !inp.reset) || inp.tripRequest || Breached(r, inp.mark, minLoss)
  {
  }

  /** The verdict in amounts: a node that is let through has its drawdown within the threshold or has
      lost no more than the minimum loss; and a node that neither stood tripped nor was asked to trip
      is killed if and only if it is over both. */
  lemma NodeVerdict(k: NodeKill, inp: NodeInput, minLoss: Money)
    ensures var r := ComposeNode(k, inp, minLoss);
            && r.dd == (if Sub(r.peak, inp.mark.value) > 0 && r.peak > 0 then Div(Sub(r.peak, inp.mark.value), r.peak) else 0)
            && (!r.tripped ==> r.dd <= inp.mark.threshold || Sub(r.peak, inp.mark.value) <= minLoss)
            && ((inp.reset || !k.tripped) && !inp.tripRequest ==>
                  (r.tripped <==> r.dd > inp.mark.threshold && Sub(r.peak, inp.mark.value) > minLoss))
  {
    hide Div, Sub, Max;
  }

  /** Half of the peak is lost, a tenth is allowed: the node is killed.  A loss within the minimum is
      not, however large its share. */
  lemma LargeLossKills(k: NodeKill, minLoss: Money)
    requires k == NodeKill(false, 100 * SCALE, 0, 0) && 0 <= minLoss
    ensures ComposeNode(k, NodeInput(false, false, Mark(100 * SCALE, 50 * SCALE, SCALE / 10)), minLoss).tripped
       <==> minLoss < 50 * SCALE
  {
    assert RoundDiv(50 * SCALE * SCALE, 100 * SCALE) == SCALE / 2;
  }

  /** Between resets the peak can fall in one case only: it stood at zero, the "unset" marker,
      and both the allocation and the value are negative. */
  lemma PeakFallsExactly(k: NodeKill, inp: NodeInput, minLoss: Money)
    requires !inp.reset
    ensures ComposeNode(k, inp, minLoss).peak < k.peak
       <==> k.peak == 0 && inp.mark.alloc < 0 && inp.mark.value < 0
  {
  }

  /** The peak is the higher of the value and what it stood at: the allocation after a reset, or where it
      was never set. */
  lemma PeakIsTheHigher(k: NodeKill, inp: NodeInput, minLoss: Money)
    ensures var r := ComposeNode(k, inp, minLoss);
            var before := if inp.reset || k.peak == 0 then inp.mark.alloc else k.peak;
            r.peak >= before && r.peak >= inp.mark.value && (r.peak == before || r.peak == inp.mark.value)
  {
    hide Div, Sub;
  }

  /** The threshold compares the rounded ratio: dd is the nearest-even 8-decimal quotient of drop
      by peak, for every drop and peak whose quotient stays in the money domain. */
  lemma DrawdownIsNearest(k: NodeKill, m: Mark)
    requires Drop(k, m) > 0 && k.peak > 0
    ensures Drawdown(k, m) < MONEY_MAX ==> NearestEven(Drawdown(k, m), Drop(k, m) * SCALE, k.peak)
  {
    RoundDivExact(Drop(k, m) * SCALE, k.peak, Drawdown(k, m));
  }

  // ---- runs of composes ----

  function Run(k: NodeKill, inputs: seq<NodeInput>, minLoss: Money): NodeKill
    decreases |inputs|
  {
    if inputs == [] then k else Run(ComposeNode(k, inputs[0], minLoss), inputs[1..], minLoss)
  }

  /** The values the flag takes inside the run: after each reset step, and after each compose. */
  function FlagTrace(k: NodeKill, inputs: seq<NodeInput>, minLoss: Money): seq<bool>
    decreases |inputs|
  {
    if inputs == [] then []
    else
      var r := ComposeNode(k, inputs[0], minLoss);
      [AfterReset(k, inputs[0]).tripped, r.tripped] + FlagTrace(r, inputs[1..], minLoss)
  }

  function RisingEdges(before: bool, trace: seq<bool>): nat
    decreases |trace|
  {
    if trace == [] then 0
    else (if !before && trace[0] then 1 else 0) + RisingEdges(trace[0], trace[1..])
  }

  /** trips_total counts the 0-to-1 edges of the flag, no more and no fewer, over any run. */
  lemma {:induction false} TripsCountEdges(k: NodeKill, inputs: seq<NodeInput>, minLoss: Money)
    ensures Run(k, inputs, minLoss).trips == k.trips + RisingEdges(k.tripped, FlagTrace(k, inputs, minLoss))
    decreases |inputs|
  {
    if inputs != [] {
      var cleared, r := AfterReset(k, inputs[0]), ComposeNode(k, inputs[0], minLoss);
      var rest := FlagTrace(r, inputs[1..], minLoss);
      TripsCountEdges(r, inputs[1..], minLoss);
      EdgesOfTwo(k.tripped, cleared.tripped, r.tripped, rest);
      hide RisingEdges;
      assert r.trips == k.trips + (if !cleared.tripped && r.tripped then 1 else 0);
    }
  }

  lemma EdgesOfTwo(before: bool, first: bool, second: bool, rest: seq<bool>)
    ensures RisingEdges(before, [first, second] + rest)
         == (if !before && first then 1 else 0) + (if !first && second then 1 else 0) + RisingEdges(second, rest)
  {
    var trace := [first, second] + rest;
    assert trace[1..] == [second] + rest && trace[1..][1..] == rest;
  }

  /** With non-negative allocations, over any run without a reset the peak never falls and ends
      at or above every value it was shown; the trip flag never clears. */
  lemma {:induction false} RunPeakCovers(k: NodeKill, inputs: seq<NodeInput>, minLoss: Money)
    requires forall i :: 0 <= i < |inputs| ==> !inputs[i].reset && inputs[i].mark.alloc >= 0
    ensures var r := Run(k, inputs, minLoss);
            && r.peak >= k.peak && (k.tripped ==> r.tripped)
            && forall i :: 0 <= i < |inputs| ==> r.peak >= inputs[i].mark.value
    decreases |inputs|
  {
    if inputs != [] {
      PeakFallsExactly(k, inputs[0], minLoss);
      ComposeNodeSafe(k, inputs[0], minLoss);
      hide ComposeNode;
      RunPeakCovers(ComposeNode(k, inputs[0], minLoss), inputs[1..], minLoss);
      assert forall i :: 1 <= i < |inputs| ==> inputs[i] == inputs[1..][i - 1];
    }
  }

  /** Over any run without a reset, from a peak that is set, the peak at the end is the highest of it and
      of all the values shown. */
  lemma {:induction false} RunPeakIsTheHighest(k: NodeKill, inputs: seq<NodeInput>, minLoss: Money)
    requires k.peak > 0 && forall i :: 0 <= i < |inputs| ==> !inputs[i].reset
    ensures var peak := Run(k, inputs, minLoss).peak;
            && peak >= k.peak && (forall i :: 0 <= i < |inputs| ==> peak >= inputs[i].mark.value)
            && (peak == k.peak || exists i :: 0 <= i < |inputs| && peak == inputs[i].mark.value)
    decreases |inputs|
  {
    if inputs != [] {
      PeakIsTheHigher(k, inputs[0], minLoss);
      hide ComposeNode;
      RunPeakIsTheHighest(ComposeNode(k, inputs[0], minLoss), inputs[1..], minLoss);
      assert forall i :: 1 <= i < |inputs| ==> inputs[i] == inputs[1..][i - 1];
    }
  }

  /** Every allocation the engine writes, at boot and at reload, is floored at one whole unit. */
  const MIN_ALLOCATION: Money := SCALE

  predicate Allocated(inputs: seq<NodeInput>) {
    forall i :: 0 <= i < |inputs| ==> inputs[i].mark.alloc >= MIN_ALLOCATION
  }

  lemma {:induction false} RunSnoc(k: NodeKill, inputs: seq<NodeInput>, j: nat, minLoss: Money)
    requires j < |inputs|
    ensures Run(k, inputs[..j + 1], minLoss) == ComposeNode(Run(k, inputs[..j], minLoss), inputs[j], minLoss)
    decreases |inputs|
  {
    hide ComposeNode;
    assert inputs[..j + 1][1..] == inputs[1..][..j];
    if j > 0 {
      assert inputs[..j][1..] == inputs[1..][..j - 1];
      RunSnoc(ComposeNode(k, inputs[0], minLoss), inputs[1..], j - 1, minLoss);
    } else {
      assert inputs[..1][1..] == [];
    }
  }

  /** With the allocations the engine makes, after every compose of every run, resets included, the
      peak is positive and covers the value shown, so the drawdown is a real quotient; and the
      peak falls in no compose but one that resets the node. */
  lemma EnginePeaksNeverFall(k: NodeKill, inputs: seq<NodeInput>, j: nat, minLoss: Money)
    requires k.peak >= 0 && Allocated(inputs) && j < |inputs|
    ensures var before, after := Run(k, inputs[..j], minLoss), Run(k, inputs[..j + 1], minLoss);
            && after.peak > 0 && after.peak >= inputs[j].mark.value
            && (!inputs[j].reset ==> after.peak >= before.peak)
            && (inputs[j].reset ==> after.peak == Max(inputs[j].mark.alloc, inputs[j].mark.value))
            && after.dd == (if Drop(after, inputs[j].mark) > 0 then Div(Drop(after, inputs[j].mark), after.peak) else 0)
    decreases j
  {
    if j > 0 {
      EnginePeaksNeverFall(k, inputs, j - 1, minLoss);
    }
    RunSnoc(k, inputs, j, minLoss);
    hide Run;
    PeakOfCompose(Run(k, inputs[..j], minLoss), inputs[j], minLoss);
  }

  lemma PeakOfCompose(k: NodeKill, inp: NodeInput, minLoss: Money)
    requires k.peak >= 0 && inp.mark.alloc >= MIN_ALLOCATION
    ensures var r := ComposeNode(k, inp, minLoss);
            && r.peak > 0 && r.peak >= inp.mark.value
            && (!inp.reset ==> r.peak >= k.peak)
            && (inp.reset ==> r.peak == Max(inp.mark.alloc, inp.mark.value))
            && r.dd == (if Drop(r, inp.mark) > 0 then Div(Drop(r, inp.mark), r.peak) else 0)
  {
    hide Div;
  }

  // ---- the account level ----

  /** A balance below the floor, or a drawdown from the peak above the limit; zero disables. */
  predicate AccountBreached(o: FillBooking.Oms, cfg: KillConfig) {
    || (cfg.ksMinBalance != 0 && o.balance < cfg.ksMinBalance)
    || (cfg.ksMaxDrawdownPct != 0 && o.ksPeak != 0 && Sub(o.ksPeak, o.balance) > 0
        && Div(Sub(o.ksPeak, o.balance), o.ksPeak) > cfg.ksMaxDrawdownPct)
  }

  /** The account verdict in amounts: the balance is below a floor that is set, or a limit is set and
      the nearest-even quotient of the drop by a positive peak is above it. */
  lemma AccountVerdict(o: FillBooking.Oms, cfg: KillConfig) returns (dd: nat)
    requires o.ksPeak >= 0
    ensures 0 < o.ksPeak && o.balance < o.ksPeak && Fits(o.ksPeak - o.balance) && dd < MONEY_MAX
            ==> NearestEven(dd, (o.ksPeak - o.balance) * SCALE, o.ksPeak)
    ensures AccountBreached(o, cfg)
       <==> (cfg.ksMinBalance != 0 && o.balance < cfg.ksMinBalance)
            || (cfg.ksMaxDrawdownPct != 0 && 0 < o.ksPeak && o.balance < o.ksPeak && dd > cfg.ksMaxDrawdownPct)
  {
    dd := 0;
    if 0 < o.ksPeak && o.balance < o.ksPeak {
      var drop := Sub(o.ksPeak, o.balance);
      dd := Div(drop, o.ksPeak);
      RoundDivExact(drop * SCALE, o.ksPeak, dd);
    }
    hide RoundDiv, NearestEven;
  }

  // ---- the kill word: bit 0 is the account, bit 16 + n is node n ----

  function NodeShift(n: nat): (p: bv64)
    requires n < MAX_NODES
    ensures 0 < p < 64
  {
    [16, 17, 18, 19, 20, 21, 22, 23, 24, 25, 26, 27, 28, 29, 30, 31][n]
  }

  lemma NodeShiftInjective(n: nat, m: nat)
    requires n < MAX_NODES && m < MAX_NODES
    ensures NodeShift(n) == NodeShift(m) <==> n == m
  {
  }

  predicate Bit(w: bv64, p: bv64)
    requires p < 64
  {
    (w >> p) & 1 == 1
  }

  function WithBit(w: bv64, p: bv64): bv64
    requires p < 64
  {
    w | (1 << p)
  }

  lemma OrSetsOneBit(w: bv64, p: bv64, q: bv64)
    requires p < 64 && q < 64
    ensures Bit(WithBit(w, p), q) <==> Bit(w, q) || p == q
  {
  }

  lemma ZeroHasNoBit(p: bv64)
    requires p < 64
    ensures !Bit(0, p)
  {
  }

  predicate GlobalBit(w: bv64) {
    Bit(w, 0)
  }

  predicate NodeBit(w: bv64, n: nat)
    requires n < MAX_NODES
  {
    Bit(w, NodeShift(n))
  }

  lemma ZeroWord()
    ensures !GlobalBit(0) && forall m :: 0 <= m < MAX_NODES ==> !NodeBit(0, m)
  {
    hide Bit;
    ZeroHasNoBit(0);
    forall m | 0 <= m < MAX_NODES
      ensures !NodeBit(0, m)
    {
      ZeroHasNoBit(NodeShift(m));
    }
  }

  lemma OrGlobal(w: bv64)
    ensures var r := WithBit(w, 0);
            GlobalBit(r) && forall m :: 0 <= m < MAX_NODES ==> (NodeBit(r, m) <==> NodeBit(w, m))
  {
    hide Bit, WithBit;
    var r := WithBit(w, 0);
    OrSetsOneBit(w, 0, 0);
    forall m | 0 <= m < MAX_NODES
      ensures NodeBit(r, m) <==> NodeBit(w, m)
    {
      OrSetsOneBit(w, 0, NodeShift(m));
    }
  }

  lemma OrNode(w: bv64, n: nat)
    requires n < MAX_NODES
    ensures var r := WithBit(w, NodeShift(n));
            && (GlobalBit(r) <==> GlobalBit(w))
            && forall m :: 0 <= m < MAX_NODES ==> (NodeBit(r, m) <==> NodeBit(w, m) || n == m)
  {
    hide Bit, WithBit;
    var r := WithBit(w, NodeShift(n));
    OrSetsOneBit(w, NodeShift(n), 0);
    forall m | 0 <= m < MAX_NODES
      ensures NodeBit(r, m) <==> NodeBit(w, m) || n == m
    {
      OrSetsOneBit(w, NodeShift(n), NodeShift(m));
      NodeShiftInjective(n, m);
    }
  }

  /** What the compose sees of a node once its fills are booked; zero inherits the global threshold. */
  function MarkOf(row: FillBooking.NodeRow, alloc: Money, unrealized: Money, nodePct: Money, globalPct: Money): Mark {
    Mark(alloc, Add(alloc, Add(row.realized, unrealized)), if nodePct != 0 then nodePct else globalPct)
  }

  /** While the sums fit the value is the plain sum of allocation, realized and unrealized; a node
      threshold of its own stands, and none inherits the global one. */
  lemma MarkIsTheSum(row: FillBooking.NodeRow, alloc: Money, unrealized: Money, nodePct: Money, globalPct: Money)
    ensures var m := MarkOf(row, alloc, unrealized, nodePct, globalPct);
            && m.alloc == alloc
            && (Fits(row.realized + unrealized) && Fits(alloc + row.realized + unrealized) ==>
                  m.value == alloc + row.realized + unrealized)
            && (nodePct == 0 ==> m.threshold == globalPct) && (nodePct != 0 ==> m.threshold == nodePct)
  {
  }

  /** The layout of the word, as a reader of it masks it. */
  lemma WordLayout(w: bv64)
    ensures GlobalBit(w) <==> w & 1 != 0
    ensures NodeBit(w, 0) <==> w & 0x1_0000 != 0
    ensures NodeBit(w, 1) <==> w & 0x2_0000 != 0
    ensures NodeBit(w, 7) <==> w & 0x80_0000 != 0
    ensures NodeBit(w, 15) <==> w & 0x8000_0000 != 0
  {
  }

  lemma ShiftOfNode(n: nat)
    requires n < MAX_NODES
    ensures NodeShift(n) as nat == 16 + n
  {
  }

  class KillSwitch {
    const nodes: array<NodeKill>
    const permission: array<bool>
    const registered: nat
    var globalTripped: bool
    var globalTrips: nat
    var fatalSeq: nat
    var killWord: bv64

    ghost predicate Valid() {
      registered <= nodes.Length <= MAX_NODES && permission.Length == registered
    }

    constructor (nodes: nat, registered: nat)
      requires registered <= nodes <= MAX_NODES
      ensures Valid() && fresh(this.nodes) && fresh(permission)
      ensures this.nodes.Length == nodes && this.registered == registered
      ensures !globalTripped && globalTrips == fatalSeq == 0 && killWord == 0
      ensures forall n :: 0 <= n < nodes ==> this.nodes[n] == NodeKill(false, 0, 0, 0)
    {
      this.nodes := new NodeKill[nodes](_ => NodeKill(false, 0, 0, 0));
      permission := new bool[registered](_ => false);
      this.registered := registered;
      globalTripped, globalTrips, fatalSeq, killWord := false, 0, 0, 0;
    }

    method ClearAllPermissions()
      requires Valid()
      modifies permission
      ensures forall n :: 0 <= n < registered ==> !permission[n]
    {
      for n := 0 to registered
        invariant forall m :: 0 <= m < n ==> !permission[m]
      {
        permission[n] := false;
      }
    }

    /** The trip body shared by a fatal lane and the account evaluation. */
    method TripGlobal()
      requires Valid()
      modifies `globalTripped, `globalTrips, permission
      ensures globalTripped && globalTrips == old(globalTrips) + (if old(globalTripped) then 0 else 1)
      ensures forall n :: 0 <= n < registered ==> !permission[n]
    {
      if !globalTripped {
        globalTripped := true;
        globalTrips := globalTrips + 1;
      }
      ClearAllPermissions();
    }

    /** Step 0: pending reset requests, lowest node first. */
    method ApplyResets(mask: set<nat>)
      requires Valid() && forall c :: c in mask ==> c < nodes.Length
      modifies nodes
      ensures forall c :: 0 <= c < nodes.Length ==>
                nodes[c] == if c in mask then old(nodes[c]).(tripped := false, peak := 0, dd := 0) else old(nodes[c])
    {
      var rm := mask;
      while rm != {}
        invariant rm <= mask
        invariant forall c :: 0 <= c < nodes.Length ==>
                    nodes[c] == if c in mask - rm then Reset(old(nodes[c])) else old(nodes[c])
        decreases |rm|
      {
        var c := Lowest(rm);
        rm := rm - {c};
        nodes[c] := nodes[c].(tripped := false, peak := 0, dd := 0);
      }
    }

    /** Step 0a, node lanes: a lane naming no registered node is consumed and ignored. */
    method ApplyNodeTrips(lanes: set<nat>)
      requires Valid()
      modifies nodes
      ensures forall c :: 0 <= c < nodes.Length ==>
                nodes[c] == if c in lanes && c < registered then Trip(old(nodes[c])) else old(nodes[c])
    {
      var tr := lanes;
      while tr != {}
        invariant tr <= lanes
        invariant forall c :: 0 <= c < nodes.Length ==>
                    nodes[c] == if c in lanes - tr && c < registered then Trip(old(nodes[c])) else old(nodes[c])
        decreases |tr|
      {
        var c := Lowest(tr);
        tr := tr - {c};
        if c >= registered || c >= MAX_NODES { continue; }
        if nodes[c].tripped { continue; }
        nodes[c] := nodes[c].(tripped := true, trips := nodes[c].trips + 1);
      }
    }

    /** Step 0a, global lanes: every consumed lane is one fatal event. */
    method ApplyGlobalTrips(lanes: set<nat>)
      requires Valid()
      modifies `globalTripped, `globalTrips, `fatalSeq, permission
      ensures globalTripped == (old(globalTripped) || lanes != {})
      ensures globalTrips == old(globalTrips) + (if !old(globalTripped) && lanes != {} then 1 else 0)
      ensures fatalSeq == old(fatalSeq) + |lanes|
      ensures if lanes == {} then unchanged(permission) else forall n :: 0 <= n < registered ==> !permission[n]
    {
      var tr := lanes;
      while tr != {}
        invariant tr <= lanes && fatalSeq == old(fatalSeq) + |lanes| - |tr|
        invariant globalTripped == (old(globalTripped) || tr != lanes)
        invariant globalTrips == old(globalTrips) + (if !old(globalTripped) && tr != lanes then 1 else 0)
        invariant if tr == lanes then unchanged(permission) else forall n :: 0 <= n < registered ==> !permission[n]
        decreases |tr|
      {
        var site := Lowest(tr);
        tr := tr - {site};
        fatalSeq := fatalSeq + 1;
        TripGlobal();
      }
    }

    /** One node of step 1. */
    method EvaluateNode(n: nat, m: Mark, minLoss: Money)
      requires n < nodes.Length
      modifies nodes
      ensures nodes[..] == old(nodes[..])[n := Evaluate(old(nodes[n]), m, minLoss)]
    {
      hide Max, Sub, Div;
      if nodes[n].peak == 0 {
        nodes[n] := nodes[n].(peak := m.alloc);
      }
      nodes[n] := nodes[n].(peak := Max(nodes[n].peak, m.value));
      var drop := Sub(nodes[n].peak, m.value);
      nodes[n] := nodes[n].(dd := if drop > 0 && nodes[n].peak > 0 then Div(drop, nodes[n].peak) else 0);
      if !nodes[n].tripped && nodes[n].dd > m.threshold && drop > minLoss {
        nodes[n] := nodes[n].(tripped := true, trips := nodes[n].trips + 1);
      }
    }

    /** Step 1: mark every registered node to market, raise peaks, trip breaches. */
    method EvaluateNodes(rows: array<FillBooking.NodeRow>, cfg: KillConfig, alloc: seq<Money>, unrealized: seq<Money>)
      requires Valid() && rows.Length == nodes.Length
      requires |alloc| == |unrealized| == registered && registered <= |cfg.nodeDrawdownPct|
      modifies nodes
      ensures forall c :: 0 <= c < nodes.Length ==>
                nodes[c] == if c < registered
                            then Evaluate(old(nodes[c]),
                                          MarkOf(rows[c], alloc[c], unrealized[c], cfg.nodeDrawdownPct[c], cfg.maxDrawdownPct),
                                          cfg.minKillLoss)
                            else old(nodes[c])
    {
      hide Evaluate;
      for n := 0 to registered
        invariant forall c :: 0 <= c < nodes.Length ==>
                    nodes[c] == if c < n
                                then Evaluate(old(nodes[c]),
                                              MarkOf(rows[c], alloc[c], unrealized[c], cfg.nodeDrawdownPct[c], cfg.maxDrawdownPct),
                                              cfg.minKillLoss)
                                else old(nodes[c])
      {
        var value := Add(alloc[n], Add(rows[n].realized, unrealized[n]));
        var threshold := if cfg.nodeDrawdownPct[n] != 0 then cfg.nodeDrawdownPct[n] else cfg.maxDrawdownPct;
        EvaluateNode(n, Mark(alloc[n], value, threshold), cfg.minKillLoss);
      }
    }

    /** Step 2: the account-level evaluation; idempotent once tripped. */
    method EvaluateGlobal(o: FillBooking.Oms, cfg: KillConfig)
      requires Valid()
      modifies `globalTripped, `globalTrips, permission
      ensures globalTripped == (old(globalTripped) || AccountBreached(o, cfg))
      ensures globalTrips == old(globalTrips) + (if !old(globalTripped) && globalTripped then 1 else 0)
      ensures if globalTripped == old(globalTripped) then unchanged(permission)
              else forall n :: 0 <= n < registered ==> !permission[n]
    {
      if globalTripped { return; }
      var trip := false;
      if cfg.ksMinBalance != 0 && o.balance < cfg.ksMinBalance {
        trip := true;
      }
      if cfg.ksMaxDrawdownPct != 0 && o.ksPeak != 0 {
        var drop := Sub(o.ksPeak, o.balance);
        if drop > 0 && Div(drop, o.ksPeak) > cfg.ksMaxDrawdownPct {
          trip := true;
        }
      }
      if trip {
        TripGlobal();
      }
    }

    /** The published word says exactly what the flags say. */
    ghost predicate WordMatchesFlags()
      requires Valid()
      reads `killWord, `globalTripped, nodes
    {
      && (GlobalBit(killWord) <==> globalTripped)
      && forall n :: 0 <= n < MAX_NODES ==> (NodeBit(killWord, n) <==> n < registered && nodes[n].tripped)
    }

    /** Step 3: compose the word from the flags and publish it. */
    method PublishKillWord()
      requires Valid()
      modifies `killWord
      ensures WordMatchesFlags()
    {
      hide GlobalBit, NodeBit, WithBit;
      var kw: bv64 := 0;
      ZeroWord();
      if globalTripped {
        OrGlobal(kw);
        kw := WithBit(kw, 0);
      }
      for n := 0 to registered
        invariant GlobalBit(kw) <==> globalTripped
        invariant forall m :: 0 <= m < MAX_NODES ==> (NodeBit(kw, m) <==> m < n && nodes[m].tripped)
      {
        if nodes[n].tripped {
          OrNode(kw, n);
          kw := WithBit(kw, NodeShift(n));
        }
      }
      killWord := kw;
    }

    /** Steps 0 to 3 on booked state. */
    method EvalKills(rows: array<FillBooking.NodeRow>, o: FillBooking.Oms, cfg: KillConfig,
                     alloc: seq<Money>, unrealized: seq<Money>,
                     resets: set<nat>, nodeTrips: set<nat>, globalLanes: set<nat>)
      requires Valid() && rows.Length == nodes.Length
      requires |alloc| == |unrealized| == registered && registered <= |cfg.nodeDrawdownPct|
      requires forall c :: c in resets ==> c < nodes.Length
      modifies this, nodes, permission
      ensures WordMatchesFlags()
      ensures forall n :: 0 <= n < registered ==>
                nodes[n] == ComposeNode(old(nodes[n]),
                                        NodeInput(n in resets, n in nodeTrips,
                                                  MarkOf(rows[n], alloc[n], unrealized[n], cfg.nodeDrawdownPct[n], cfg.maxDrawdownPct)),
                                        cfg.minKillLoss)
      ensures forall n :: registered <= n < nodes.Length ==>
                nodes[n] == if n in resets then old(nodes[n]).(tripped := false, peak := 0, dd := 0) else old(nodes[n])
      ensures globalTripped == (old(globalTripped) || globalLanes != {} || AccountBreached(o, cfg))
      ensures globalTrips == old(globalTrips) + (if !old(globalTripped) && globalTripped then 1 else 0)
      ensures fatalSeq == old(fatalSeq) + |globalLanes|
      ensures if globalLanes != {} || (!old(globalTripped) && globalTripped)
              then forall n :: 0 <= n < registered ==> !permission[n] else unchanged(permission)
    {
      hide Evaluate, AccountBreached;
      ApplyResets(resets);
      ApplyNodeTrips(nodeTrips);
      ApplyGlobalTrips(globalLanes);
      EvaluateNodes(rows, cfg, alloc, unrealized);
      EvaluateGlobal(o, cfg);
      PublishKillWord();
    }

    /** One compose: book every pending fill first, so that all later steps see booked state. */
    method ComposeAndKillEval(ledger: FillLedger.Composer, cfg: KillConfig, alloc: seq<Money>, unrealized: seq<Money>,
                              resets: set<nat>, nodeTrips: set<nat>, globalLanes: set<nat>)
      requires Valid() && ledger.Valid() && ledger.rows.Length == nodes.Length
      requires {this, nodes, permission} !! ledger.Footprint()
      requires |alloc| == |unrealized| == registered && registered <= |cfg.nodeDrawdownPct|
      requires forall c :: c in resets ==> c < nodes.Length
      modifies this, nodes, permission, ledger.Footprint()
      ensures ledger.Settled() && WordMatchesFlags()
      ensures forall n :: 0 <= n < registered ==>
                nodes[n] == ComposeNode(old(nodes[n]),
                                        NodeInput(n in resets, n in nodeTrips,
                                                  MarkOf(ledger.rows[n], alloc[n], unrealized[n], cfg.nodeDrawdownPct[n], cfg.maxDrawdownPct)),
                                        cfg.minKillLoss)
      ensures forall n :: registered <= n < nodes.Length ==>
                nodes[n] == if n in resets then old(nodes[n]).(tripped := false, peak := 0, dd := 0) else old(nodes[n])
      ensures globalTripped == (old(globalTripped) || globalLanes != {} || AccountBreached(ledger.oms, cfg))
      ensures globalTrips == old(globalTrips) + (if !old(globalTripped) && globalTripped then 1 else 0)
      ensures fatalSeq == old(fatalSeq) + |globalLanes|
      ensures if globalLanes != {} || (!old(globalTripped) && globalTripped)
              then forall n :: 0 <= n < registered ==> !permission[n] else unchanged(permission)
    {
      hide ComposeNode, AccountBreached;
      var _ := ledger.FillRingsApply();
      EvalKills(ledger.rows, ledger.oms, cfg, alloc, unrealized, resets, nodeTrips, globalLanes);
    }
  }

  /** The lowest set lane of a request mask. */
  method Lowest(s: set<nat>) returns (c: nat)
    requires s != {}
    ensures c in s && forall d :: d in s ==> c <= d
  {
    c :| c in s;
    var rest := s - {c};
    while rest != {}
      invariant c in s && rest < s
      invariant forall d :: d in s && d !in rest ==> c <= d
      decreases |rest|
    {
      var d :| d in rest;
      rest := rest - {d};
      if d < c { c := d; }
    }
  }
}
