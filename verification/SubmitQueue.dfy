/** The order submission queue of the exchange adapter: one drainer that checks and then pushes,
    one worker that checks, pops and reports, and a shutdown that signals and joins.  Every atomic
    action of every thread is a step, and the theorems hold for every interleaving. */
module SubmitQueue {

  datatype Order = Order(id: nat, isBuy: bool, qty: real)

  datatype Worker = Checking | Popping | Calling(order: Order) | Exited

  /** Between the guard and the push the drainer holds one order. */
  datatype Drainer = Idle | Pushing(order: Order)

  datatype Shutdown = NotCalled | Joining | Down

  /** The adapter, the program counters of its threads, and what the callers have seen. */
  datatype State = State(
    queue: seq<Order>, requested: bool, workerCount: nat, dropped: nat,
    worker: Worker, drainer: Drainer, shutdown: Shutdown,
    asked: seq<Order>, accepted: seq<Order>, refused: nat, zeros: nat, called: seq<Order>)

  datatype Action = Ask(order: Order) | Push | Work | Signal | Join

  /** Never initialised, initialised with one worker, or an initialisation that failed after the
      worker count was set and before any thread was started. */
  datatype Boot = Never | Up | Failed

  function Start(boot: Boot): State {
    State([], false, if boot == Never then 0 else 1, 0, if boot == Up then Checking else Exited, Idle, NotCalled,
          [], [], 0, 0, [])
  }

  /** The guard of a submit: refused when shutdown is requested or no worker is up. */
  function AskStep(s: State, order: Order): State {
    if s.drainer != Idle then s
    else if s.requested || s.workerCount < 1 then
      s.(asked := s.asked + [order], refused := s.refused + 1, zeros := s.zeros + 1)
    else s.(asked := s.asked + [order], drainer := Pushing(order))
  }

  /** The push of a submit: dropped and counted when the queue is full. */
  function PushStep(s: State, capacity: nat): State {
    if s.drainer == Idle then s
    else if |s.queue| >= capacity then s.(drainer := Idle, dropped := s.dropped + 1, zeros := s.zeros + 1)
    else s.(drainer := Idle, queue := s.queue + [s.drainer.order], accepted := s.accepted + [s.drainer.order])
  }

  /** One atomic step of the worker loop. */
  function WorkStep(s: State): State {
    match s.worker
    case Checking => s.(worker := if s.requested then Exited else Popping)
    case Popping => if s.queue == [] then s.(worker := Checking) else s.(worker := Calling(s.queue[0]), queue := s.queue[1..])
    case Calling(order) => s.(worker := Checking, called := s.called + [order])
    case Exited => s
  }

  /** The join returns only once the worker has exited. */
  function JoinStep(s: State): State {
    if s.shutdown == Joining && s.worker == Exited then s.(shutdown := Down, workerCount := 0) else s
  }

  function Step(s: State, a: Action, capacity: nat): State {
    match a
    case Ask(order) => AskStep(s, order)
    case Push => PushStep(s, capacity)
    case Work => WorkStep(s)
    case Signal => s.(requested := true, shutdown := if s.shutdown == Down then Down else Joining)
    case Join => JoinStep(s)
  }

  function Run(s: State, actions: seq<Action>, capacity: nat): State {
    if actions == [] then s else Step(Run(s, actions[..|actions| - 1], capacity), actions[|actions| - 1], capacity)
  }

  // ---- conservation ----

  function InFlight(s: State): (r: seq<Order>)
    ensures |r| <= 1
  {
    if s.worker.Calling? then [s.worker.order] else []
  }

  function Held(s: State): (r: seq<Order>)
    ensures |r| <= 1
  {
    if s.drainer.Pushing? then [s.drainer.order] else []
  }

  /** Nothing accepted or held was not asked for. */
  predicate Sourced(asked: seq<Order>, accepted: seq<Order>, held: seq<Order>) {
    multiset(accepted) + multiset(held) <= multiset(asked)
  }

  /** The accepted orders are the reported ones, then at most one in flight, then the queue, in
      submission order; a zero is a refusal or one drop; nothing accepted was not asked for. */
  predicate Conserved(s: State, capacity: nat) {
    && s.accepted == s.called + InFlight(s) + s.queue
    && |s.queue| <= capacity
    && s.zeros == s.refused + s.dropped
    && |s.asked| == |s.accepted| + s.zeros + |Held(s)|
    && Sourced(s.asked, s.accepted, Held(s))
  }

  lemma SourcedMoves(asked: seq<Order>, accepted: seq<Order>, order: Order)
    ensures Sourced(asked, accepted, []) ==> Sourced(asked + [order], accepted, [order]) && Sourced(asked + [order], accepted, [])
    ensures Sourced(asked, accepted, [order]) ==> Sourced(asked, accepted + [order], []) && Sourced(asked, accepted, [])
  {
    assert multiset(asked + [order]) == multiset(asked) + multiset{order};
    assert multiset(accepted + [order]) == multiset(accepted) + multiset{order};
    assert multiset([order]) == multiset{order};
  }

  lemma AskConserves(s: State, order: Order, capacity: nat)
    requires Conserved(s, capacity)
    ensures Conserved(AskStep(s, order), capacity)
  {
    hide Sourced;
    SourcedMoves(s.asked, s.accepted, order);
  }

  lemma PushConserves(s: State, capacity: nat)
    requires Conserved(s, capacity)
    ensures Conserved(PushStep(s, capacity), capacity)
  {
    hide Sourced;
    if s.drainer.Pushing? {
      SourcedMoves(s.asked, s.accepted, s.drainer.order);
      assert s.called + InFlight(s) + (s.queue + [s.drainer.order]) == s.called + InFlight(s) + s.queue + [s.drainer.order];
    }
  }

  lemma WorkConserves(s: State, capacity: nat)
    requires Conserved(s, capacity)
    ensures Conserved(WorkStep(s), capacity)
  {
    hide Sourced;
    var t := WorkStep(s);
    if s.worker == Popping && s.queue != [] {
      assert s.queue == [s.queue[0]] + s.queue[1..];
    }
    assert t.accepted == t.called + InFlight(t) + t.queue;
  }

  /** Only the orders and the counters matter to conservation. */
  lemma SignalConserves(s: State, capacity: nat)
    requires Conserved(s, capacity)
    ensures forall r, w, d :: Conserved(s.(requested := r, workerCount := w, shutdown := d), capacity)
    ensures s.worker == Exited ==> s.accepted == s.called + s.queue
  {
    hide Sourced;
    if s.worker == Exited { assert s.called + [] == s.called; }
  }

  lemma StepConserves(s: State, a: Action, capacity: nat)
    requires Conserved(s, capacity)
    ensures Conserved(Step(s, a, capacity), capacity)
  {
    hide Conserved, AskStep, PushStep, WorkStep;
    match a {
      case Ask(order) => AskConserves(s, order, capacity);
      case Push => PushConserves(s, capacity);
      case Work => WorkConserves(s, capacity);
      case Signal =>
        SignalConserves(s, capacity);
        assert Step(s, a, capacity) == s.(requested := true, workerCount := s.workerCount, shutdown := Step(s, a, capacity).shutdown);
      case Join =>
        SignalConserves(s, capacity);
        var t := JoinStep(s);
        assert t == s.(requested := s.requested, workerCount := t.workerCount, shutdown := t.shutdown);
    }
  }

  /** Conservation in every reachable state of every interleaving. */
  lemma {:induction false} RunConserves(boot: Boot, actions: seq<Action>, capacity: nat)
    ensures Conserved(Run(Start(boot), actions, capacity), capacity)
  {
    if actions != [] {
      RunConserves(boot, actions[..|actions| - 1], capacity);
      hide Conserved, Step;
      StepConserves(Run(Start(boot), actions[..|actions| - 1], capacity), actions[|actions| - 1], capacity);
    }
  }

  /** No order is reported more often than it was asked for, and reports come in submission order. */
  lemma ReportedAtMostOnce(boot: Boot, actions: seq<Action>, capacity: nat, order: Order)
    ensures var s := Run(Start(boot), actions, capacity);
            multiset(s.called)[order] <= multiset(s.asked)[order] && s.called <= s.accepted
  {
    hide Run;
    var s := Run(Start(boot), actions, capacity);
    RunConserves(boot, actions, capacity);
    assert s.accepted == s.called + (InFlight(s) + s.queue);
    assert multiset(s.accepted) == multiset(s.called) + multiset(InFlight(s) + s.queue);
  }

  // ---- shutdown ----

  /** What the shutdown call has established when it returns. */
  predicate Settled(s: State) {
    && (s.shutdown == Down ==> s.requested && s.workerCount == 0 && s.worker == Exited)
    && (s.shutdown != NotCalled <==> s.requested)
    && (s.workerCount == 0 ==> s.worker == Exited)
  }

  lemma {:induction false} RunSettled(boot: Boot, actions: seq<Action>, capacity: nat)
    ensures Settled(Run(Start(boot), actions, capacity))
  {
    if actions != [] {
      RunSettled(boot, actions[..|actions| - 1], capacity);
    }
  }

  /** After the shutdown returned: nothing is in flight, nothing more is reported, every later
      submit is refused, the queue keeps what it held, and only the order the drainer already held
      can still be accepted. */
  lemma {:induction false} AfterShutdown(s: State, actions: seq<Action>, capacity: nat)
    requires s.shutdown == Down && Settled(s)
    ensures var t := Run(s, actions, capacity);
            && t.shutdown == Down && Settled(t) && InFlight(t) == [] && t.called == s.called
            && s.queue <= t.queue
            && ((t.drainer == s.drainer && t.accepted == s.accepted) || t.drainer == Idle)
            && (t.accepted == s.accepted || t.accepted == s.accepted + Held(s))
  {
    if actions != [] {
      AfterShutdown(s, actions[..|actions| - 1], capacity);
    }
  }

  /** So with an idle drainer nothing is accepted any more. */
  lemma NoLateAccept(s: State, actions: seq<Action>, capacity: nat)
    requires s.shutdown == Down && Settled(s) && s.drainer == Idle
    ensures Run(s, actions, capacity).accepted == s.accepted
  {
    hide Run;
    AfterShutdown(s, actions, capacity);
    assert s.accepted + [] == s.accepted;
  }

  /** The exact condition for a late accept: the drainer passed the guard before the signal and the
      queue has room.  The order is then accepted into a queue no worker will ever read. */
  lemma LateAcceptExactly(s: State, capacity: nat)
    requires s.shutdown == Down && Settled(s)
    ensures (exists actions :: Run(s, actions, capacity).accepted != s.accepted)
       <==> s.drainer.Pushing? && |s.queue| < capacity
  {
    if s.drainer.Pushing? && |s.queue| < capacity {
      OneStep(s, Push, capacity);
      assert Run(s, [Push], capacity).accepted != s.accepted;
    } else {
      forall actions
        ensures Run(s, actions, capacity).accepted == s.accepted
      {
        NoRoomNoAccept(s, actions, capacity);
      }
    }
  }

  lemma OneStep(s: State, a: Action, capacity: nat)
    ensures Run(s, [a], capacity) == Step(s, a, capacity)
  {
    assert [a][..0] == [];
  }

  lemma {:induction false} NoRoomNoAccept(s: State, actions: seq<Action>, capacity: nat)
    requires s.shutdown == Down && Settled(s) && (s.drainer == Idle || |s.queue| >= capacity)
    ensures var t := Run(s, actions, capacity);
            && t.accepted == s.accepted && t.queue == s.queue
            && t.shutdown == Down && Settled(t) && (t.drainer == Idle || |t.queue| >= capacity)
  {
    if actions != [] {
      NoRoomNoAccept(s, actions[..|actions| - 1], capacity);
    }
  }

  /** The race is reachable: guard, signal, worker exit, join, then the push. */
  lemma PhantomOrder(order: Order, capacity: nat)
    requires capacity > 0
    ensures var s := Run(Start(Up), [Ask(order), Signal, Work, Join], capacity);
            && s.shutdown == Down && s.drainer == Pushing(order)
            && Step(s, Push, capacity).accepted == [order] && Step(s, Push, capacity).queue == [order]
  {
    var a := [Ask(order), Signal, Work, Join];
    assert a[..3] == [Ask(order), Signal, Work] && a[..3][..2] == [Ask(order), Signal] && [Ask(order), Signal][..1] == [Ask(order)];
    OneStep(Start(Up), Ask(order), capacity);
    assert Run(Start(Up), [Ask(order), Signal], capacity).requested;
    assert Run(Start(Up), a[..3], capacity).worker == Exited;
  }

  // ---- the join returns ----

  /** How many worker steps are left once shutdown is requested. */
  function Rank(w: Worker): nat {
    match w
    case Exited => 0
    case Checking => 1
    case Calling(_) => 2
    case Popping => 3
  }

  function WorkCount(actions: seq<Action>): nat {
    if actions == [] then 0 else WorkCount(actions[..|actions| - 1]) + if actions[|actions| - 1] == Work then 1 else 0
  }

  /** After the signal at most one more order is reported, and three worker steps end the worker,
      whatever the other threads do in between. */
  lemma {:induction false} SignalEndsWorker(s: State, actions: seq<Action>, capacity: nat)
    requires s.requested
    ensures var t := Run(s, actions, capacity);
            && t.requested
            && |t.called| <= |s.called| + 1
            && (Rank(t.worker) <= 1 || |t.called| == |s.called|)
            && (Rank(t.worker) + WorkCount(actions) <= Rank(s.worker) || t.worker == Exited)
  {
    if actions != [] {
      SignalEndsWorker(s, actions[..|actions| - 1], capacity);
    }
  }

  /** Three worker steps after the signal the join can return. */
  lemma JoinReturns(s: State, actions: seq<Action>, capacity: nat)
    requires s.shutdown == Joining && s.requested && WorkCount(actions) >= 3
    ensures var t := Run(s, actions, capacity); t.worker == Exited && Step(t, Join, capacity).shutdown == Down
  {
    hide Run;
    SignalEndsWorker(s, actions, capacity);
    StillShutting(s, actions, capacity);
  }

  lemma {:induction false} StillShutting(s: State, actions: seq<Action>, capacity: nat)
    requires s.shutdown != NotCalled
    ensures Run(s, actions, capacity).shutdown != NotCalled
  {
    if actions != [] {
      StillShutting(s, actions[..|actions| - 1], capacity);
    }
  }

  // ---- delivery ----

  ghost predicate NoSignal(actions: seq<Action>) {
    forall i :: 0 <= i < |actions| ==> actions[i] != Signal
  }

  /** Worker steps already taken of the three an order needs. */
  function Taken(w: Worker): nat {
    match w
    case Popping => 1
    case Calling(_) => 2
    case _ => 0
  }

  /** What the callers will have seen once everything pending is reported. */
  function Owed(s: State): seq<Order> {
    s.called + InFlight(s) + s.queue
  }

  /** Everything owed is still owed or reported, and every three worker steps report one order. */
  ghost predicate OnTheWay(owed: seq<Order>, budget: int, t: State, steps: nat) {
    && !t.requested && t.worker != Exited && owed <= Owed(t)
    && (|t.called| < |owed| ==> 3 * (|owed| - |t.called|) - Taken(t.worker) + steps <= budget)
  }

  lemma OnTheWayStep(owed: seq<Order>, budget: int, t: State, steps: nat, a: Action, capacity: nat)
    requires OnTheWay(owed, budget, t, steps) && a != Signal
    ensures OnTheWay(owed, budget, Step(t, a, capacity), steps + if a == Work then 1 else 0)
  {
    var u := Step(t, a, capacity);
    if a == Work && t.worker == Popping && t.queue != [] {
      assert t.queue == [t.queue[0]] + t.queue[1..];
      assert Owed(u) == Owed(t);
    } else if a == Push && t.drainer != Idle && |t.queue| < capacity {
      assert Owed(u) == Owed(t) + [t.drainer.order];
    } else {
      assert Owed(u) == Owed(t);
    }
  }

  lemma {:induction false} StillOnTheWay(s: State, actions: seq<Action>, capacity: nat)
    requires !s.requested && s.worker != Exited && NoSignal(actions)
    ensures OnTheWay(Owed(s), 3 * (|Owed(s)| - |s.called|) - Taken(s.worker), Run(s, actions, capacity), WorkCount(actions))
  {
    hide OnTheWay, Step;
    if actions == [] {
      NothingTaken(s);
    } else {
      var k := |actions| - 1;
      StillOnTheWay(s, actions[..k], capacity);
      OnTheWayStep(Owed(s), 3 * (|Owed(s)| - |s.called|) - Taken(s.worker), Run(s, actions[..k], capacity),
                   WorkCount(actions[..k]), actions[k], capacity);
    }
  }

  lemma NothingTaken(s: State)
    requires !s.requested && s.worker != Exited
    ensures OnTheWay(Owed(s), 3 * (|Owed(s)| - |s.called|) - Taken(s.worker), s, 0)
  {
  }

  /** Delivery: with the worker up and no signal, three worker steps for each order and three more
      report everything that was in flight or queued, in order, whatever is submitted meanwhile. */
  lemma EverythingIsReported(s: State, actions: seq<Action>, capacity: nat)
    requires !s.requested && s.worker != Exited && NoSignal(actions)
    requires WorkCount(actions) >= 3 * (|s.queue| + 1)
    ensures s.called + InFlight(s) + s.queue <= Run(s, actions, capacity).called
  {
    StillOnTheWay(s, actions, capacity);
    hide Run;
    var t := Run(s, actions, capacity);
    assert |t.called| >= |Owed(s)|;
    assert Owed(t)[..|Owed(s)|] == t.called[..|Owed(s)|];
  }

  /** From boot, so: every order accepted by then is reported. */
  lemma AcceptedIsReported(before: seq<Action>, after: seq<Action>, capacity: nat)
    requires NoSignal(before) && NoSignal(after) && WorkCount(after) >= 3 * (capacity + 1)
    ensures var s := Run(Start(Up), before, capacity);
            s.accepted <= Run(s, after, capacity).called
  {
    hide Run, WorkCount;
    var s := Run(Start(Up), before, capacity);
    RunConserves(Up, before, capacity);
    StillOnTheWay(Start(Up), before, capacity);
    EverythingIsReported(s, after, capacity);
  }

  /** An adapter that was never initialised refuses everything. */
  lemma {:induction false} NeverInitRefuses(actions: seq<Action>, capacity: nat)
    ensures var s := Run(Start(Never), actions, capacity);
            && s.workerCount == 0 && s.worker == Exited && s.drainer == Idle
            && s.accepted == s.queue == s.called == [] && s.refused == |s.asked|
  {
    if actions != [] {
      NeverInitRefuses(actions[..|actions| - 1], capacity);
    }
  }

  /** A failed initialisation leaves the worker count set: submits are accepted and never reported. */
  lemma {:induction false} FailedInitStrands(actions: seq<Action>, capacity: nat)
    ensures var s := Run(Start(Failed), actions, capacity); s.called == [] && s.worker == Exited
  {
    if actions != [] {
      FailedInitStrands(actions[..|actions| - 1], capacity);
    }
  }

  lemma FailedInitAccepts(order: Order, capacity: nat)
    requires capacity > 0
    ensures Run(Start(Failed), [Ask(order), Push], capacity).accepted == [order]
  {
    assert [Ask(order), Push][..1] == [Ask(order)];
    OneStep(Start(Failed), Ask(order), capacity);
  }

  // ---- the adapter object ----

  class Adapter {
    const capacity: nat
    var submissionQueue: seq<Order>
    var shutdownRequested: bool
    var workerCount: nat
    var droppedSubmissions: nat
    // Where the worker's loop stands.
    var worker: Worker
    // The protocol state, with what the other threads hold and what the callers have seen.
    ghost var view: State

    ghost predicate Valid()
      reads this
    {
      && Conserved(view, capacity) && Settled(view)
      && submissionQueue == view.queue && shutdownRequested == view.requested && workerCount == view.workerCount
      && droppedSubmissions == view.dropped && worker == view.worker
    }

    constructor Init(capacity: nat)
      ensures Valid() && view == Start(Up) && this.capacity == capacity
    {
      this.capacity := capacity;
      submissionQueue, shutdownRequested, workerCount, droppedSubmissions := [], false, 1, 0;
      worker, view := Checking, Start(Up);
    }

    /** The guard both submit entry points share. */
    method Guard(order: Order) returns (up: bool)
      requires Valid() && view.drainer == Idle
      modifies this
      ensures Valid() && view == AskStep(old(view), order)
      ensures up <==> view.drainer == Pushing(order)
    {
      hide Conserved, Sourced, InFlight, Held, Run;
      AskConserves(view, order, capacity);
      up := !shutdownRequested && workerCount >= 1;
      view := AskStep(view, order);
    }

    method PushOrder(order: Order) returns (result: int)
      requires Valid() && view.drainer == Pushing(order)
      modifies this
      ensures Valid() && view == PushStep(old(view), capacity)
      ensures result == if |old(submissionQueue)| < capacity then 1 else 0
    {
      hide Conserved, Sourced, InFlight, Held, Run;
      PushConserves(view, capacity);
      view := PushStep(view, capacity);
      if |submissionQueue| >= capacity {
        droppedSubmissions := droppedSubmissions + 1;
        return 0;
      }
      submissionQueue := submissionQueue + [order];
      result := 1;
    }

    /** A submit that no other thread interrupts: one is an order in the queue, zero is a refusal or
        a counted drop, and the queue of a refused or dropped order is untouched. */
    method Submit(id: nat, isBuy: bool, qty: real) returns (result: int)
      requires Valid() && view.drainer == Idle
      modifies this
      ensures Valid() && view.drainer == Idle
      ensures result == 1 <==> !shutdownRequested && workerCount >= 1 && |old(submissionQueue)| < capacity
      ensures result == 1 ==> submissionQueue == old(submissionQueue) + [Order(id, isBuy, qty)]
      ensures result != 1 ==> result == 0 && submissionQueue == old(submissionQueue) && view.accepted == old(view.accepted)
      ensures droppedSubmissions == old(droppedSubmissions)
                + if !shutdownRequested && workerCount >= 1 && result == 0 then 1 else 0
      ensures shutdownRequested == old(shutdownRequested) && workerCount == old(workerCount)
      ensures view.called == old(view.called)
    {
      hide Conserved, Settled;
      var order := Order(id, isBuy, qty);
      var up := Guard(order);
      if !up { return 0; }
      result := PushOrder(order);
    }

    /** One atomic step of the worker; reporting stands for the exchange call and its callback. */
    method WorkerStep() returns (running: bool)
      requires Valid()
      modifies this
      ensures Valid() && view == WorkStep(old(view)) && (running <==> worker != Exited)
    {
      hide Conserved, Sourced, InFlight, Held, Run;
      WorkConserves(view, capacity);
      view := WorkStep(view);
      match worker {
        case Checking => worker := if shutdownRequested then Exited else Popping;
        case Popping =>
          if submissionQueue == [] {
            worker := Checking;
          } else {
            worker, submissionQueue := Calling(submissionQueue[0]), submissionQueue[1..];
          }
        case Calling(order) => worker := Checking;
        case Exited =>
      }
      running := worker != Exited;
    }

    /** Shutdown that nothing interrupts: signal, wait for the worker, take the workers down.  At
        most one more order is reported; what is left in the queue stays there. */
    method ShutdownState()
      requires Valid() && view.drainer == Idle
      modifies this
      ensures Valid() && view.shutdown == Down && shutdownRequested && workerCount == 0 && worker == Exited
      ensures |view.called| <= |old(view.called)| + 1
      ensures view.accepted == old(view.accepted) && view.accepted == view.called + submissionQueue
    {
      hide Conserved;
      SignalConserves(view, capacity);
      view := view.(requested := true, shutdown := if view.shutdown == Down then Down else Joining,
                    workerCount := view.workerCount);
      shutdownRequested := true;
      var running := worker != Exited;
      while running
        invariant Valid() && shutdownRequested && view.drainer == Idle
        invariant (running <==> worker != Exited) && view.accepted == old(view.accepted)
        invariant |view.called| <= |old(view.called)| + 1
        invariant Rank(worker) <= 1 || |view.called| == |old(view.called)|
        decreases Rank(worker)
      {
        running := WorkerStep();
      }
      SignalConserves(view, capacity);
      view := view.(requested := true, workerCount := 0, shutdown := Down);
      workerCount := 0;
    }
  }
}
