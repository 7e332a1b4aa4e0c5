/** The published kill word against the slow path's two reads of it.  The composer trips (which
    clears every permission) and later publishes the word.  A slow-path cycle of a node takes the
    time as it wakes, rebuilds its entry gate from one load of the word (or, in a lazy cycle,
    republishes the gate it had), pushes the gate, loads the word again and then grants permission
    if the second load saw the bit clear.  Steps of all threads interleave freely, and time passes
    between any two. */
module StaleGrants {
  import opened Wrappers

  datatype Pc =
    | Idle
    | Woken(at: nat)
    | Rebuilding(gateSawGlobal: bool, at: nat)
    | Staged(at: nat)
    | Pushed
    | Loaded(sawGlobal: bool)

  /** `word` is the GLOBAL bit of the published kill word; `staged` and `gate` say whether a node's
      pending and its published gate parameters let an entry through.  `rebuilt` is the waking time
      of a node's last full rebuild, 0 before the first; `lazyOn` and `period` are the lazy-rebuild
      switch and its force period.  `warmupDue`: the backtest's one warm-up grant is still to come. */
  datatype State = State(
    tripped: bool, word: bool, permission: seq<bool>, staged: seq<bool>, gate: seq<bool>, pc: seq<Pc>,
    now: nat, rebuilt: seq<nat>, lazyOn: bool, period: nat, warmupDue: bool)

  datatype Step =
    | Tick(us: nat)                  // time passes
    | TripGlobal                     // the account trip: flag up, every permission cleared
    | Publish                        // the composer stores the word it composed from the flag
    | Wake(n: nat)                   // a cycle of node n begins and takes the time
    | ReadGate(n: nat)               // it is a full rebuild, which reads the word
    | Stage(n: nat, wants: bool)     // and stages an open gate if the strategy wants one and the bit was clear
    | Skip(n: nat)                   // it is a lazy cycle, which keeps the staged gate as it is
    | Push(n: nat)                   // the staged gate becomes the published one
    | Load(n: nat)                   // the tail of the cycle reads the word
    | Decide(n: nat, warm: bool)     // and grants, unless it saw the bit or is cold
    | WarmupGrant(nodes: set<nat>)   // the backtest grants every node with a strategy, once, unread

  predicate Shaped(s: State) {
    |s.permission| == |s.staged| == |s.gate| == |s.pc| == |s.rebuilt|
  }

  /** A cycle that woke at this time may be lazy: a full rebuild is on record and younger than the
      force period.  A price that moved forces a rebuild all the same, which is always allowed. */
  predicate MayBeLazy(s: State, rebuilt: nat, at: nat) {
    s.lazyOn && at != 0 && rebuilt != 0 && (if at > rebuilt then at - rebuilt else 0) < s.period
  }

  predicate Enabled(s: State, step: Step)
    requires Shaped(s)
  {
    match step
    case Tick(_) => true
    case TripGlobal => true
    case Publish => true
    case Wake(n) => n < |s.pc| && s.pc[n].Idle?
    case ReadGate(n) => n < |s.pc| && s.pc[n].Woken?
    case Stage(n, _) => n < |s.pc| && s.pc[n].Rebuilding?
    case Skip(n) => n < |s.pc| && s.pc[n].Woken? && MayBeLazy(s, s.rebuilt[n], s.pc[n].at)
    case Push(n) => n < |s.pc| && s.pc[n].Staged?
    case Load(n) => n < |s.pc| && s.pc[n].Pushed?
    case Decide(n, _) => n < |s.pc| && s.pc[n].Loaded?
    case WarmupGrant(_) => s.warmupDue
  }

  predicate IsGrant(s: State, step: Step, n: nat)
    requires Shaped(s) && Enabled(s, step)
  {
    step.Decide? && step.n == n && !s.pc[n].sawGlobal && step.warm
  }

  /** A push that publishes an open entry gate. */
  predicate IsOpenPush(s: State, step: Step, n: nat)
    requires Shaped(s) && Enabled(s, step)
  {
    step.Push? && step.n == n && s.staged[n]
  }

  function Next(s: State, step: Step): (r: State)
    requires Shaped(s) && Enabled(s, step)
    ensures Shaped(r) && |r.pc| == |s.pc|
  {
    match step
    case Tick(us) => s.(now := s.now + us)
    case TripGlobal => s.(tripped := true, permission := seq(|s.permission|, _ => false))
    case Publish => s.(word := s.tripped)
    case Wake(n) => s.(pc := s.pc[n := Woken(s.now)])
    case ReadGate(n) => s.(pc := s.pc[n := Rebuilding(s.word, s.pc[n].at)])
    case Stage(n, wants) =>
      s.(staged := s.staged[n := wants && !s.pc[n].gateSawGlobal], rebuilt := s.rebuilt[n := s.pc[n].at],
         pc := s.pc[n := Staged(s.pc[n].at)])
    case Skip(n) => s.(pc := s.pc[n := Staged(s.pc[n].at)])
    case Push(n) => s.(gate := s.gate[n := s.staged[n]], pc := s.pc[n := Pushed])
    case Load(n) => s.(pc := s.pc[n := Loaded(s.word)])
    case Decide(n, _) =>
      s.(permission := if IsGrant(s, step, n) then s.permission[n := true] else s.permission,
         pc := s.pc[n := Idle])
    case WarmupGrant(nodes) =>
      s.(permission := seq(|s.permission|, n requires 0 <= n < |s.permission| => n in nodes || s.permission[n]),
         warmupDue := false)
  }

  ghost predicate Runs(s: State, steps: seq<Step>)
    requires Shaped(s)
    decreases |steps|
  {
    steps != [] ==> Enabled(s, steps[0]) && Runs(Next(s, steps[0]), steps[1..])
  }

  function Final(s: State, steps: seq<Step>): (r: State)
    requires Shaped(s) && Runs(s, steps)
    ensures Shaped(r) && |r.pc| == |s.pc|
    decreases |steps|
  {
    if steps == [] then s else Final(Next(s, steps[0]), steps[1..])
  }

  /** How often the run grants permission to node n. */
  function Grants(s: State, steps: seq<Step>, n: nat): nat
    requires Shaped(s) && Runs(s, steps)
    decreases |steps|
  {
    if steps == [] then 0
    else (if IsGrant(s, steps[0], n) then 1 else 0) + Grants(Next(s, steps[0]), steps[1..], n)
  }

  // ---- a cycle undisturbed, and a kill that arrives ----

  lemma RunFirst(s: State, step: Step, rest: seq<Step>)
    requires Shaped(s) && Enabled(s, step) && Runs(Next(s, step), rest)
    ensures Runs(s, [step] + rest) && Final(s, [step] + rest) == Final(Next(s, step), rest)
  {
    assert ([step] + rest)[1..] == rest;
  }

  /** A whole full-rebuild cycle: it publishes the gate the strategy wants and grants a warm node,
      unless the bit is published, when it shuts the gate and grants nothing. */
  lemma UndisturbedCycle(s: State, n: nat, wants: bool, warm: bool)
    requires Shaped(s) && n < |s.pc| && s.pc[n].Idle?
    ensures var steps := [Wake(n), ReadGate(n), Stage(n, wants), Push(n), Load(n), Decide(n, warm)];
            && Runs(s, steps)
            && Final(s, steps).gate == s.gate[n := wants && !s.word]
            && Final(s, steps).permission == s.permission[n := s.permission[n] || (warm && !s.word)]
            && Final(s, steps).rebuilt == s.rebuilt[n := s.now] && Final(s, steps).pc == s.pc
  {
    hide Next, Runs, Final;
    var a, b, c := RebuildSteps(s, n, wants);
    var d, e, f := TailSteps(c, n, warm);
    EmptyRun(f);
    RunFirst(e, Decide(n, warm), []);
    RunFirst(d, Load(n), [Decide(n, warm)] + []);
    RunFirst(c, Push(n), [Load(n)] + ([Decide(n, warm)] + []));
    RunFirst(b, Stage(n, wants), [Push(n)] + ([Load(n)] + ([Decide(n, warm)] + [])));
    RunFirst(a, ReadGate(n), [Stage(n, wants)] + ([Push(n)] + ([Load(n)] + ([Decide(n, warm)] + []))));
    RunFirst(s, Wake(n), [ReadGate(n)] + ([Stage(n, wants)] + ([Push(n)] + ([Load(n)] + ([Decide(n, warm)] + [])))));
    assert [Wake(n)] + ([ReadGate(n)] + ([Stage(n, wants)] + ([Push(n)] + ([Load(n)] + ([Decide(n, warm)] + [])))))
        == [Wake(n), ReadGate(n), Stage(n, wants), Push(n), Load(n), Decide(n, warm)];
  }

  lemma EmptyRun(s: State)
    requires Shaped(s)
    ensures Runs(s, []) && Final(s, []) == s
  {
  }

  lemma RebuildSteps(s: State, n: nat, wants: bool) returns (a: State, b: State, c: State)
    requires Shaped(s) && n < |s.pc| && s.pc[n].Idle?
    ensures Shaped(a) && Shaped(b) && Shaped(c)
    ensures Enabled(s, Wake(n)) && Next(s, Wake(n)) == a && Enabled(a, ReadGate(n)) && Next(a, ReadGate(n)) == b
    ensures Enabled(b, Stage(n, wants)) && Next(b, Stage(n, wants)) == c
    ensures c == s.(pc := s.pc[n := Staged(s.now)], staged := s.staged[n := wants && !s.word], rebuilt := s.rebuilt[n := s.now])
  {
    a := Next(s, Wake(n));
    b := Next(a, ReadGate(n));
    c := Next(b, Stage(n, wants));
    assert c.pc == s.pc[n := Staged(s.now)];
  }

  lemma TailSteps(s: State, n: nat, warm: bool) returns (a: State, b: State, c: State)
    requires Shaped(s) && n < |s.pc| && s.pc[n].Staged?
    ensures Shaped(a) && Shaped(b) && Shaped(c)
    ensures Enabled(s, Push(n)) && Next(s, Push(n)) == a && Enabled(a, Load(n)) && Next(a, Load(n)) == b
    ensures Enabled(b, Decide(n, warm)) && Next(b, Decide(n, warm)) == c
    ensures c == s.(pc := s.pc[n := Idle], gate := s.gate[n := s.staged[n]],
                    permission := s.permission[n := s.permission[n] || (warm && !s.word)])
  {
    a := Next(s, Push(n));
    b := Next(a, Load(n));
    c := Next(b, Decide(n, warm));
    assert c.pc == s.pc[n := Idle];
    assert c.permission == s.permission[n := s.permission[n] || (warm && !s.word)];
  }

  /** A trip with a publication anywhere after it leaves the bit published, whatever runs between. */
  lemma {:induction false} TripThenPublish(s: State, steps: seq<Step>, i: nat, j: nat)
    requires Shaped(s) && Runs(s, steps) && j < |steps| && steps[j] == Publish
    requires s.tripped || (i < j && steps[i] == TripGlobal)
    ensures Published(Final(s, steps))
    decreases |steps|
  {
    var t := Next(s, steps[0]);
    if j == 0 {
      StaysPublished(t, steps[1..]);
    } else {
      TripThenPublish(t, steps[1..], if i == 0 then 0 else i - 1, j - 1);
    }
  }

  lemma {:induction false} StaysPublished(s: State, steps: seq<Step>)
    requires Shaped(s) && Runs(s, steps) && Published(s)
    ensures Published(Final(s, steps))
    decreases |steps|
  {
    if steps != [] { StaysPublished(Next(s, steps[0]), steps[1..]); }
  }

  /** A trip takes every permission, and none comes back without a grant. */
  lemma {:induction false} TripTakesPermissions(s: State, steps: seq<Step>, n: nat)
    requires Shaped(s) && Runs(s, [TripGlobal] + steps) && n < |s.pc|
    requires forall step :: step in steps ==> !step.WarmupGrant? && (step.Decide? ==> step.n != n || !step.warm)
    ensures !Final(s, [TripGlobal] + steps).permission[n]
  {
    assert ([TripGlobal] + steps)[1..] == steps;
    StaysTaken(Next(s, TripGlobal), steps, n);
  }

  lemma {:induction false} StaysTaken(s: State, steps: seq<Step>, n: nat)
    requires Shaped(s) && Runs(s, steps) && n < |s.pc| && !s.permission[n]
    requires forall step :: step in steps ==> !step.WarmupGrant? && (step.Decide? ==> step.n != n || !step.warm)
    ensures !Final(s, steps).permission[n]
    decreases |steps|
  {
    if steps != [] {
      assert steps[0] in steps && forall x :: x in steps[1..] ==> x in steps;
      StaysTaken(Next(s, steps[0]), steps[1..], n);
    }
  }

  /** The flag is never taken down, so a published bit stays published. */
  ghost predicate Published(s: State) {
    s.tripped && s.word
  }

  predicate HoldsStaleRead(s: State, n: nat) {
    n < |s.pc| && s.pc[n] == Loaded(false)
  }

  /** Once the bit is published, no run of any length and any interleaving grants a node more
      than once, and not at all unless its slow path was already past its load. */
  lemma {:induction false} AtMostOneStaleGrant(s: State, steps: seq<Step>, n: nat)
    requires Shaped(s) && Published(s) && Runs(s, steps)
    ensures Published(Final(s, steps))
    ensures Grants(s, steps, n) <= if HoldsStaleRead(s, n) then 1 else 0
    decreases |steps|
  {
    if steps != [] {
      AtMostOneStaleGrant(Next(s, steps[0]), steps[1..], n);
    }
  }

  /** The bound is exact: a node holding a stale read can still be granted once. */
  lemma StaleReadCanGrant(s: State, n: nat)
    requires Shaped(s) && HoldsStaleRead(s, n)
    ensures Runs(s, [Decide(n, true)]) && Grants(s, [Decide(n, true)], n) == 1
    ensures Final(s, [Decide(n, true)]).permission[n]
  {
    var steps := [Decide(n, true)];
    assert steps[1..] == [];
    assert Runs(Next(s, steps[0]), []);
  }

  /** A run that trips nothing again leaves a permission that was granted stale in place: the
      published bit alone takes nothing back. */
  lemma {:induction false} StaleGrantPersists(s: State, steps: seq<Step>, n: nat)
    requires Shaped(s) && Runs(s, steps) && n < |s.permission| && s.permission[n]
    requires TripGlobal !in steps
    ensures Final(s, steps).permission[n]
    decreases |steps|
  {
    if steps != [] {
      assert steps[0] in steps && forall x :: x in steps[1..] ==> x in steps;
      StaleGrantPersists(Next(s, steps[0]), steps[1..], n);
    }
  }

  // ---- the backtest's warm-up grant ----

  /** How often the run grants node n in the backtest's warm-up, which reads no word. */
  function WarmupGrants(s: State, steps: seq<Step>, n: nat): nat
    requires Shaped(s) && Runs(s, steps)
    decreases |steps|
  {
    if steps == [] then 0
    else (if steps[0].WarmupGrant? && n in steps[0].nodes then 1 else 0) + WarmupGrants(Next(s, steps[0]), steps[1..], n)
  }

  /** It comes once in a run, published bit or not, and never again. */
  lemma {:induction false} AtMostOneWarmupGrant(s: State, steps: seq<Step>, n: nat)
    requires Shaped(s) && Runs(s, steps)
    ensures WarmupGrants(s, steps, n) <= if s.warmupDue then 1 else 0
    decreases |steps|
  {
    if steps != [] {
      AtMostOneWarmupGrant(Next(s, steps[0]), steps[1..], n);
    }
  }

  /** While it is due the published bit does not stop it. */
  lemma WarmupIgnoresKill(s: State, n: nat)
    requires Shaped(s) && Published(s) && s.warmupDue && n < |s.pc|
    ensures Runs(s, [WarmupGrant({n})]) && WarmupGrants(s, [WarmupGrant({n})], n) == 1
    ensures Final(s, [WarmupGrant({n})]).permission[n]
  {
    var steps := [WarmupGrant({n})];
    assert steps[1..] == [];
    assert Runs(Next(s, steps[0]), []);
  }

  // ---- the entry gate ----

  /** How often the run publishes an open entry gate for node n. */
  function OpenPushes(s: State, steps: seq<Step>, n: nat): nat
    requires Shaped(s) && Runs(s, steps)
    decreases |steps|
  {
    if steps == [] then 0
    else (if IsOpenPush(s, steps[0], n) then 1 else 0) + OpenPushes(Next(s, steps[0]), steps[1..], n)
  }

  /** The node's cycle was past its rebuild load when the bit was published, and may still push an
      open gate. */
  predicate HoldsOpenGate(s: State, n: nat)
    requires Shaped(s)
  {
    n < |s.pc| && ((s.pc[n].Rebuilding? && !s.pc[n].gateSawGlobal) || (s.pc[n].Staged? && s.staged[n]))
  }

  predicate NeverLazy(steps: seq<Step>, n: nat) {
    forall i :: 0 <= i < |steps| ==> steps[i] != Skip(n)
  }

  /** With every cycle a full rebuild, each node publishes an open gate at most once after the
      publication, and not at all unless its cycle was already past its rebuild load. */
  lemma {:induction false} AtMostOneOpenGate(s: State, steps: seq<Step>, n: nat)
    requires Shaped(s) && Published(s) && Runs(s, steps) && NeverLazy(steps, n)
    ensures OpenPushes(s, steps, n) <= if HoldsOpenGate(s, n) then 1 else 0
    decreases |steps|
  {
    if steps != [] {
      AtMostOneOpenGate(Next(s, steps[0]), steps[1..], n);
    }
  }

  /** Nothing open is staged for the node or on its way. */
  predicate GateShut(s: State, n: nat)
    requires Shaped(s)
  {
    n < |s.pc| && !s.staged[n] && (s.pc[n].Rebuilding? ==> s.pc[n].gateSawGlobal)
  }

  /** Once a node has staged a closed gate under the published bit, no cycle of any kind, lazy ones
      included, opens it again, and its next push closes the published gate for good. */
  lemma {:induction false} ShutForGood(s: State, steps: seq<Step>, n: nat)
    requires Shaped(s) && Published(s) && Runs(s, steps) && GateShut(s, n)
    ensures OpenPushes(s, steps, n) == 0 && GateShut(Final(s, steps), n)
    ensures !s.gate[n] || Push(n) in steps ==> !Final(s, steps).gate[n]
    decreases |steps|
  {
    if steps != [] {
      ShutForGood(Next(s, steps[0]), steps[1..], n);
      if Push(n) in steps && Push(n) !in steps[1..] {
        assert steps[0] == Push(n);
      }
    }
  }

  // ---- how long a staged open gate can live ----

  /** Times on record never exceed the clock, and a gate on its way was rebuilt by its own cycle or
      is republished within the force period. */
  predicate TimesAgree(s: State, n: nat)
    requires Shaped(s) && n < |s.pc|
  {
    && s.rebuilt[n] <= s.now
    && match s.pc[n]
       case Woken(at) => s.rebuilt[n] <= at <= s.now
       case Rebuilding(_, at) => s.rebuilt[n] <= at <= s.now
       case Staged(at) => s.rebuilt[n] <= at <= s.now && (at == s.rebuilt[n] || MayBeLazy(s, s.rebuilt[n], at))
       case _ => true
  }

  lemma TimesStayAgreed(s: State, step: Step, n: nat)
    requires Shaped(s) && Enabled(s, step) && n < |s.pc| && TimesAgree(s, n)
    ensures TimesAgree(Next(s, step), n)
  {
  }

  /** The full rebuild that an open gate of the node would come from, by its waking time: the one
      under way that saw the bit clear, or the one that staged the gate now pending. */
  function OpenRebuild(s: State, n: nat): Option<nat>
    requires Shaped(s) && n < |s.pc|
  {
    if s.pc[n].Rebuilding? then (if s.pc[n].gateSawGlobal then None else Some(s.pc[n].at))
    else if s.staged[n] then Some(s.rebuilt[n]) else None
  }

  /** Under the published bit no step makes a new one. */
  lemma NoNewOpenRebuild(s: State, step: Step, n: nat)
    requires Shaped(s) && Enabled(s, step) && n < |s.pc| && Published(s)
    ensures Published(Next(s, step))
    ensures OpenRebuild(Next(s, step), n) in {OpenRebuild(s, n), None}
  {
  }

  /** The waking times of the cycles that publish an open gate for node n, in order. */
  function OpenPushTimes(s: State, steps: seq<Step>, n: nat): (r: seq<nat>)
    requires Shaped(s) && Runs(s, steps)
    ensures |r| == OpenPushes(s, steps, n)
    decreases |steps|
  {
    if steps == [] then []
    else (if IsOpenPush(s, steps[0], n) then [s.pc[n].at] else []) + OpenPushTimes(Next(s, steps[0]), steps[1..], n)
  }

  /** A cycle that publishes an open gate of the full rebuild that woke at `rebuilt`: that rebuild
      itself, or one that woke less than a force period after it. */
  predicate WithinPeriod(s: State, rebuilt: nat, at: nat) {
    at == rebuilt || (s.lazyOn && rebuilt < at < rebuilt + s.period)
  }

  /** After the publication every open gate comes from one full rebuild that read the word before
      it, and is pushed by a cycle that woke less than one force period after that rebuild: less
      than one force period after the publication.  In every interleaving of any length. */
  lemma {:induction false} OpenGatesDieWithThePeriod(s: State, steps: seq<Step>, n: nat)
    requires Shaped(s) && Published(s) && Runs(s, steps) && n < |s.pc| && TimesAgree(s, n)
    ensures forall at :: at in OpenPushTimes(s, steps, n) ==>
              && OpenRebuild(s, n).Some? && WithinPeriod(s, OpenRebuild(s, n).value, at)
              && (at <= s.now || at < s.now + s.period)
    decreases |steps|
  {
    if steps != [] {
      var t := Next(s, steps[0]);
      TimesStayAgreed(s, steps[0], n);
      NoNewOpenRebuild(s, steps[0], n);
      OpenGatesDieWithThePeriod(t, steps[1..], n);
      OpenRebuildIsPast(s, n);
    }
  }

  lemma OpenRebuildIsPast(s: State, n: nat)
    requires Shaped(s) && n < |s.pc| && TimesAgree(s, n)
    ensures OpenRebuild(s, n).Some? ==> OpenRebuild(s, n).value <= s.now
  {
  }

  /** Every state a run reaches from a boot (no cycle under way, no rebuild on record) has these times. */
  lemma {:induction false} TimesAgreeAlways(s: State, steps: seq<Step>, n: nat)
    requires Shaped(s) && Runs(s, steps) && n < |s.pc|
    requires TimesAgree(s, n) || (s.pc[n].Idle? && s.rebuilt[n] == 0)
    ensures TimesAgree(Final(s, steps), n)
    decreases |steps|
  {
    if steps != [] {
      TimesStayAgreed(s, steps[0], n);
      TimesAgreeAlways(Next(s, steps[0]), steps[1..], n);
    }
  }

  lemma OpenFirst(s: State, step: Step, rest: seq<Step>, n: nat)
    requires Shaped(s) && Enabled(s, step)
    ensures Runs(s, [step] + rest) <==> Runs(Next(s, step), rest)
    ensures Runs(Next(s, step), rest) ==>
              OpenPushTimes(s, [step] + rest, n)
              == (if IsOpenPush(s, step, n) then [s.pc[n].at] else []) + OpenPushTimes(Next(s, step), rest, n)
  {
    assert ([step] + rest)[1..] == rest;
  }

  /** The bound is met: at any time up to the force period a lazy cycle may still wake and push the
      open gate. */
  lemma LastLazyCycle(s: State, n: nat, at: nat)
    requires Shaped(s) && n < |s.pc| && s.pc[n].Idle? && s.staged[n]
    requires s.lazyOn && 0 < s.rebuilt[n] <= s.now <= at < s.rebuilt[n] + s.period
    ensures var steps := [Tick(at - s.now), Wake(n), Skip(n), Push(n)];
            Runs(s, steps) && OpenPushTimes(s, steps, n) == [at]
  {
    hide Runs, OpenPushTimes, OpenPushes;
    var a := Next(s, Tick(at - s.now));
    assert a == s.(now := at);
    LazyPush(a, n);
    OpenFirst(s, Tick(at - s.now), [Wake(n), Skip(n), Push(n)], n);
    assert [Tick(at - s.now), Wake(n), Skip(n), Push(n)] == [Tick(at - s.now)] + [Wake(n), Skip(n), Push(n)];
  }

  lemma LazyPush(s: State, n: nat)
    requires Shaped(s) && n < |s.pc| && s.pc[n].Idle? && s.staged[n] && MayBeLazy(s, s.rebuilt[n], s.now)
    ensures Runs(s, [Wake(n), Skip(n), Push(n)]) && OpenPushTimes(s, [Wake(n), Skip(n), Push(n)], n) == [s.now]
  {
    var a := Next(s, Wake(n));
    var b := Next(a, Skip(n));
    var c := Next(b, Push(n));
    assert a == s.(pc := s.pc[n := Woken(s.now)]) && b == s.(pc := s.pc[n := Staged(s.now)]);
    assert Runs(c, []) && OpenPushTimes(c, [], n) == [];
    hide Next, MayBeLazy;
    OpenFirst(b, Push(n), [], n);
    OpenFirst(a, Skip(n), [Push(n)], n);
    OpenFirst(s, Wake(n), [Skip(n), Push(n)], n);
    assert [Push(n)] == [Push(n)] + [];
    assert [Skip(n), Push(n)] == [Skip(n)] + [Push(n)];
    assert [Wake(n), Skip(n), Push(n)] == [Wake(n)] + [Skip(n), Push(n)];
  }

  /** The rebuild an open gate would come from is young enough for another lazy cycle right now. */
  predicate StillFresh(s: State, n: nat)
    requires Shaped(s) && n < |s.pc|
  {
    OpenRebuild(s, n).Some? && MayBeLazy(s, OpenRebuild(s, n).value, s.now)
  }

  /** The next step of a node whose cycles are lazy whenever they can be. */
  function LazyStep(s: State, n: nat): Step
    requires Shaped(s) && n < |s.pc|
  {
    match s.pc[n]
    case Idle => Wake(n)
    case Woken(_) => Skip(n)
    case Rebuilding(_, _) => Stage(n, true)
    case Staged(_) => Push(n)
    case Pushed => Load(n)
    case Loaded(_) => Decide(n, false)
  }

  function StepsToPush(pc: Pc): nat {
    match pc
    case Staged(_) => 0
    case Woken(_) => 1
    case Rebuilding(_, _) => 1
    case Idle => 2
    case Loaded(_) => 3
    case Pushed => 4
  }

  lemma LazyStepKeepsFresh(s: State, n: nat)
    requires Shaped(s) && n < |s.pc| && TimesAgree(s, n) && StillFresh(s, n)
    ensures var step := LazyStep(s, n);
            && Enabled(s, step) && TimesAgree(Next(s, step), n) && StillFresh(Next(s, step), n)
            && (IsOpenPush(s, step, n) <==> s.pc[n].Staged?)
            && (!s.pc[n].Staged? ==> StepsToPush(Next(s, step).pc[n]) < StepsToPush(s.pc[n]))
  {
    TimesStayAgreed(s, LazyStep(s, n), n);
  }

  /** Within the force period lazy cycles republish the open gate any number of times. */
  lemma {:induction false} LazyCyclesKeepOpen(s: State, n: nat, k: nat) returns (steps: seq<Step>)
    requires Shaped(s) && n < |s.pc| && TimesAgree(s, n) && StillFresh(s, n)
    ensures Runs(s, steps) && OpenPushes(s, steps, n) == k
    decreases k, StepsToPush(s.pc[n])
  {
    steps := [];
    if k > 0 {
      var step := LazyStep(s, n);
      LazyStepKeepsFresh(s, n);
      var rest := LazyCyclesKeepOpen(Next(s, step), n, if s.pc[n].Staged? then k - 1 else k);
      steps := [step] + rest;
      OpenFirst(s, step, rest, n);
    }
  }

  /** What may still push: a cycle that has staged, or will stage, an open gate, or has already
      woken in time to be lazy. */
  predicate OneLeft(s: State, n: nat)
    requires Shaped(s) && n < |s.pc|
  {
    OpenRebuild(s, n).Some? &&
    match s.pc[n]
    case Rebuilding(_, _) => true
    case Staged(_) => true
    case Woken(at) => MayBeLazy(s, s.rebuilt[n], at)
    case _ => false
  }

  lemma {:induction false} StaleRebuildPushesOnce(s: State, steps: seq<Step>, n: nat)
    requires Shaped(s) && Published(s) && Runs(s, steps) && n < |s.pc| && TimesAgree(s, n) && !StillFresh(s, n)
    ensures OpenPushes(s, steps, n) <= if OneLeft(s, n) then 1 else 0
    decreases |steps|
  {
    if steps != [] {
      TimesStayAgreed(s, steps[0], n);
      StaleStep(s, steps[0], n);
      StaleRebuildPushesOnce(Next(s, steps[0]), steps[1..], n);
    }
  }

  lemma StaleStep(s: State, step: Step, n: nat)
    requires Shaped(s) && Enabled(s, step) && Published(s) && n < |s.pc| && TimesAgree(s, n) && !StillFresh(s, n)
    ensures Published(Next(s, step)) && !StillFresh(Next(s, step), n)
    ensures OneLeft(Next(s, step), n) || IsOpenPush(s, step, n) ==> OneLeft(s, n)
    ensures IsOpenPush(s, step, n) ==> !OneLeft(Next(s, step), n)
  {
  }

  ghost predicate Bounded(s: State, n: nat, bound: nat)
    requires Shaped(s)
  {
    forall steps: seq<Step> | Runs(s, steps) :: OpenPushes(s, steps, n) <= bound
  }

  /** The number of open gates a node publishes after the bit is bounded, by one, if and only if no
      open gate is staged or on its way, or its full rebuild is too old for a lazy cycle: always so
      with lazy cycles off or a force period of zero. */
  lemma OpenGatesBoundedExactly(s: State, n: nat)
    requires Shaped(s) && Published(s) && n < |s.pc| && TimesAgree(s, n)
    ensures (exists bound: nat :: Bounded(s, n, bound)) <==> !StillFresh(s, n)
    ensures !StillFresh(s, n) ==> Bounded(s, n, 1)
    ensures !s.lazyOn || s.period == 0 ==> Bounded(s, n, 1)
  {
    if !StillFresh(s, n) {
      forall steps: seq<Step> | Runs(s, steps)
        ensures OpenPushes(s, steps, n) <= 1
      {
        StaleRebuildPushesOnce(s, steps, n);
      }
      assert Bounded(s, n, 1);
    } else {
      forall bound: nat
        ensures !Bounded(s, n, bound)
      {
        var steps := LazyCyclesKeepOpen(s, n, bound + 1);
        assert OpenPushes(s, steps, n) > bound;
      }
    }
  }

  // ---- whole slow-path cycles, atomic with respect to the composer ----

  datatype Coarse =
    | TimePasses(us: nat)
    | ComposerTrip
    | ComposerPublish
    | BacktestWarmup(nodes: set<nat>)
    | Cycle(n: nat, wants: bool, warm: bool)
    | LazyCycle(n: nat, warm: bool)

  function Ops(c: Coarse): seq<Step> {
    match c
    case TimePasses(us) => [Tick(us)]
    case ComposerTrip => [TripGlobal]
    case ComposerPublish => [Publish]
    case BacktestWarmup(nodes) => [WarmupGrant(nodes)]
    case Cycle(n, wants, warm) => [Wake(n), ReadGate(n), Stage(n, wants), Push(n), Load(n), Decide(n, warm)]
    case LazyCycle(n, warm) => [Wake(n), Skip(n), Push(n), Load(n), Decide(n, warm)]
  }

  function Expand(cs: seq<Coarse>): seq<Step> {
    if cs == [] then [] else Ops(cs[0]) + Expand(cs[1..])
  }

  predicate AllIdle(s: State) {
    forall n :: 0 <= n < |s.pc| ==> s.pc[n].Idle?
  }

  lemma RunsSplit(s: State, a: seq<Step>, b: seq<Step>, n: nat)
    requires Shaped(s) && Runs(s, a + b)
    ensures Runs(s, a) && Runs(Final(s, a), b)
    ensures Grants(s, a + b, n) == Grants(s, a, n) + Grants(Final(s, a), b, n)
    decreases |a|
  {
    if a == [] {
      assert a + b == b;
    } else {
      assert (a + b)[1..] == a[1..] + b;
      RunsSplit(Next(s, a[0]), a[1..], b, n);
    }
  }

  /** Atomic cycles return every slow path to idle, at every point the composer may publish. */
  lemma {:induction false} AtomicCyclesStayIdle(s: State, cs: seq<Coarse>)
    requires Shaped(s) && AllIdle(s) && Runs(s, Expand(cs))
    ensures AllIdle(Final(s, Expand(cs)))
    decreases |cs|
  {
    hide Ops;
    if cs != [] {
      var first := Ops(cs[0]);
      RunsSplit(s, first, Expand(cs[1..]), 0);
      FinalSplit(s, first, Expand(cs[1..]));
      OneCycleIdle(s, cs[0]);
      AtomicCyclesStayIdle(Final(s, first), cs[1..]);
    }
  }

  lemma FinalSplit(s: State, a: seq<Step>, b: seq<Step>)
    requires Shaped(s) && Runs(s, a + b) && Runs(s, a) && Runs(Final(s, a), b)
    ensures Final(s, a + b) == Final(Final(s, a), b)
    decreases |a|
  {
    if a == [] {
      assert a + b == b;
    } else {
      assert (a + b)[1..] == a[1..] + b;
      FinalSplit(Next(s, a[0]), a[1..], b);
    }
  }

  predicate OthersIdle(s: State, n: nat) {
    forall m :: 0 <= m < |s.pc| && m != n ==> s.pc[m].Idle?
  }

  /** A step of node n's cycle, not its last. */
  predicate Inner(step: Step, n: nat) {
    (step.Wake? || step.ReadGate? || step.Stage? || step.Skip? || step.Push? || step.Load?) && step.n == n
  }

  /** The steps of one cycle of node n, up to its end. */
  predicate RestOfCycle(steps: seq<Step>, n: nat) {
    && steps != [] && steps[|steps| - 1].Decide? && steps[|steps| - 1].n == n
    && forall i :: 0 <= i < |steps| - 1 ==> Inner(steps[i], n)
  }

  lemma StepOfCycle(s: State, step: Step, n: nat)
    requires Shaped(s) && Enabled(s, step) && OthersIdle(s, n)
    ensures Inner(step, n) ==> OthersIdle(Next(s, step), n)
    ensures step.Decide? && step.n == n ==> AllIdle(Next(s, step))
  {
  }

  lemma {:induction false} CycleEndsIdle(s: State, steps: seq<Step>, n: nat)
    requires Shaped(s) && Runs(s, steps) && OthersIdle(s, n) && RestOfCycle(steps, n)
    ensures AllIdle(Final(s, steps))
    decreases |steps|
  {
    hide Next, Inner, Enabled, OthersIdle, AllIdle;
    StepOfCycle(s, steps[0], n);
    if |steps| > 1 {
      CycleEndsIdle(Next(s, steps[0]), steps[1..], n);
    }
  }

  lemma OneCycleIdle(s: State, c: Coarse)
    requires Shaped(s) && AllIdle(s) && Runs(s, Ops(c))
    ensures AllIdle(Final(s, Ops(c)))
  {
    if c.Cycle? || c.LazyCycle? {
      hide Runs, Final;
      assert RestOfCycle(Ops(c), c.n);
      CycleEndsIdle(s, Ops(c), c.n);
    } else {
      assert Ops(c)[1..] == [];
    }
  }

  /** Whole cycles atomic with respect to composes: from an idle start, whatever happened before
      the bit was published, no slow-path grant at all follows the publication.  What can follow it
      is the backtest's own warm-up grant, if that was still due. */
  lemma AtomicCyclesNeverGrantStale(s: State, before: seq<Coarse>, after: seq<Coarse>, n: nat)
    requires Shaped(s) && AllIdle(s) && Runs(s, Expand(before))
    requires Published(Final(s, Expand(before))) && Runs(Final(s, Expand(before)), Expand(after))
    ensures Grants(Final(s, Expand(before)), Expand(after), n) == 0
    ensures WarmupGrants(Final(s, Expand(before)), Expand(after), n) <= if Final(s, Expand(before)).warmupDue then 1 else 0
  {
    AtomicCyclesStayIdle(s, before);
    AtMostOneStaleGrant(Final(s, Expand(before)), Expand(after), n);
    AtMostOneWarmupGrant(Final(s, Expand(before)), Expand(after), n);
  }
}
