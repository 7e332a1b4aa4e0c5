/** The forward-scan label leaves.  Prices are real numbers; a leaf sees the tick prices up to the
    total it is given.  Each leaf is the loop of the engine, proved against a value-level
    definition that the leakage and streaming theorems reason about. */
module Labels {
  import opened Wrappers

  /** A label value; NotFinite stands for NaN and for infinities, which consumers treat alike. */
  datatype Label = Num(v: real) | NotFinite

  datatype Kind =
    | WinLoss | Barrier | ForwardPnl | Regime | VolBarrier | WillPeak | WillValley | PeakValleyStable
    | CsPercentileRank | CsZscoreRobust | CsVolscaledDemeaned | VolBarrier3C | VolBarrier3CTimed

  type Prices = seq<real>

  const VOL_MIN_PERIODS: nat := 5
  const VOL_WINDOW_DEFAULT: int := 500

  // ---- first passage ----

  datatype Touch = Neither | Up | Down

  /** The barrier the prices at j, j+1, ..., end-1 reach first; up wins on the same tick. */
  function FirstTouch(p: Prices, j: nat, end: nat, up: real, down: real): Touch
    requires end <= |p|
    decreases end - j
  {
    if j >= end then Neither
    else if p[j] >= up then Up
    else if p[j] <= down then Down
    else FirstTouch(p, j + 1, end, up, down)
  }

  predicate Between(p: Prices, j: nat, k: nat, up: real, down: real)
    requires k <= |p|
  {
    forall m :: j <= m < k ==> down < p[m] < up
  }

  /** What first passage means: up exactly when some tick reaches the up barrier with every tick
      before it strictly between the barriers, and neither exactly when all ticks are. */
  lemma FirstTouchMeaning(p: Prices, j: nat, end: nat, up: real, down: real)
    requires end <= |p|
    ensures FirstTouch(p, j, end, up, down) == Neither <==> Between(p, j, end, up, down)
    ensures FirstTouch(p, j, end, up, down) == Up
       <==> exists k :: j <= k < end && p[k] >= up && Between(p, j, k, up, down)
    decreases end - j
  {
    if j < end && down < p[j] < up {
      FirstTouchMeaning(p, j + 1, end, up, down);
      if k :| j < k < end && p[k] >= up && Between(p, j + 1, k, up, down) {
        assert Between(p, j, k, up, down);
      }
      if k :| j <= k < end && p[k] >= up && Between(p, j, k, up, down) {
        assert k != j && Between(p, j + 1, k, up, down);
      }
    } else if j < end {
      assert p[j] >= up ==> Between(p, j, j, up, down);
    }
  }

  method ScanTouch(p: Prices, start: nat, end: nat, up: real, down: real) returns (t: Touch)
    requires end <= |p|
    ensures t == FirstTouch(p, start, end, up, down)
  {
    var j := start;
    while j < end
      invariant FirstTouch(p, start, end, up, down) == FirstTouch(p, j, end, up, down)
    {
      if p[j] >= up { return Up; }
      if p[j] <= down { return Down; }
      j := j + 1;
    }
    t := Neither;
  }

  function OfTouch(t: Touch, neither: real, up: real, down: real): Label {
    match t
    case Neither => Num(neither)
    case Up => Num(up)
    case Down => Num(down)
  }

  // ---- windows ----

  function Positive(extra: int, default: nat): nat {
    if extra > 0 then extra else default
  }

  /** One past the last tick a bounded scan looks at. */
  function ScanEnd(idx: nat, lookahead: nat, total: nat): nat {
    if idx + lookahead > total then total else idx + lookahead
  }

  // ---- extrema ----

  /** The running extreme over the window and where it was first reached; `sign` is 1 for the
      maximum, -1 for the minimum. */
  function Extreme(p: Prices, start: nat, j: nat, price: real, idx: nat, sign: real): (real, nat)
    requires j <= |p|
    decreases j
  {
    if j <= start then (price, idx)
    else
      var (best, at) := Extreme(p, start, j - 1, price, idx, sign);
      if sign * p[j - 1] > sign * best then (p[j - 1], j - 1) else (best, at)
  }

  /** num / den > bar, with the IEEE reading of a zero denominator. */
  predicate RatioExceeds(num: real, den: real, bar: real) {
    if den == 0.0 then num > 0.0 else num / den > bar
  }

  function Extremum(p: Prices, idx: nat, price: real, extra: int, sign: real): Label
    requires idx < |p|
  {
    var lookahead := Positive(extra, 500);
    var (best, at) := Extreme(p, idx + 1, if idx + 1 <= ScanEnd(idx, lookahead, |p|) then ScanEnd(idx, lookahead, |p|) else idx + 1,
                              price, idx, sign);
    if at - idx < lookahead / 4 && RatioExceeds(sign * (best - price), price, 0.001) then Num(1.0) else Num(0.0)
  }

  // ---- sigma ----

  function VolStart(idx: nat, window: int): nat {
    if idx - window < 1 then 1 else idx - window
  }

  function Return(p: Prices, j: nat): real
    requires 1 <= j < |p| && p[j - 1] > 0.0
  {
    (p[j] - p[j - 1]) / p[j - 1]
  }

  datatype Moments = Moments(n: nat, sum: real, sumSq: real)

  function Accumulate(p: Prices, start: nat, j: nat): Moments
    requires 1 <= start && j <= |p|
    decreases j
  {
    if j <= start then Moments(0, 0.0, 0.0)
    else
      var m := Accumulate(p, start, j - 1);
      if p[j - 2] <= 0.0 then m
      else Push(m, Return(p, j - 1))
  }

  function Push(m: Moments, r: real): Moments {
    Moments(m.n + 1, m.sum + r, m.sumSq + r * r)
  }

  function VarianceOf(m: Moments): real
    requires m.n > 0
  {
    var mean := m.sum / m.n as real;
    m.sumSq / m.n as real - mean * mean
  }

  function Sigma(m: Moments, sqrt: real -> real): Option<real> {
    if m.n < VOL_MIN_PERIODS then None
    else
      var variance := VarianceOf(m);
      if variance <= 0.0 || sqrt(variance) <= 0.000000000000001 then None else Some(sqrt(variance))
  }

  function RollingSigma(p: Prices, idx: nat, window: int, sqrt: real -> real): Option<real>
    requires idx < |p|
  {
    if idx < VOL_MIN_PERIODS + 1 || idx - VolStart(idx, window) < VOL_MIN_PERIODS then None
    else Sigma(Accumulate(p, VolStart(idx, window), idx), sqrt)
  }

  /** The sigma loop; it looks at prices before the sample only. */
  method RollingSigmaScan(p: Prices, idx: nat, window: int, sqrt: real -> real) returns (r: Option<real>)
    requires idx < |p|
    ensures r == RollingSigma(p, idx, window, sqrt)
  {
    hide Push, Sigma, Return;
    if idx < VOL_MIN_PERIODS + 1 { return None; }
    var start := idx - window;
    if start < 1 { start := 1; }
    if idx - start < VOL_MIN_PERIODS { return None; }
    var m := Moments(0, 0.0, 0.0);
    for j := start to idx
      invariant m == Accumulate(p, start, j)
    {
      if p[j - 1] <= 0.0 { continue; }
      m := Push(m, Return(p, j));
    }
    r := Sigma(m, sqrt);
  }

  // ---- the leaves, as values ----

  function UpBarrier(price: real, pct: real): real { price * (1.0 + pct / 100.0) }

  function DownBarrier(price: real, pct: real): real { price * (1.0 - pct / 100.0) }

  function Above(price: real, width: real): real { price * (1.0 + width) }

  function Below(price: real, width: real): real { price * (1.0 - width) }

  /** The half-width of a barrier pair, in units of price. */
  function Width(k: real, vol: real, scale: real): real { k * vol * scale }

  function VolWindow(window: int): int { if window <= 0 then 20 else window }

  function BarrierK(k: real): real { if k <= 0.0 then 0.5 else k }

  function TimedWindow(sl: real): int { if sl >= VOL_MIN_PERIODS as real then sl.Floor else VOL_WINDOW_DEFAULT }

  function ForwardReturn(p: Prices, idx: nat, price: real, extra: int): Label
    requires idx < |p|
  {
    var forward := Positive(extra, 100);
    if idx + forward >= |p| || price <= 0.0 then NotFinite
    else Num((p[idx + forward] - price) / price)
  }

  function ForwardPnlOf(p: Prices, idx: nat, price: real, extra: int): Label
    requires idx < |p|
  {
    var target := if idx + extra >= |p| then |p| - 1 else idx + extra;
    if target <= idx then Num(0.0)
    else if price == 0.0 then NotFinite
    else Num((p[target] - price) / price * 100.0)
  }

  function BoundedTouch(p: Prices, idx: nat, lookahead: nat, up: real, down: real): Touch
    requires idx < |p|
  {
    FirstTouch(p, idx + 1, ScanEnd(idx, lookahead, |p|), up, down)
  }

  /** The label leaf of each kind: price at the sample, the two barrier slots, and the extra slot
      (a horizon, a window or a regime, by kind). */
  function Leaf(kind: Kind, p: Prices, idx: nat, price: real, tp: real, sl: real, extra: int, sqrt: real -> real): Label
    requires idx < |p|
  {
    match kind
    case WinLoss => OfTouch(FirstTouch(p, idx + 1, |p|, UpBarrier(price, tp), DownBarrier(price, sl)), 0.0, 1.0, 0.0)
    case Barrier => OfTouch(FirstTouch(p, idx + 1, |p|, UpBarrier(price, tp), DownBarrier(price, sl)), 0.5, 1.0, 0.0)
    case ForwardPnl => ForwardPnlOf(p, idx, price, extra)
    case Regime => Num(extra as real)
    case VolBarrier => VolTouch(p, idx, price, tp, extra, sqrt, 0.5, 1.0, 0.0)
    case WillPeak => Extremum(p, idx, price, extra, 1.0)
    case WillValley => Extremum(p, idx, price, extra, -1.0)
    case PeakValleyStable =>
      OfTouch(BoundedTouch(p, idx, Positive(extra, 500), UpBarrier(price, tp), DownBarrier(price, sl)), 0.0, 2.0, 1.0)
    case CsPercentileRank => ForwardReturn(p, idx, price, extra)
    case CsZscoreRobust => ForwardReturn(p, idx, price, extra)
    case CsVolscaledDemeaned => ForwardReturn(p, idx, price, extra)
    case VolBarrier3C => VolTouch(p, idx, price, tp, extra, sqrt, 0.0, 2.0, 1.0)
    case VolBarrier3CTimed => TimedTouch(p, idx, price, tp, sl, extra, sqrt)
  }

  function VolTouch(p: Prices, idx: nat, price: real, tp: real, window: int, sqrt: real -> real,
                    neither: real, up: real, down: real): Label
    requires idx < |p|
  {
    match RollingSigma(p, idx, VolWindow(window), sqrt)
    case None => Num(neither)
    case Some(vol) =>
      OfTouch(FirstTouch(p, idx + 1, |p|, Above(price, Width(BarrierK(tp), vol, 1.0)), Below(price, Width(BarrierK(tp), vol, 1.0))),
              neither, up, down)
  }

  function TimedTouch(p: Prices, idx: nat, price: real, tp: real, sl: real, extra: int, sqrt: real -> real): Label
    requires idx < |p|
  {
    match RollingSigma(p, idx, TimedWindow(sl), sqrt)
    case None => Num(0.0)
    case Some(vol) =>
      var lookahead := Positive(extra, 500);
      var width := Width(BarrierK(tp), vol, sqrt(lookahead as real));
      OfTouch(BoundedTouch(p, idx, lookahead, Above(price, width), Below(price, width)), 0.0, 2.0, 1.0)
  }

  // ---- the leaves, as the engine's loops ----

  method PeakValleyStableLeaf(p: Prices, idx: nat, price: real, tp: real, sl: real, extra: int, sqrt: real -> real)
    returns (r: Label)
    requires idx < |p|
    ensures r == Leaf(PeakValleyStable, p, idx, price, tp, sl, extra, sqrt)
  {
    var up, down := price * (1.0 + tp / 100.0), price * (1.0 - sl / 100.0);
    var lookahead := if extra > 0 then extra else 500;
    var end := idx + lookahead;
    if end > |p| { end := |p|; }
    var t := ScanTouch(p, idx + 1, end, up, down);
    r := match t case Up => Num(2.0) case Down => Num(1.0) case Neither => Num(0.0);
  }

  method VolBarrier3CTimedLeaf(p: Prices, idx: nat, price: real, tp: real, sl: real, extra: int, sqrt: real -> real)
    returns (r: Label)
    requires idx < |p|
    ensures r == Leaf(VolBarrier3CTimed, p, idx, price, tp, sl, extra, sqrt)
  {
    hide RollingSigma, FirstTouch, Above, Below, Width;
    var k := if tp <= 0.0 then 0.5 else tp;
    var window := if sl >= VOL_MIN_PERIODS as real then sl.Floor else VOL_WINDOW_DEFAULT;
    var sigma := RollingSigmaScan(p, idx, window, sqrt);
    if sigma.None? { return Num(0.0); }
    var lookahead := if extra > 0 then extra else 500;
    var end := idx + lookahead;
    if end > |p| { end := |p|; }
    var width := Width(k, sigma.value, sqrt(lookahead as real));
    var t := ScanTouch(p, idx + 1, end, Above(price, width), Below(price, width));
    r := match t case Up => Num(2.0) case Down => Num(1.0) case Neither => Num(0.0);
  }

  /** WILL_PEAK with sign 1, WILL_VALLEY with sign -1: the extreme of the window, near its start,
      by more than a tenth of a percent. */
  method ExtremumLeaf(p: Prices, idx: nat, price: real, extra: int, peak: bool) returns (r: Label)
    requires idx < |p|
    ensures r == Extremum(p, idx, price, extra, if peak then 1.0 else -1.0)
  {
    var lookahead := if extra > 0 then extra else 500;
    var end := idx + lookahead;
    if end > |p| { end := |p|; }
    var best, at := price, idx;
    ghost var sign := if peak then 1.0 else -1.0;
    var j := idx + 1;
    while j < end
      invariant idx + 1 <= j && (j <= end || j == idx + 1)
      invariant (best, at) == Extreme(p, idx + 1, j, price, idx, sign)
    {
      if (peak && p[j] > best) || (!peak && p[j] < best) { best, at := p[j], j; }
      j := j + 1;
    }
    var nearStart := at - idx < lookahead / 4;
    var move := if peak then best - price else price - best;
    r := if nearStart && RatioExceeds(move, price, 0.001) then Num(1.0) else Num(0.0);
  }

  /** What the running extreme means: no price of the window beats it, and it is the sample price
      or the first tick of the window to reach it. */
  lemma ExtremeMeaning(p: Prices, idx: nat, j: nat, price: real, sign: real)
    requires idx < j <= |p| && (sign == 1.0 || sign == -1.0)
    ensures var (best, at) := Extreme(p, idx + 1, j, price, idx, sign);
            && (forall k :: idx < k < j ==> sign * p[k] <= sign * best)
            && sign * price <= sign * best
            && ((at == idx && best == price)
                || (idx < at < j && p[at] == best && sign * price < sign * best
                    && forall k :: idx < k < at ==> sign * p[k] < sign * best))
    decreases j
  {
    if j > idx + 1 {
      ExtremeMeaning(p, idx, j - 1, price, sign);
    }
  }

  // ---- how far ahead a leaf looks ----

  /** Kinds whose label is a function of a bounded forward window. */
  predicate ForwardBounded(kind: Kind) {
    kind in {ForwardPnl, Regime, WillPeak, WillValley, PeakValleyStable,
             CsPercentileRank, CsZscoreRobust, CsVolscaledDemeaned, VolBarrier3CTimed}
  }

  /** The label at idx reads no tick at or beyond idx + Reach. */
  function Reach(kind: Kind, extra: int): nat
    requires ForwardBounded(kind)
  {
    match kind
    case ForwardPnl => if extra > 0 then extra + 1 else 1
    case Regime => 1
    case CsPercentileRank => Positive(extra, 100) + 1
    case CsZscoreRobust => Positive(extra, 100) + 1
    case CsVolscaledDemeaned => Positive(extra, 100) + 1
    case _ => Positive(extra, 500)
  }

  ghost predicate AgreeBefore(p: Prices, q: Prices, bound: nat) {
    bound <= |p| && bound <= |q| && forall k :: 0 <= k < bound ==> p[k] == q[k]
  }

  lemma TouchDependsOnWindow(p: Prices, q: Prices, j: nat, end: nat, up: real, down: real)
    requires AgreeBefore(p, q, end)
    ensures FirstTouch(p, j, end, up, down) == FirstTouch(q, j, end, up, down)
    decreases end - j
  {
    if j < end {
      TouchDependsOnWindow(p, q, j + 1, end, up, down);
    }
  }

  lemma ExtremeDependsOnWindow(p: Prices, q: Prices, start: nat, j: nat, price: real, idx: nat, sign: real)
    requires AgreeBefore(p, q, j)
    ensures Extreme(p, start, j, price, idx, sign) == Extreme(q, start, j, price, idx, sign)
    decreases j
  {
    if j > start {
      ExtremeDependsOnWindow(p, q, start, j - 1, price, idx, sign);
    }
  }

  lemma ReturnsAgree(p: Prices, q: Prices, j: nat)
    requires 1 <= j && AgreeBefore(p, q, j + 1)
    ensures p[j - 1] == q[j - 1] && (p[j - 1] > 0.0 ==> Return(p, j) == Return(q, j))
  {
  }

  lemma MomentsDependOnPast(p: Prices, q: Prices, start: nat, j: nat)
    requires AgreeBefore(p, q, j) && 1 <= start
    ensures Accumulate(p, start, j) == Accumulate(q, start, j)
    decreases j
  {
    hide Push, Return;
    if j > start {
      ReturnsAgree(p, q, j - 1);
      MomentsDependOnPast(p, q, start, j - 1);
    }
  }

  /** Non-interference of every forward-bounded leaf: two tick arrays, of whatever lengths, that
      agree on everything before idx + Reach give the same label. */
  lemma LeafNonInterference(kind: Kind, p: Prices, q: Prices, idx: nat, price: real, tp: real, sl: real, extra: int,
                            sqrt: real -> real)
    requires ForwardBounded(kind) && idx < |p| && idx < |q|
    requires AgreeBefore(p, q, idx + Reach(kind, extra))
    ensures Leaf(kind, p, idx, price, tp, sl, extra, sqrt) == Leaf(kind, q, idx, price, tp, sl, extra, sqrt)
  {
    hide Extremum, BoundedTouch, UpBarrier, DownBarrier, TimedTouch;
    match kind
    case WillPeak => ExtremumNonInterference(p, q, idx, price, extra, 1.0);
    case WillValley => ExtremumNonInterference(p, q, idx, price, extra, -1.0);
    case PeakValleyStable =>
      BoundedNonInterference(p, q, idx, Positive(extra, 500), UpBarrier(price, tp), DownBarrier(price, sl));
    case VolBarrier3CTimed => TimedNonInterference(p, q, idx, price, tp, sl, extra, sqrt);
    case _ =>
  }

  lemma ExtremumNonInterference(p: Prices, q: Prices, idx: nat, price: real, extra: int, sign: real)
    requires idx < |p| && idx < |q| && AgreeBefore(p, q, idx + Positive(extra, 500))
    ensures Extremum(p, idx, price, extra, sign) == Extremum(q, idx, price, extra, sign)
  {
    hide Extreme, RatioExceeds;
    var end := idx + Positive(extra, 500);
    ExtremeDependsOnWindow(p, q, idx + 1, if idx + 1 <= end then end else idx + 1, price, idx, sign);
  }

  lemma BoundedNonInterference(p: Prices, q: Prices, idx: nat, lookahead: nat, up: real, down: real)
    requires idx < |p| && idx < |q| && AgreeBefore(p, q, idx + lookahead)
    ensures BoundedTouch(p, idx, lookahead, up, down) == BoundedTouch(q, idx, lookahead, up, down)
  {
    TouchDependsOnWindow(p, q, idx + 1, idx + lookahead, up, down);
  }

  lemma TimedNonInterference(p: Prices, q: Prices, idx: nat, price: real, tp: real, sl: real, extra: int, sqrt: real -> real)
    requires idx < |p| && idx < |q| && AgreeBefore(p, q, idx + Positive(extra, 500))
    ensures TimedTouch(p, idx, price, tp, sl, extra, sqrt) == TimedTouch(q, idx, price, tp, sl, extra, sqrt)
  {
    hide BoundedTouch, Sigma, Accumulate, Above, Below, Width;
    MomentsDependOnPast(p, q, VolStart(idx, TimedWindow(sl)), idx);
    var sigma := RollingSigma(p, idx, TimedWindow(sl), sqrt);
    if sigma.Some? {
      var width := Width(BarrierK(tp), sigma.value, sqrt(Positive(extra, 500) as real));
      BoundedNonInterference(p, q, idx, Positive(extra, 500), Above(price, width), Below(price, width));
    }
  }

  /** The unbounded barrier scans have no such bound: whatever the cut, two arrays that agree up
      to it can be labelled differently. */
  lemma UnboundedScanReachesAnything(p: Prices, idx: nat, price: real, sqrt: real -> real) returns (q: Prices)
    requires idx < |p| && price > 0.0
    requires forall k :: idx < k < |p| ==> p[k] == price
    ensures AgreeBefore(p, q, |p|)
    ensures Leaf(WinLoss, p, idx, price, 1.0, 1.0, 0, sqrt) != Leaf(WinLoss, q, idx, price, 1.0, 1.0, 0, sqrt)
  {
    q := p + [2.0 * price];
    var up, down := UpBarrier(price, 1.0), DownBarrier(price, 1.0);
    FirstTouchMeaning(p, idx + 1, |p|, up, down);
    FirstTouchMeaning(q, idx + 1, |q|, up, down);
    assert q[|p|] >= up;
  }
}
