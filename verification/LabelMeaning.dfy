/** What each label says about the prices of its window: which barrier a tick reached first, where
    the extreme lies, what the return is, and what the rolling deviation measures. */
module LabelMeaning {
  import opened Labels

  // ---- first passage over a window of ticks ----

  predicate Inside(p: Prices, idx: nat, k: nat, up: real, down: real)
    requires k <= |p|
  {
    forall m :: idx < m < k ==> down < p[m] < up
  }

  /** Some tick of the window is at or above the up barrier and every tick before it is inside. */
  predicate UpFirst(p: Prices, idx: nat, end: nat, up: real, down: real)
    requires end <= |p|
  {
    exists k :: idx < k < end && p[k] >= up && Inside(p, idx, k, up, down)
  }

  /** The same for the down barrier; a tick that is past both counts for the up barrier. */
  predicate DownFirst(p: Prices, idx: nat, end: nat, up: real, down: real)
    requires end <= |p|
  {
    exists k :: idx < k < end && p[k] <= down && p[k] < up && Inside(p, idx, k, up, down)
  }

  lemma TouchIsFirst(p: Prices, idx: nat, end: nat, up: real, down: real)
    requires end <= |p|
    ensures FirstTouch(p, idx + 1, end, up, down) == Up <==> UpFirst(p, idx, end, up, down)
    ensures FirstTouch(p, idx + 1, end, up, down) == Down <==> DownFirst(p, idx, end, up, down)
    ensures FirstTouch(p, idx + 1, end, up, down) == Neither <==> Inside(p, idx, end, up, down)
  {
    FirstTouchMeaning(p, idx + 1, end, up, down);
    DownMeaning(p, idx + 1, end, up, down);
    hide FirstTouch;
    assert forall k :: idx < k < end ==> (Inside(p, idx, k, up, down) <==> Between(p, idx + 1, k, up, down));
    assert Inside(p, idx, end, up, down) <==> Between(p, idx + 1, end, up, down);
    hide Inside, Between;
  }

  lemma DownMeaning(p: Prices, j: nat, end: nat, up: real, down: real)
    requires end <= |p|
    ensures FirstTouch(p, j, end, up, down) == Down
       <==> exists k :: j <= k < end && p[k] <= down && p[k] < up && Between(p, j, k, up, down)
    decreases end - j
  {
    if j < end && down < p[j] < up {
      DownMeaning(p, j + 1, end, up, down);
      if k :| j < k < end && p[k] <= down && p[k] < up && Between(p, j + 1, k, up, down) {
        assert Between(p, j, k, up, down);
      }
      if k :| j <= k < end && p[k] <= down && p[k] < up && Between(p, j, k, up, down) {
        assert k != j && Between(p, j + 1, k, up, down);
      }
    } else if j < end {
      assert p[j] <= down && p[j] < up ==> Between(p, j, j, up, down);
    }
  }

  /** One past the last tick of the window of this look-ahead, inside the market. */
  function WindowEnd(idx: nat, lookahead: nat, total: nat): nat {
    if idx + lookahead <= total then idx + lookahead else total
  }

  // ---- barrier labels ----

  /** The label is `upClass` exactly when the up barrier is reached first, `downClass` exactly when the
      down barrier is, and `neither` exactly when every tick of the window stays inside. */
  predicate Classed(l: Label, p: Prices, idx: nat, end: nat, up: real, down: real,
                    neither: real, upClass: real, downClass: real)
    requires end <= |p|
  {
    && (l == Num(upClass) <==> UpFirst(p, idx, end, up, down))
    && (l == Num(downClass) <==> DownFirst(p, idx, end, up, down))
    && (l == Num(neither) <==> Inside(p, idx, end, up, down))
  }

  lemma TouchClasses(p: Prices, idx: nat, end: nat, up: real, down: real, neither: real, upClass: real, downClass: real)
    requires end <= |p| && neither != upClass && neither != downClass && upClass != downClass
    ensures Classed(OfTouch(FirstTouch(p, idx + 1, end, up, down), neither, upClass, downClass),
                    p, idx, end, up, down, neither, upClass, downClass)
  {
    TouchIsFirst(p, idx, end, up, down);
    hide FirstTouch, UpFirst, DownFirst, Inside;
  }

  /** PEAK_VALLEY_STABLE: 2 for the up barrier first, 1 for the down barrier first, 0 for neither. */
  lemma PeakValleyStableMeaning(p: Prices, idx: nat, price: real, tp: real, sl: real, extra: int, sqrt: real -> real)
    requires idx < |p|
    ensures Classed(Leaf(PeakValleyStable, p, idx, price, tp, sl, extra, sqrt),
                    p, idx, WindowEnd(idx, if extra > 0 then extra else 500, |p|),
                    price * (1.0 + tp / 100.0), price * (1.0 - sl / 100.0), 0.0, 2.0, 1.0)
  {
    hide Classed, FirstTouch;
    TouchClasses(p, idx, WindowEnd(idx, if extra > 0 then extra else 500, |p|),
                 price * (1.0 + tp / 100.0), price * (1.0 - sl / 100.0), 0.0, 2.0, 1.0);
  }

  /** BARRIER over the rest of the market: 1, 0 and one half. */
  lemma BarrierMeaning(p: Prices, idx: nat, price: real, tp: real, sl: real, extra: int, sqrt: real -> real)
    requires idx < |p|
    ensures Classed(Leaf(Barrier, p, idx, price, tp, sl, extra, sqrt), p, idx, |p|,
                    price * (1.0 + tp / 100.0), price * (1.0 - sl / 100.0), 0.5, 1.0, 0.0)
  {
    hide Classed, FirstTouch;
    TouchClasses(p, idx, |p|, price * (1.0 + tp / 100.0), price * (1.0 - sl / 100.0), 0.5, 1.0, 0.0);
  }

  /** WIN_LOSS over the rest of the market: 1 for the up barrier first, else 0. */
  lemma WinLossMeaning(p: Prices, idx: nat, price: real, tp: real, sl: real, extra: int, sqrt: real -> real)
    requires idx < |p|
    ensures Leaf(WinLoss, p, idx, price, tp, sl, extra, sqrt)
         == if UpFirst(p, idx, |p|, price * (1.0 + tp / 100.0), price * (1.0 - sl / 100.0)) then Num(1.0) else Num(0.0)
  {
    TouchIsFirst(p, idx, |p|, price * (1.0 + tp / 100.0), price * (1.0 - sl / 100.0));
    hide FirstTouch, UpFirst, DownFirst, Inside;
  }

  /** Half the distance of the barriers, in units of price: k deviations, k one half when not set. */
  function VolWidth(tp: real, vol: real): real {
    (if tp <= 0.0 then 0.5 else tp) * vol
  }

  lemma BarriersOfWidth(price: real, width: real)
    ensures Above(price, width) == price * (1.0 + width) && Below(price, width) == price * (1.0 - width)
  {
  }

  /** VOL_BARRIER over the rest of the market, barriers k deviations away: 1, 0 and one half, which is
      also the label without a deviation. */
  lemma VolBarrierMeaning(p: Prices, idx: nat, price: real, tp: real, sl: real, extra: int, sqrt: real -> real)
    requires idx < |p|
    ensures var l := Leaf(VolBarrier, p, idx, price, tp, sl, extra, sqrt);
            match RollingSigma(p, idx, if extra <= 0 then 20 else extra, sqrt)
            case None => l == Num(0.5)
            case Some(vol) =>
              var width := VolWidth(tp, vol);
              Classed(l, p, idx, |p|, price * (1.0 + width), price * (1.0 - width), 0.5, 1.0, 0.0)
  {
    hide Classed, FirstTouch, RollingSigma;
    var sigma := RollingSigma(p, idx, if extra <= 0 then 20 else extra, sqrt);
    if sigma.Some? {
      var width := VolWidth(tp, sigma.value);
      assert Width(BarrierK(tp), sigma.value, 1.0) == width;
      BarriersOfWidth(price, width);
      hide Width, VolWidth, Above, Below;
      TouchClasses(p, idx, |p|, Above(price, width), Below(price, width), 0.5, 1.0, 0.0);
    }
  }

  /** VOL_BARRIER_3C: the same barriers with the classes 2, 1 and 0. */
  lemma VolBarrier3CMeaning(p: Prices, idx: nat, price: real, tp: real, sl: real, extra: int, sqrt: real -> real)
    requires idx < |p|
    ensures var l := Leaf(VolBarrier3C, p, idx, price, tp, sl, extra, sqrt);
            match RollingSigma(p, idx, if extra <= 0 then 20 else extra, sqrt)
            case None => l == Num(0.0)
            case Some(vol) =>
              var width := VolWidth(tp, vol);
              Classed(l, p, idx, |p|, price * (1.0 + width), price * (1.0 - width), 0.0, 2.0, 1.0)
  {
    hide Classed, FirstTouch, RollingSigma;
    var sigma := RollingSigma(p, idx, if extra <= 0 then 20 else extra, sqrt);
    if sigma.Some? {
      var width := VolWidth(tp, sigma.value);
      assert Width(BarrierK(tp), sigma.value, 1.0) == width;
      BarriersOfWidth(price, width);
      hide Width, VolWidth, Above, Below;
      TouchClasses(p, idx, |p|, Above(price, width), Below(price, width), 0.0, 2.0, 1.0);
    }
  }

  function TimedWidth(tp: real, vol: real, root: real): real {
    VolWidth(tp, vol) * root
  }

  /** VOL_BARRIER_3C_TIMED over its window, barriers widened by the square root of the look-ahead. */
  lemma TimedMeaning(p: Prices, idx: nat, price: real, tp: real, sl: real, extra: int, sqrt: real -> real)
    requires idx < |p|
    ensures var l := Leaf(VolBarrier3CTimed, p, idx, price, tp, sl, extra, sqrt);
            var lookahead := if extra > 0 then extra else 500;
            match RollingSigma(p, idx, if sl >= 5.0 then sl.Floor else 500, sqrt)
            case None => l == Num(0.0)
            case Some(vol) =>
              var width := TimedWidth(tp, vol, sqrt(lookahead as real));
              Classed(l, p, idx, WindowEnd(idx, lookahead, |p|), price * (1.0 + width), price * (1.0 - width), 0.0, 2.0, 1.0)
  {
    hide Classed, FirstTouch, RollingSigma;
    var lookahead := if extra > 0 then extra else 500;
    var sigma := RollingSigma(p, idx, if sl >= 5.0 then sl.Floor else 500, sqrt);
    if sigma.Some? {
      var width := TimedWidth(tp, sigma.value, sqrt(lookahead as real));
      assert Width(BarrierK(tp), sigma.value, sqrt(lookahead as real)) == width;
      BarriersOfWidth(price, width);
      hide Width, VolWidth, TimedWidth, Above, Below;
      TouchClasses(p, idx, WindowEnd(idx, lookahead, |p|), Above(price, width), Below(price, width), 0.0, 2.0, 1.0);
    }
  }

  // ---- extrema ----

  /** More than a tenth of a percent of the sample price; of a zero price, anything. */
  predicate MovesEnough(best: real, price: real, sign: real) {
    price == 0.0 || sign * (best - price) / price > 0.001
  }

  /** Tick k is the first to hold the window's extreme, beats the sample price by more than a tenth
      of a percent and lies in the first quarter of the look-ahead. */
  predicate EarlyExtreme(p: Prices, idx: nat, k: nat, end: nat, price: real, lookahead: nat, sign: real)
    requires end <= |p|
  {
    && idx < k < end && k - idx < lookahead / 4
    && (forall m :: idx < m < end ==> sign * p[m] <= sign * p[k])
    && (forall m :: idx < m < k ==> sign * p[m] < sign * p[k])
    && sign * p[k] > sign * price && MovesEnough(p[k], price, sign)
  }

  /** WILL_PEAK and WILL_VALLEY: 1 exactly when there is such a tick, else 0. */
  lemma ExtremumMeaning(p: Prices, idx: nat, price: real, tp: real, sl: real, extra: int, sqrt: real -> real)
    requires idx < |p|
    ensures var lookahead := if extra > 0 then extra else 500;
            && Leaf(WillPeak, p, idx, price, tp, sl, extra, sqrt)
               == (if HasEarlyExtreme(p, idx, price, lookahead, 1.0) then Num(1.0) else Num(0.0))
            && Leaf(WillValley, p, idx, price, tp, sl, extra, sqrt)
               == (if HasEarlyExtreme(p, idx, price, lookahead, -1.0) then Num(1.0) else Num(0.0))
  {
    hide Extremum, HasEarlyExtreme;
    ExtremumExactly(p, idx, price, extra, 1.0);
    ExtremumExactly(p, idx, price, extra, -1.0);
  }

  ghost predicate HasEarlyExtreme(p: Prices, idx: nat, price: real, lookahead: nat, sign: real) {
    exists k: nat :: EarlyExtreme(p, idx, k, WindowEnd(idx, lookahead, |p|), price, lookahead, sign)
  }

  lemma ExtremumExactly(p: Prices, idx: nat, price: real, extra: int, sign: real)
    requires idx < |p| && (sign == 1.0 || sign == -1.0)
    ensures Extremum(p, idx, price, extra, sign)
         == if HasEarlyExtreme(p, idx, price, if extra > 0 then extra else 500, sign) then Num(1.0) else Num(0.0)
  {
    hide Extreme, Extremum, RatioExceeds, HasEarlyExtreme;
    var lookahead := if extra > 0 then extra else 500;
    var end := WindowEnd(idx, lookahead, |p|);
    var (best, at) := Extreme(p, idx + 1, if idx + 1 <= end then end else idx + 1, price, idx, sign);
    ExtremumUnfolds(p, idx, price, extra, sign);
    if at - idx < lookahead / 4 && RatioExceeds(sign * (best - price), price, 0.001) {
      FoundIsEarly(p, idx, price, lookahead, sign, best, at);
    }
    if HasEarlyExtreme(p, idx, price, lookahead, sign) {
      EarlyIsFound(p, idx, price, lookahead, sign, best, at);
    }
  }

  lemma FoundIsEarly(p: Prices, idx: nat, price: real, lookahead: nat, sign: real, best: real, at: nat)
    requires idx < |p| && (sign == 1.0 || sign == -1.0)
    requires var end := WindowEnd(idx, lookahead, |p|);
             (best, at) == Extreme(p, idx + 1, if idx + 1 <= end then end else idx + 1, price, idx, sign)
    requires at - idx < lookahead / 4 && RatioExceeds(sign * (best - price), price, 0.001)
    ensures HasEarlyExtreme(p, idx, price, lookahead, sign)
  {
    hide Extreme, RatioExceeds, MovesEnough;
    var end := WindowEnd(idx, lookahead, |p|);
    ExtremeMeaning(p, idx, if idx + 1 <= end then end else idx + 1, price, sign);
    RatioIsAMove(best, price, sign);
    assert EarlyExtreme(p, idx, at, end, price, lookahead, sign);
  }

  lemma EarlyIsFound(p: Prices, idx: nat, price: real, lookahead: nat, sign: real, best: real, at: nat)
    requires idx < |p| && (sign == 1.0 || sign == -1.0)
    requires var end := WindowEnd(idx, lookahead, |p|);
             (best, at) == Extreme(p, idx + 1, if idx + 1 <= end then end else idx + 1, price, idx, sign)
    requires HasEarlyExtreme(p, idx, price, lookahead, sign)
    ensures at - idx < lookahead / 4 && RatioExceeds(sign * (best - price), price, 0.001)
  {
    hide Extreme, RatioExceeds, MovesEnough;
    var end := WindowEnd(idx, lookahead, |p|);
    var k: nat :| EarlyExtreme(p, idx, k, end, price, lookahead, sign);
    ExtremeMeaning(p, idx, end, price, sign);
    OneFirstExtreme(p, idx, end, price, sign, best, at, k);
    RatioIsAMove(best, price, sign);
  }

  lemma ExtremumUnfolds(p: Prices, idx: nat, price: real, extra: int, sign: real)
    requires idx < |p|
    ensures var lookahead := if extra > 0 then extra else 500;
            var end := WindowEnd(idx, lookahead, |p|);
            var (best, at) := Extreme(p, idx + 1, if idx + 1 <= end then end else idx + 1, price, idx, sign);
            Extremum(p, idx, price, extra, sign)
            == if at - idx < lookahead / 4 && RatioExceeds(sign * (best - price), price, 0.001) then Num(1.0) else Num(0.0)
  {
    hide Extreme, RatioExceeds;
  }

  lemma RatioIsAMove(best: real, price: real, sign: real)
    requires (sign == 1.0 || sign == -1.0) && sign * price <= sign * best
    ensures RatioExceeds(sign * (best - price), price, 0.001)
       <==> sign * price < sign * best && MovesEnough(best, price, sign)
  {
    assert sign * (best - price) == sign * best - sign * price;
    if best == price { assert 0.0 / (if price == 0.0 then 1.0 else price) == 0.0; }
  }

  /** A window has one first extreme. */
  lemma OneFirstExtreme(p: Prices, idx: nat, end: nat, price: real, sign: real, best: real, at: nat, k: nat)
    requires idx < k < end <= |p| && (sign == 1.0 || sign == -1.0)
    requires forall m :: idx < m < end ==> sign * p[m] <= sign * p[k]
    requires forall m :: idx < m < k ==> sign * p[m] < sign * p[k]
    requires sign * p[k] > sign * price
    requires forall m :: idx < m < end ==> sign * p[m] <= sign * best
    requires (at == idx && best == price) || (idx < at < end && p[at] == best && forall m :: idx < m < at ==> sign * p[m] < sign * best)
    ensures at == k && best == p[k]
  {
    assert sign * p[k] <= sign * best;
    assert at != idx;
    assert sign * p[at] <= sign * p[k];
  }

  // ---- returns ----

  /** The forward return in percent, to the tick the look-ahead names or the last one. */
  lemma ForwardPnlMeaning(p: Prices, idx: nat, price: real, tp: real, sl: real, extra: int, sqrt: real -> real)
    requires idx < |p|
    ensures var l := Leaf(ForwardPnl, p, idx, price, tp, sl, extra, sqrt);
            if extra <= 0 || idx + 1 == |p| then l == Num(0.0)
            else if price == 0.0 then l == NotFinite
            else l.Num? && l.v * price == 100.0 * (p[if idx + extra < |p| then idx + extra else |p| - 1] - price)
  {
  }

  /** The three cross-sectional labels are one return, none past the market or without a price. */
  lemma CrossSectionalMeaning(p: Prices, idx: nat, price: real, tp: real, sl: real, extra: int, sqrt: real -> real)
    requires idx < |p|
    ensures var l := Leaf(CsPercentileRank, p, idx, price, tp, sl, extra, sqrt);
            var forward := if extra > 0 then extra else 100;
            && Leaf(CsZscoreRobust, p, idx, price, tp, sl, extra, sqrt) == l
            && Leaf(CsVolscaledDemeaned, p, idx, price, tp, sl, extra, sqrt) == l
            && (l == NotFinite <==> idx + forward >= |p| || price <= 0.0)
            && (l.Num? ==> l.v * price == p[idx + forward] - price)
  {
  }

  lemma RegimeMeaning(p: Prices, idx: nat, price: real, tp: real, sl: real, regime: int, sqrt: real -> real)
    requires idx < |p|
    ensures Leaf(Regime, p, idx, price, tp, sl, regime, sqrt) == Num(regime as real)
  {
  }

  // ---- the rolling deviation ----

  /** The simple returns of the ticks from start to before j whose earlier price is positive. */
  function Returns(p: Prices, start: nat, j: nat): seq<real>
    requires 1 <= start && j <= |p|
    decreases j
  {
    if j <= start then []
    else Returns(p, start, j - 1) + if p[j - 2] > 0.0 then [(p[j - 1] - p[j - 2]) / p[j - 2]] else []
  }

  function Sum(rs: seq<real>): real {
    if rs == [] then 0.0 else Sum(rs[..|rs| - 1]) + rs[|rs| - 1]
  }

  function Square(x: real): real {
    x * x
  }

  /** The sum of squared distances from m. */
  function Spread(rs: seq<real>, m: real): real {
    if rs == [] then 0.0
    else Spread(rs[..|rs| - 1], m) + Square(rs[|rs| - 1] - m)
  }

  lemma SumsSnoc(rs: seq<real>, r: real)
    ensures Sum(rs + [r]) == Sum(rs) + r && Spread(rs + [r], 0.0) == Spread(rs, 0.0) + Square(r)
  {
    assert (rs + [r])[..|rs|] == rs;
  }

  lemma {:induction false} MomentsAreSums(p: Prices, start: nat, j: nat)
    requires 1 <= start && j <= |p|
    ensures var rs, acc := Returns(p, start, j), Accumulate(p, start, j);
            acc.n == |rs| && acc.sum == Sum(rs) && acc.sumSq == Spread(rs, 0.0)
    decreases j
  {
    if j > start {
      MomentsAreSums(p, start, j - 1);
      if p[j - 2] > 0.0 {
        SumsSnoc(Returns(p, start, j - 1), Return(p, j - 1));
        assert Returns(p, start, j) == Returns(p, start, j - 1) + [Return(p, j - 1)];
      } else {
        assert Returns(p, start, j) == Returns(p, start, j - 1);
      }
      hide Sum, Spread, Return;
    } else {
      assert Sum([]) == 0.0 && Spread([], 0.0) == 0.0;
    }
  }

  /** The sum of squared distances, multiplied out. */
  predicate Expands(spread: real, squares: real, sum: real, n: real, m: real) {
    spread == squares - 2.0 * m * sum + n * m * m
  }

  lemma OneMoreSquare(spread: real, squares: real, sum: real, n: real, m: real, x: real)
    requires Expands(spread, squares, sum, n, m)
    ensures Expands(spread + Square(x - m), squares + Square(x), sum + x, n + 1.0, m)
  {
    assert (x - m) * (x - m) == x * x - 2.0 * m * x + m * m;
    assert 2.0 * m * (sum + x) == 2.0 * m * sum + 2.0 * m * x;
    assert (n + 1.0) * m * m == n * m * m + m * m;
  }

  lemma SpreadUnfolds(rs: seq<real>, m: real)
    requires rs != []
    ensures var front, x := rs[..|rs| - 1], rs[|rs| - 1];
            && Sum(rs) == Sum(front) + x && Spread(rs, 0.0) == Spread(front, 0.0) + Square(x)
            && Spread(rs, m) == Spread(front, m) + Square(x - m)
            && |rs| as real == |front| as real + 1.0
  {
  }

  lemma {:induction false} SpreadExpands(rs: seq<real>, m: real)
    ensures Expands(Spread(rs, m), Spread(rs, 0.0), Sum(rs), |rs| as real, m)
  {
    if rs != [] {
      hide Expands, Spread, Sum, Square;
      var front, x := rs[..|rs| - 1], rs[|rs| - 1];
      SpreadExpands(front, m);
      OneMoreSquare(Spread(front, m), Spread(front, 0.0), Sum(front), |front| as real, m, x);
      SpreadUnfolds(rs, m);
    }
  }

  /** The mean squared distance of the returns from their mean. */
  function Variance(rs: seq<real>): real
    requires rs != []
  {
    Spread(rs, Sum(rs) / |rs| as real) / |rs| as real
  }

  lemma VarianceOfMoments(n: real, sum: real, sumSq: real, mean: real)
    requires n > 0.0 && mean == sum / n
    ensures (sumSq - 2.0 * mean * sum + n * mean * mean) / n == sumSq / n - mean * mean
  {
    assert mean * n == sum;
    assert 2.0 * mean * sum == 2.0 * mean * mean * n;
    assert (sumSq - mean * mean * n) / n == sumSq / n - mean * mean;
  }

  lemma VarianceIsTheMoments(m: Moments, rs: seq<real>)
    requires rs != [] && m.n == |rs| && m.sum == Sum(rs) && m.sumSq == Spread(rs, 0.0)
    ensures Variance(rs) == VarianceOf(m)
  {
    hide Spread, Sum;
    var n, mean := |rs| as real, Sum(rs) / |rs| as real;
    SpreadExpands(rs, mean);
    VarianceOfMoments(n, Sum(rs), Spread(rs, 0.0), mean);
  }

  lemma SigmaIsTheRoot(m: Moments, rs: seq<real>, sqrt: real -> real)
    requires m.n == |rs| && m.sum == Sum(rs) && m.sumSq == Spread(rs, 0.0)
    ensures Sigma(m, sqrt).Some?
       <==> |rs| >= 5 && Variance(rs) > 0.0 && sqrt(Variance(rs)) > 0.000000000000001
    ensures Sigma(m, sqrt).Some? ==> Sigma(m, sqrt).value == sqrt(Variance(rs))
  {
    hide Sum, Spread, Variance, VarianceOf;
    if rs != [] { VarianceIsTheMoments(m, rs); }
  }

  /** There is a deviation exactly with at least six ticks before the sample, five of them in the
      window, five returns and a variance whose root is above 10^-15; it is that root. */
  lemma RollingSigmaMeaning(p: Prices, idx: nat, window: int, sqrt: real -> real)
    requires idx < |p|
    ensures var start := if idx - window < 1 then 1 else idx - window;
            var rs := if start <= idx then Returns(p, start, idx) else [];
            var sigma := RollingSigma(p, idx, window, sqrt);
            && (sigma.Some? <==> idx >= 6 && idx - start >= 5 && |rs| >= 5
                                 && Variance(rs) > 0.0 && sqrt(Variance(rs)) > 0.000000000000001)
            && (sigma.Some? ==> sigma.value == sqrt(Variance(rs)))
  {
    var start := if idx - window < 1 then 1 else idx - window;
    if start <= idx {
      hide Accumulate, Spread, Sum, Returns, Variance, Sigma;
      MomentsAreSums(p, start, idx);
      SigmaIsTheRoot(Accumulate(p, start, idx), Returns(p, start, idx), sqrt);
    }
  }
}
