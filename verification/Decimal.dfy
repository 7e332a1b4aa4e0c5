/** Exact decimal money: a signed count of 10^-8 units inside the closure domain
    |v| <= 2^63 - 1.  Sums saturate; products and quotients are reduced once, half to even,
    on magnitudes, and then saturate. */
module Decimal {
  import opened Arithmetic

  const SCALE: nat := 100_000_000
  const MONEY_MAX: int := 0x7FFF_FFFF_FFFF_FFFF

  predicate Fits(x: int) {
    -MONEY_MAX <= x <= MONEY_MAX
  }

  type Money = x: int | -MONEY_MAX <= x <= MONEY_MAX

  function Abs(x: int): nat {
    if x < 0 then -x else x
  }

  function Saturate(x: int): (m: Money) {
    if x > MONEY_MAX then MONEY_MAX else if x < -MONEY_MAX then -MONEY_MAX else x
  }

  function Add(a: Money, b: Money): Money {
    Saturate(a + b)
  }

  function Sub(a: Money, b: Money): Money {
    Saturate(a - b)
  }

  function Max(a: Money, b: Money): Money {
    if a > b then a else b
  }

  /** The divisor-generalized reduce: compare the remainder with half the divisor; an exact
      tie exists only for an even divisor. */
  function RoundHalfEven(q: nat, r: nat, d: nat): nat
    requires d > 0
  {
    if r > d / 2 || (r == d / 2 && d % 2 == 0 && q % 2 == 1) then q + 1 else q
  }

  function RoundDiv(n: nat, d: nat): nat
    requires d > 0
  {
    RoundHalfEven(n / d, n % d, d)
  }

  function Signed(neg: bool, mag: nat): Money {
    if neg then -Saturate(mag) else Saturate(mag)
  }

  function Mul(a: Money, b: Money): Money {
    Signed((a < 0) != (b < 0), RoundDiv(Abs(a) * Abs(b), SCALE))
  }

  /** Division by zero saturates with the sign of the dividend. */
  function Div(a: Money, b: Money): Money {
    if b == 0 then Signed(a < 0, MONEY_MAX)
    else Signed((a < 0) != (b < 0), RoundDiv(Abs(a) * SCALE, Abs(b)))
  }

  /** m is the multiple of d nearest to n, the even one on a tie. */
  predicate NearestEven(m: nat, n: nat, d: nat) {
    var e := Abs(m * d - n);
    2 * e < d || (2 * e == d && m % 2 == 0)
  }

  /** The reduce is characterised, not just bounded: RoundDiv(n, d) is the only nearest-even
      multiple. */
  lemma RoundDivExact(n: nat, d: nat, m: nat)
    requires d > 0
    ensures m == RoundDiv(n, d) <==> NearestEven(m, n, d)
  {
    hide RoundHalfEven;
    var q, r := DivMod(n, d);
    Distribute(q, m - q, d);
    if m < q {
      Gap(m - q, -1, d);
    } else if m > q + 1 {
      Gap(2, m - q, d);
    }
    NearestCore(q, r, d, m - q, (m - q) * d);
  }

  lemma DivMod(n: nat, d: nat) returns (q: nat, r: nat)
    requires d > 0
    ensures n == q * d + r && r < d && RoundDiv(n, d) == RoundHalfEven(q, r, d)
  {
    q, r := n / d, n % d;
  }

  /** The linear core: td stands for t * d, the distance in divisors from the floor q. */
  lemma NearestCore(q: nat, r: nat, d: nat, t: int, td: int)
    requires r < d && q + t >= 0
    requires if t < 0 then td + d <= 0 else if t == 0 then td == 0 else if t == 1 then td == d else td >= 2 * d
    ensures q + t == RoundHalfEven(q, r, d)
       <==> 2 * Abs(td - r) < d || (2 * Abs(td - r) == d && (q + t) % 2 == 0)
  {
  }

  lemma RoundDivMonotone(n: nat, k: nat, d: nat)
    requires d > 0 && n <= k * d
    ensures RoundDiv(n, d) <= k
  {
    var q, r := DivMod(n, d);
    Distribute(k, 1, d);
    if q > k {
      Gap(k + 1, q, d);
    }
  }

  /** A fraction 0 <= p <= 1 of a non-negative amount stays inside the amount. */
  lemma FractionStaysInside(a: Money, p: Money)
    requires 0 <= a && 0 <= p <= SCALE
    ensures 0 <= Mul(a, p) <= a
  {
    Gap(p, SCALE, a);
    assert Abs(a) * Abs(p) <= a * SCALE;
    RoundDivMonotone(Abs(a) * Abs(p), a, SCALE);
  }

  /** A sum is exact inside the domain and the nearer bound outside it. */
  lemma AddIsTheNearest(a: Money, b: Money)
    ensures Fits(a + b) ==> Add(a, b) == a + b
    ensures a + b > MONEY_MAX ==> Add(a, b) == 0x7FFF_FFFF_FFFF_FFFF
    ensures a + b < -MONEY_MAX ==> Add(a, b) == -0x7FFF_FFFF_FFFF_FFFF
    ensures Sub(a, b) == Add(a, -b)
  {
  }

  /** m is the amount of this magnitude, cut at the domain, with this sign. */
  predicate IsSigned(m: Money, positive: bool, negative: bool, mag: nat) {
    && Abs(m) == (if mag < MONEY_MAX then mag else MONEY_MAX)
    && (m > 0 ==> positive) && (m < 0 ==> negative)
  }

  /** A product is the nearest-even multiple of the exact one, with the sign of the exact one. */
  lemma MulIsTheNearest(a: Money, b: Money, n: nat)
    requires NearestEven(n, Abs(a) * Abs(b), SCALE)
    ensures IsSigned(Mul(a, b), (a > 0 && b > 0) || (a < 0 && b < 0), (a < 0 && b > 0) || (a > 0 && b < 0), n)
  {
    hide RoundDiv, NearestEven;
    var exact := Abs(a) * Abs(b);
    RoundDivExact(exact, SCALE, n);
    if a == 0 || b == 0 {
      assert exact == 0;
      NothingRounds();
    }
    assert Mul(a, b) == Signed((a < 0) != (b < 0), n);
  }

  lemma NothingRounds()
    ensures RoundDiv(0, SCALE) == 0
  {
  }

  /** So is a quotient; by zero it is the bound on the side of the dividend. */
  lemma DivIsTheNearest(a: Money, b: Money, n: nat)
    requires b != 0 ==> NearestEven(n, Abs(a) * SCALE, Abs(b))
    ensures b != 0 ==> IsSigned(Div(a, b), (a > 0 && b > 0) || (a < 0 && b < 0), (a < 0 && b > 0) || (a > 0 && b < 0), n)
    ensures b == 0 ==> Div(a, b) == if a < 0 then -MONEY_MAX else MONEY_MAX
  {
    if b != 0 {
      RoundDivExact(Abs(a) * SCALE, Abs(b), n);
      if a == 0 { RoundDivExact(0, Abs(b), 0); }
    }
    hide RoundDiv, NearestEven;
  }
}
