/** Decimal text: the exact printer of a money value and the single-pass parser with its 64-bit
    accumulators, against the value of a digit string. */
module DecimalText {
  import opened Arithmetic
  import opened Decimal

  const U64: nat := 0x1_0000_0000_0000_0000
  const MONEY_DIGITS: nat := 8

  // ---- digit strings ----

  predicate IsDigit(c: char) {
    '0' <= c <= '9'
  }

  function DigitOf(c: char): (d: nat)
    requires IsDigit(c)
    ensures d <= 9
  {
    c as int - '0' as int
  }

  function CharOf(d: nat): (c: char)
    requires d <= 9
    ensures IsDigit(c) && DigitOf(c) == d
  {
    ('0' as int + d) as char
  }

  predicate AllDigits(s: string) {
    forall i :: 0 <= i < |s| ==> IsDigit(s[i])
  }

  /** The number a digit string denotes. */
  function Val(s: string): nat
    requires AllDigits(s)
  {
    if s == "" then 0 else 10 * Val(s[..|s| - 1]) + DigitOf(s[|s| - 1])
  }

  function Pow10(k: nat): (p: nat)
    ensures p >= 1
  {
    if k == 0 then 1 else 10 * Pow10(k - 1)
  }

  lemma Pow10Adds(a: nat, b: nat)
    ensures Pow10(a + b) == Pow10(a) * Pow10(b)
  {
    if b > 0 {
      Pow10Adds(a, b - 1);
      assert Pow10(a) * (10 * Pow10(b - 1)) == 10 * (Pow10(a) * Pow10(b - 1));
    }
  }

  lemma PowersOfTen()
    ensures Pow10(0) == 1 && Pow10(8) == SCALE && Pow10(11) == 100_000_000_000 && Pow10(12) == 1_000_000_000_000
    ensures Pow10(19) == 10_000_000_000_000_000_000
  {
    assert Pow10(3) == 1000 && Pow10(4) == 10_000;
    Pow10Adds(4, 4);
    Pow10Adds(8, 3);
    Pow10Adds(8, 4);
    Pow10Adds(8, 11);
  }

  /** Digits without leading zeros; nothing for zero. */
  function Lead(n: nat): (s: string)
    ensures AllDigits(s) && Val(s) == n
  {
    if n == 0 then "" else
      var front := Lead(n / 10);
      var s := front + [CharOf(n % 10)];
      assert s[..|s| - 1] == front;
      s
  }

  function Digits(n: nat): (s: string)
    ensures |s| >= 1 && AllDigits(s) && Val(s) == n
  {
    var front := Lead(n / 10);
    var s := front + [CharOf(n % 10)];
    assert s[..|s| - 1] == front;
    s
  }

  /** No zeros in front, but for zero itself. */
  lemma {:induction false} NoLeadingZero(n: nat)
    ensures n > 0 ==> Lead(n) != "" && Lead(n)[0] != '0'
    ensures |Digits(n)| > 1 ==> Digits(n)[0] != '0'
  {
    hide Val, AllDigits;
    if n > 0 {
      NoLeadingZero(n / 10);
    }
  }

  /** The last k digits of n, zeros in front. */
  function Padded(n: nat, k: nat): (s: string)
    ensures |s| == k && AllDigits(s) && (n < Pow10(k) ==> Val(s) == n)
    decreases k
  {
    if k == 0 then "" else
      var front := Padded(n / 10, k - 1);
      var s := front + [CharOf(n % 10)];
      assert s[..|s| - 1] == front;
      s
  }

  // ---- printing ----

  function Head(v: int): string {
    (if v < 0 then "-" else "") + Digits(Abs(v) / SCALE)
  }

  /** Sign, integer part, point, always eight decimals. */
  function Text(v: int): string {
    Head(v) + "." + Padded(Abs(v) % SCALE, MONEY_DIGITS)
  }

  /** The text of a money value: a minus sign only below zero, the whole units without leading zeros, a
      point and eight decimals, which together are the value. */
  lemma TextIsTheDecimal(v: int) returns (whole: string, frac: string)
    ensures AllDigits(whole) && AllDigits(frac) && |frac| == 8
    ensures Text(v) == (if v < 0 then "-" else "") + whole + "." + frac
    ensures |whole| >= 1 && (|whole| > 1 ==> whole[0] != '0')
    ensures Val(whole) * 100_000_000 + Val(frac) == if v < 0 then -v else v
  {
    hide Val, Digits, Padded, AllDigits, Pow10;
    whole, frac := Digits(Abs(v) / SCALE), Padded(Abs(v) % SCALE, MONEY_DIGITS);
    NoLeadingZero(Abs(v) / SCALE);
    PowersOfTen();
  }

  function Rev(s: string): (r: string)
    ensures |r| == |s|
  {
    if s == "" then "" else [s[|s| - 1]] + Rev(s[..|s| - 1])
  }

  lemma LeadUnfolds(n: nat)
    requires n > 0
    ensures Lead(n) == Lead(n / 10) + [CharOf(n % 10)]
  {
    hide Val, AllDigits, CharOf;
  }

  lemma LeadStep(n: nat, tail: string)
    requires n > 0
    ensures Lead(n) + tail == Lead(n / 10) + ([CharOf(n % 10)] + tail)
    ensures |Lead(n)| == |Lead(n / 10)| + 1
  {
    hide Lead, Val, AllDigits, CharOf;
    LeadUnfolds(n);
    var front, last := Lead(n / 10), [CharOf(n % 10)];
    assert (front + last) + tail == front + (last + tail);
  }

  lemma LeadLength(n: nat, k: nat)
    requires n < Pow10(k)
    ensures |Lead(n)| <= k
  {
    if n > 0 {
      LeadLength(n / 10, k - 1);
    }
  }

  lemma DigitsFit(n: nat)
    requires n < U64
    ensures |Digits(n)| <= 20
  {
    PowersOfTen();
    LeadLength(n / 10, 19);
  }

  lemma DigitsLast(n: nat)
    ensures Digits(n) == Lead(n / 10) + [CharOf(n % 10)] && Lead(0) == ""
  {
  }

  lemma RevSnoc(s: string, c: char)
    ensures Rev(s + [c]) == [c] + Rev(s)
  {
    assert (s + [c])[..|s|] == s;
  }

  /** The digits of a 64-bit integer, produced last digit first into a scratch buffer. */
  method ReversedDigits(n: nat, tmp: array<char>) returns (t: nat)
    requires n < U64 && tmp.Length == 24
    modifies tmp
    ensures t <= 20 && Rev(tmp[..t]) == Digits(n)
  {
    hide Digits, Rev, Lead, Val, CharOf;
    DigitsFit(n);
    DigitsLast(n);
    var ip: nat := n / 10;
    tmp[0], t := CharOf(n % 10), 1;
    RevEmpty("");
    RevSnoc("", tmp[0]);
    assert tmp[..1] == "" + [tmp[0]];
    while ip > 0
      invariant 1 <= t && t + |Lead(ip)| <= 20
      invariant Digits(n) == Lead(ip) + Rev(tmp[..t])
    {
      ghost var before := tmp[..t];
      tmp[t] := CharOf(ip % 10);
      assert tmp[..t + 1] == before + [tmp[t]];
      RevSnoc(before, tmp[t]);
      LeadStep(ip, Rev(before));
      ip, t := ip / 10, t + 1;
    }
    DigitsLast(0);
  }

  lemma RevLast(s: string)
    requires s != ""
    ensures Rev(s) == [s[|s| - 1]] + Rev(s[..|s| - 1])
  {
  }

  lemma PaddedStep(n: nat, k: nat, tail: string)
    requires k > 0
    ensures Padded(n, k) + tail == Padded(n / 10, k - 1) + ([CharOf(n % 10)] + tail)
  {
    hide Val, Pow10;
    var front, last := Padded(n / 10, k - 1), [CharOf(n % 10)];
    assert Padded(n, k) == front + last;
    hide Padded, CharOf;
    assert (front + last) + tail == front + (last + tail);
  }

  method PutReversed(tmp: array<char>, count: nat, buf: array<char>, at: nat) returns (n: nat)
    requires tmp != buf && count <= tmp.Length && at + count <= buf.Length
    modifies buf
    ensures n == at + count && buf[..n] == old(buf[..at]) + Rev(tmp[..count])
  {
    hide Rev;
    n := at;
    var t: nat := count;
    RevEmpty(tmp[..0]);
    while t > 0
      invariant n + t == at + count
      invariant buf[..n] + Rev(tmp[..t]) == old(buf[..at]) + Rev(tmp[..count])
    {
      ghost var before := buf[..n];
      RevLast(tmp[..t]);
      assert tmp[..t][..t - 1] == tmp[..t - 1];
      t := t - 1;
      buf[n], n := tmp[t], n + 1;
      assert buf[..n] == before + [tmp[t]];
    }
  }

  /** Eight decimals, last one first. */
  method PutPadded(frac: nat, buf: array<char>, at: nat) returns (n: nat)
    requires at + MONEY_DIGITS <= buf.Length
    modifies buf
    ensures n == at + MONEY_DIGITS && buf[..n] == old(buf[..at]) + Padded(frac, MONEY_DIGITS)
  {
    hide Padded, CharOf;
    var fp: nat, k: nat := frac, MONEY_DIGITS;
    while k > 0
      invariant k <= MONEY_DIGITS && buf[..at] == old(buf[..at])
      invariant Padded(fp, k) + buf[at + k..at + MONEY_DIGITS] == Padded(frac, MONEY_DIGITS)
    {
      ghost var tail := buf[at + k..at + MONEY_DIGITS];
      PaddedStep(fp, k, tail);
      k := k - 1;
      buf[at + k] := CharOf(fp % 10);
      assert buf[at + k..at + MONEY_DIGITS] == [CharOf(fp % 10)] + tail;
      fp := fp / 10;
    }
    PaddedEmpty(fp);
    n := at + MONEY_DIGITS;
    assert buf[..n] == buf[..at] + buf[at..n];
  }

  /** The money printer.  The buffer is at least 32 characters; the integer part fits 64 bits. */
  method ToText(v: int, buf: array<char>) returns (n: nat)
    requires buf.Length >= 32 && Abs(v) / SCALE < U64
    modifies buf
    ensures n <= buf.Length && buf[..n] == Text(v)
  {
    hide Digits, Padded, Rev, Abs;
    n := 0;
    if v < 0 {
      buf[0], n := '-', 1;
    }
    assert buf[..n] == if v < 0 then "-" else "";
    var tmp := new char[24];
    var t := ReversedDigits(Abs(v) / SCALE, tmp);
    n := PutReversed(tmp, t, buf, n);
    ghost var head := buf[..n];
    buf[n], n := '.', n + 1;
    assert buf[..n] == head + ".";
    n := PutPadded(Abs(v) % SCALE, buf, n);
  }

  lemma RevEmpty(s: string)
    requires s == ""
    ensures Rev(s) == ""
  {
  }

  lemma PaddedEmpty(n: nat)
    ensures Padded(n, 0) == ""
  {
  }

  // ---- scanning ----

  /** The scanner's accumulators and the flags it computes beside them. */
  datatype Scan = Scan(whole: nat, frac: nat, nFrac: nat, nDigits: nat, seenDot: bool, bad: bool, dup: bool, wrap: bool)

  const START: Scan := Scan(0, 0, 0, 0, false, false, false, false)

  /** One more digit on a 64-bit accumulator, and whether it would wrap. */
  function Shift(acc: nat, d: nat): nat { (acc + (acc * 9 + d)) % U64 }

  predicate WouldWrap(acc: nat, d: nat)
    requires d <= 9
  {
    acc > (U64 - 1 - d) / 10
  }

  function Step(st: Scan, c: char): Scan {
    if IsDigit(c) then
      var d := DigitOf(c);
      if st.seenDot then
        st.(frac := Shift(st.frac, d), nFrac := st.nFrac + 1, nDigits := st.nDigits + 1,
            wrap := st.wrap || WouldWrap(st.frac, d))
      else
        st.(whole := Shift(st.whole, d), nDigits := st.nDigits + 1, wrap := st.wrap || WouldWrap(st.whole, d))
    else if c == '.' then st.(dup := st.dup || st.seenDot, seenDot := true)
    else st.(bad := true)
  }

  function Run(st: Scan, s: string): Scan {
    if s == "" then st else Step(Run(st, s[..|s| - 1]), s[|s| - 1])
  }

  predicate Negative(str: string) { |str| > 0 && str[0] == '-' }

  function Body(str: string): string {
    if |str| > 0 && (str[0] == '-' || str[0] == '+') then str[1..] else str
  }

  /** One pass over the characters. */
  method ScanText(str: string) returns (neg: bool, st: Scan)
    ensures neg == Negative(str) && st == Run(START, Body(str))
  {
    neg := |str| > 0 && str[0] == '-';
    var first := if neg || (|str| > 0 && str[0] == '+') then 1 else 0;
    st := START;
    ghost var body := Body(str);
    assert body == str[first..];
    for i := first to |str|
      invariant st == Run(START, body[..i - first])
    {
      assert body[..i - first + 1][..i - first] == body[..i - first] && body[i - first] == str[i];
      st := Step(st, str[i]);
    }
    assert body[..|str| - first] == body;
  }

  lemma RunConcat(st: Scan, a: string, b: string)
    ensures Run(st, a + b) == Run(Run(st, a), b)
  {
    if b == "" {
      assert a + b == a;
    } else {
      assert (a + b)[..|a + b| - 1] == a + b[..|b| - 1];
      RunConcat(st, a, b[..|b| - 1]);
    }
  }

  /** The flags say what they claim about the text, whatever the accumulators did. */
  lemma {:induction false} FlagsExact(s: string)
    ensures var st := Run(START, s);
            && (st.bad <==> exists i :: 0 <= i < |s| && !IsDigit(s[i]) && s[i] != '.')
            && (st.seenDot <==> exists i :: 0 <= i < |s| && s[i] == '.')
            && (st.dup <==> exists i, j :: 0 <= i < j < |s| && s[i] == '.' && s[j] == '.')
            && (st.nDigits == 0 <==> forall i :: 0 <= i < |s| ==> !IsDigit(s[i]))
  {
    hide Shift, WouldWrap;
    if s != "" {
      FlagsExact(s[..|s| - 1]);
    }
  }

  /** One digit on the residue of a number, whatever its size. */
  lemma ShiftWraps(v: nat, d: nat)
    requires d <= 9
    ensures Shift(v % U64, d) == (10 * v + d) % U64
    ensures v >= U64 ==> 10 * v + d >= U64
    ensures v < U64 ==> v % U64 == v && (WouldWrap(v, d) <==> 10 * v + d >= U64)
  {
    var q := v / U64;
    assert v == q * U64 + v % U64;
    assert 10 * v + d == (10 * q) * U64 + (10 * (v % U64) + d);
    ModuloDrops(10 * (v % U64) + d, 10 * q);
  }

  lemma ModuloDrops(x: nat, k: nat)
    ensures (k * U64 + x) % U64 == x % U64
  {
    var q := x / U64;
    assert k * U64 + x == (k + q) * U64 + x % U64;
    QuotientIs(k * U64 + x, U64, k + q);
  }

  /** Any digit run, before the point or after it: the accumulator is the number modulo 2^64, and the
      wrap flag is raised exactly when the number does not fit. */
  lemma {:induction false} RunWraps(st: Scan, ds: string)
    requires AllDigits(ds) && (if st.seenDot then st.frac else st.whole) == 0
    ensures Run(st, ds)
         == if st.seenDot
            then st.(frac := Val(ds) % U64, nFrac := st.nFrac + |ds|, nDigits := st.nDigits + |ds|, wrap := st.wrap || Val(ds) >= U64)
            else st.(whole := Val(ds) % U64, nDigits := st.nDigits + |ds|, wrap := st.wrap || Val(ds) >= U64)
  {
    hide Val, Run, Step, Shift, WouldWrap;
    RunAndValUnfold(st, ds);
    if ds != "" {
      var front, c := ds[..|ds| - 1], ds[|ds| - 1];
      RunWraps(st, front);
      DigitStep(Run(st, front), c, Val(front));
    }
  }

  lemma RunAndValUnfold(st: Scan, ds: string)
    requires AllDigits(ds)
    ensures if ds == "" then Run(st, ds) == st && Val(ds) == 0
            else var front, c := ds[..|ds| - 1], ds[|ds| - 1];
                 IsDigit(c) && Run(st, ds) == Step(Run(st, front), c) && Val(ds) == 10 * Val(front) + DigitOf(c)
  {
    hide Step;
  }

  /** One digit more, on the residue of the number so far. */
  lemma DigitStep(st: Scan, c: char, v: nat)
    requires IsDigit(c) && (if st.seenDot then st.frac else st.whole) == v % U64
    requires v >= U64 ==> st.wrap
    ensures var n := 10 * v + DigitOf(c);
            Step(st, c) == if st.seenDot
                           then st.(frac := n % U64, nFrac := st.nFrac + 1, nDigits := st.nDigits + 1, wrap := st.wrap || n >= U64)
                           else st.(whole := n % U64, nDigits := st.nDigits + 1, wrap := st.wrap || n >= U64)
  {
    hide Shift, WouldWrap;
    ShiftWraps(v, DigitOf(c));
  }

  // ---- the money parser ----

  datatype Parsed = Parsed(value: Money, malformed: bool, overflow: bool, excess: bool)

  /** The fraction scaled to eight decimals: padded exactly up to eight digits, else rounded half
      to even; more than nineteen digits are scaled as if they were nineteen. */
  function FracScaled(frac: nat, nFrac: nat): nat {
    var nf := if nFrac < 20 then nFrac else 19;
    if nf <= MONEY_DIGITS then frac * Pow10(MONEY_DIGITS - nf) else RoundDiv(frac, Pow10(nf - MONEY_DIGITS))
  }

  function MoneyOf(neg: bool, st: Scan): Parsed {
    var scaled := st.whole * SCALE + FracScaled(st.frac, st.nFrac);
    Parsed(Signed(neg, scaled), st.bad || st.dup || st.nDigits == 0, st.wrap || scaled > MONEY_MAX,
           st.nFrac > MONEY_DIGITS)
  }

  function Parse(str: string): Parsed {
    MoneyOf(Negative(str), Run(START, Body(str)))
  }

  method FromText(str: string) returns (p: Parsed)
    ensures p == Parse(str)
  {
    var neg, st := ScanText(str);
    p := MoneyOf(neg, st);
  }

  // ---- the parser is exact ----

  function Sign(neg: bool): string { if neg then "-" else "" }

  /** The exact decimal, rounded once to eight places. */
  function Rounded(whole: string, frac: string): nat
    requires AllDigits(whole) && AllDigits(frac)
  {
    Val(whole) * SCALE + RoundDiv(Val(frac) * SCALE, Pow10(|frac|))
  }

  lemma RunText(whole: string, frac: string)
    requires AllDigits(whole) && AllDigits(frac) && Val(whole) < U64 && Val(frac) < U64
    ensures Run(START, whole + "." + frac)
         == Scan(Val(whole), Val(frac), |frac|, |whole| + |frac|, true, false, false, false)
  {
    hide Val, AllDigits, Run;
    RunAny(whole, frac);
  }

  lemma BodyOfText(neg: bool, whole: string, rest: string)
    requires AllDigits(whole) && (whole == "" ==> rest != "" && rest[0] == '.')
    ensures Body(Sign(neg) + whole + rest) == whole + rest && Negative(Sign(neg) + whole + rest) == neg
  {
    var text := Sign(neg) + whole + rest;
    if neg {
      assert text[1..] == whole + rest;
    } else {
      assert text == whole + rest;
      assert whole != "" ==> IsDigit(whole[0]) && text[0] == whole[0];
    }
  }

  lemma ExactRatio(n: nat, d: nat)
    requires d > 0
    ensures RoundDiv(n * d, d) == n
  {
    assert n * d - n * d == 0;
    RoundDivExact(n * d, d, n);
  }

  /** Rounding does not see a common factor. */
  lemma RatioScales(n: nat, d: nat, k: nat)
    requires d > 0 && k > 0
    ensures d * k > 0 && RoundDiv(n * k, d * k) == RoundDiv(n, d)
  {
    hide RoundDiv;
    assert d * k >= 1 by { Gap(1, k, d); }
    var m := RoundDiv(n, d);
    RoundDivExact(n, d, m);
    ScaledNearest(m, n, d, k);
    RoundDivExact(n * k, d * k, m);
  }

  lemma ScaledNearest(m: nat, n: nat, d: nat, k: nat)
    requires d > 0 && k > 0 && NearestEven(m, n, d)
    ensures NearestEven(m, n * k, d * k)
  {
    var e := m * d - n;
    Factor(m, n, d, k);
    AbsScales(e, k);
    HalfScales(Abs(e), d, k);
    hide Abs;
  }

  lemma Factor(m: nat, n: nat, d: nat, k: nat)
    ensures m * (d * k) - n * k == (m * d - n) * k
  {
    assert m * (d * k) == (m * d) * k;
  }

  lemma AbsScales(e: int, k: nat)
    ensures Abs(e * k) == Abs(e) * k
  {
    if e < 0 {
      Gap(e, 0, k);
      assert e * k + (0 - e) * k == 0;
    } else {
      Gap(0, e, k);
    }
  }

  lemma HalfScales(e: nat, d: nat, k: nat)
    requires k > 0
    ensures 2 * e < d ==> 2 * (e * k) < d * k
    ensures 2 * e == d ==> 2 * (e * k) == d * k
  {
    assert (2 * e) * k == 2 * (e * k);
    if 2 * e < d {
      Gap(2 * e + 1, d, k);
      Distribute(2 * e, 1, k);
    }
  }

  /** The scaled fraction is the exact one, rounded once, for exactly the texts of at most nineteen
      decimals and the longer ones too small to show the wrong power of ten. */
  lemma FracScaledExactly(frac: string)
    requires AllDigits(frac)
    ensures FracScaled(Val(frac), |frac|) == RoundDiv(Val(frac) * SCALE, Pow10(|frac|))
       <==> |frac| < 20 || Val(frac) <= 50_000_000_000
  {
    hide Val, AllDigits, FracScaled;
    if |frac| <= MONEY_DIGITS {
      ShortFraction(Val(frac), |frac|);
    } else {
      LongFraction(Val(frac), |frac|);
    }
  }

  lemma ShortFraction(v: nat, n: nat)
    requires n <= MONEY_DIGITS
    ensures FracScaled(v, n) == RoundDiv(v * SCALE, Pow10(n))
  {
    hide RoundDiv, Pow10;
    PowersOfTen();
    Pow10Adds(MONEY_DIGITS - n, n);
    assert v * (Pow10(MONEY_DIGITS - n) * Pow10(n)) == v * Pow10(MONEY_DIGITS - n) * Pow10(n);
    ExactRatio(v * Pow10(MONEY_DIGITS - n), Pow10(n));
  }

  lemma LongFraction(v: nat, n: nat)
    requires n > MONEY_DIGITS
    ensures FracScaled(v, n) == RoundDiv(v * SCALE, Pow10(n)) <==> n < 20 || v <= 50_000_000_000
  {
    hide RoundDiv, Pow10;
    PowersOfTen();
    Pow10Adds(n - MONEY_DIGITS, MONEY_DIGITS);
    RatioScales(v, Pow10(n - MONEY_DIGITS), SCALE);
    if n >= 20 {
      Pow10Adds(12, n - 20);
      Gap(1, Pow10(n - 20), Pow10(12));
      TwoPowers(v, Pow10(n - MONEY_DIGITS));
    }
  }

  /** Rounding by 10^11 and by a larger power agree exactly where both give zero. */
  lemma TwoPowers(v: nat, d: nat)
    requires d >= 1_000_000_000_000
    ensures RoundDiv(v, 100_000_000_000) == RoundDiv(v, d) <==> v <= 50_000_000_000
  {
    hide RoundDiv, NearestEven;
    var m := RoundDiv(v, d);
    if v <= 50_000_000_000 {
      ZeroRounds(v, d);
      ZeroRounds(v, 100_000_000_000);
    } else {
      RoundDivExact(v, d, m);
      RoundDivExact(v, 100_000_000_000, m);
      NotBothNearest(v, d, m);
    }
  }

  lemma ZeroRounds(v: nat, d: nat)
    requires d > 0 && 2 * v <= d
    ensures RoundDiv(v, d) == 0
  {
    RoundDivExact(v, d, 0);
  }

  lemma NotBothNearest(v: nat, d: nat, m: nat)
    requires d >= 1_000_000_000_000 && v > 50_000_000_000 && NearestEven(m, v, d)
    ensures !NearestEven(m, v, 100_000_000_000)
  {
    if m >= 1 {
      assert m * d - d == (m - 1) * d;
      Gap(1_000_000_000_000, d, m);
      Gap(1_000_000_000_000, d, m - 1);
      TooFar(v, d, m, m * d);
    }
  }

  /** The linear core: md stands for m * d. */
  lemma TooFar(v: nat, d: nat, m: nat, md: nat)
    requires m >= 1 && md >= m * 1_000_000_000_000 && md - d >= (m - 1) * 1_000_000_000_000
    requires 2 * Abs(md - v) <= d
    ensures 2 * Abs(m * 100_000_000_000 - v) > 100_000_000_000
  {
  }

  lemma TextParts(neg: bool, whole: string, frac: string)
    requires AllDigits(whole)
    ensures Body(Sign(neg) + whole + "." + frac) == whole + "." + frac && Negative(Sign(neg) + whole + "." + frac) == neg
  {
    hide Body, Negative, Sign, AllDigits;
    BodyOfText(neg, whole, "." + frac);
    assert Sign(neg) + whole + "." + frac == Sign(neg) + whole + ("." + frac);
    assert whole + "." + frac == whole + ("." + frac);
  }

  lemma ParsedText(neg: bool, whole: string, frac: string)
    requires AllDigits(whole) && AllDigits(frac)
    ensures Parse(Sign(neg) + whole + "." + frac)
         == MoneyOf(neg, Scan(Val(whole) % U64, Val(frac) % U64, |frac|, |whole| + |frac|, true, false, false,
                              Val(whole) >= U64 || Val(frac) >= U64))
  {
    hide MoneyOf, Val, AllDigits, Run, Body, Negative, Sign;
    TextParts(neg, whole, frac);
    RunAny(whole, frac);
  }

  /** The parser against arithmetic: an optional minus, digits, a point and up to nineteen decimals
      parse to the exact decimal rounded once, with the overflow and excess flags exactly right. */
  lemma ParseIsExact(neg: bool, whole: string, frac: string)
    requires AllDigits(whole) && AllDigits(frac) && whole + frac != "" && Val(whole) < U64 && Val(frac) < U64
    requires |frac| < 20 || Val(frac) <= 50_000_000_000
    ensures var p := Parse(Sign(neg) + whole + "." + frac);
            && p.value == Signed(neg, Rounded(whole, frac)) && !p.malformed
            && (p.overflow <==> Rounded(whole, frac) > MONEY_MAX)
            && (p.excess <==> |frac| > MONEY_DIGITS)
  {
    hide Val, AllDigits, Run, RoundDiv, Pow10, FracScaled, Parse, Signed;
    ParsedText(neg, whole, frac);
    FracScaledExactly(frac);
  }

  /** For digit strings of any length: the overflow flag is raised exactly when one of them does not
      fit 64 bits or the scaled sum of what the two accumulators hold leaves the domain. */
  lemma OverflowExactly(neg: bool, whole: string, frac: string)
    requires AllDigits(whole) && AllDigits(frac) && whole + frac != ""
    ensures var p := Parse(Sign(neg) + whole + "." + frac);
            var scaled := (Val(whole) % U64) * SCALE + FracScaled(Val(frac) % U64, |frac|);
            && !p.malformed && p.value == Signed(neg, scaled)
            && (p.overflow <==> Val(whole) >= U64 || Val(frac) >= U64 || scaled > MONEY_MAX)
  {
    hide Val, AllDigits, Run, FracScaled, Parse, Signed;
    ParsedText(neg, whole, frac);
  }

  lemma RunAny(whole: string, frac: string)
    requires AllDigits(whole) && AllDigits(frac)
    ensures Run(START, whole + "." + frac)
         == Scan(Val(whole) % U64, Val(frac) % U64, |frac|, |whole| + |frac|, true, false, false,
                 Val(whole) >= U64 || Val(frac) >= U64)
  {
    hide Val, AllDigits, Run;
    RunConcat(START, whole + ".", frac);
    RunWraps(START, whole);
    DotStep(whole);
    RunWraps(Run(START, whole + "."), frac);
  }

  lemma DotStep(whole: string)
    ensures Run(START, whole + ".") == Step(Run(START, whole), '.')
    ensures !IsDigit('.')
  {
    var dotted := whole + ".";
    assert dotted[..|dotted| - 1] == whole;
  }

  /** A text is malformed exactly when, after one sign, it holds a character that is neither a digit nor
      a point, or two points, or no digit. */
  lemma MalformedExactly(str: string)
    ensures var body := if str != "" && (str[0] == '-' || str[0] == '+') then str[1..] else str;
            Parse(str).malformed
            <==> || (exists i :: 0 <= i < |body| && !IsDigit(body[i]) && body[i] != '.')
                 || (exists i, j :: 0 <= i < j < |body| && body[i] == '.' && body[j] == '.')
                 || (forall i :: 0 <= i < |body| ==> !IsDigit(body[i]))
  {
    hide Run, FracScaled, IsDigit;
    FlagsExact(Body(str));
  }

  /** A plus sign and a closing point change nothing. */
  lemma PlusAndPoint(neg: bool, whole: string)
    requires AllDigits(whole) && whole != ""
    ensures Parse("+" + whole) == Parse(whole)
    ensures Parse(Sign(neg) + whole + ".") == Parse(Sign(neg) + whole)
  {
    hide AllDigits, Run, FracScaled, Body, Negative, Signed, Sign;
    SignedDigits(neg, whole);
    SignedDigits(false, whole);
    BodyOfText(neg, whole, ".");
    PlusBody(whole);
    RunWraps(START, whole);
    DotStep(whole);
  }

  lemma SignedDigits(neg: bool, whole: string)
    requires AllDigits(whole) && whole != ""
    ensures Sign(false) + whole == whole
    ensures Body(Sign(neg) + whole) == whole && Negative(Sign(neg) + whole) == neg
  {
    hide Body, Negative, AllDigits;
    BodyOfText(neg, whole, "");
    assert Sign(neg) + whole + "" == Sign(neg) + whole && whole + "" == whole;
  }

  lemma PlusBody(whole: string)
    ensures Body("+" + whole) == whole && !Negative("+" + whole)
  {
    assert ("+" + whole)[1..] == whole;
  }

  /** Twenty decimals: five hundred-millionths of a unit is read as ten times that. */
  lemma TwentyDecimalsAreMisread()
    ensures var frac := "00000005000000000000";
            AllDigits(frac) && |frac| == 20 && Rounded("0", frac) == 5 && Parse("0." + frac).value == 50
  {
    hide Run, Val, AllDigits, Pow10, RoundDiv;
    var frac := "00000005000000000000";
    TwentyDigits();
    RunText("0", frac);
    assert "0." + frac == "0" + "." + frac;
    assert Body("0." + frac) == "0" + "." + frac && !Negative("0." + frac);
    PowersOfTen();
    Pow10Adds(12, 8);
    ExactRatio(50, Pow10(11));
    RatioScales(5_000_000_000_000, Pow10(12), SCALE);
    ExactRatio(5, Pow10(12));
  }

  lemma TwentyDigits()
    ensures AllDigits("0") && Val("0") == 0
    ensures AllDigits("00000005000000000000") && Val("00000005000000000000") == 5_000_000_000_000
  {
    LeadingZeros("0", "");
    assert "0" + "" == "0";
    ThirteenDigits();
    LeadingZeros("0000000", "5000000000000");
    assert "0000000" + "5000000000000" == "00000005000000000000";
  }

  lemma LeadingZeros(zeros: string, ds: string)
    requires AllDigits(ds) && forall i :: 0 <= i < |zeros| ==> zeros[i] == '0'
    ensures AllDigits(zeros + ds) && Val(zeros + ds) == Val(ds)
  {
    if ds == "" {
      if zeros != "" {
        LeadingZeros(zeros[..|zeros| - 1], "");
        assert zeros[..|zeros| - 1] + "" == zeros[..|zeros| - 1];
      }
      assert zeros + ds == zeros;
    } else {
      var front := ds[..|ds| - 1];
      LeadingZeros(zeros, front);
      assert (zeros + ds)[..|zeros + ds| - 1] == zeros + front;
    }
  }

  lemma TrailingZeros(ds: string, zeros: string)
    requires AllDigits(ds) && forall i :: 0 <= i < |zeros| ==> zeros[i] == '0'
    ensures AllDigits(ds + zeros) && Val(ds + zeros) == Val(ds) * Pow10(|zeros|)
  {
    if zeros == "" {
      assert ds + zeros == ds;
    } else {
      var fewer := zeros[..|zeros| - 1];
      TrailingZeros(ds, fewer);
      assert (ds + zeros)[..|ds + zeros| - 1] == ds + fewer;
      assert Val(ds) * (10 * Pow10(|fewer|)) == 10 * (Val(ds) * Pow10(|fewer|));
    }
  }

  lemma ThirteenDigits()
    ensures AllDigits("5000000000000") && Val("5000000000000") == 5_000_000_000_000
  {
    TrailingZeros("5", "000000000000");
    PowersOfTen();
    assert Val("5") == 5;
    assert "5" + "000000000000" == "5000000000000";
  }

  // ---- the printer and the parser undo each other ----

  lemma PrintedFraction(v: int)
    ensures var frac := Padded(Abs(v) % SCALE, MONEY_DIGITS); AllDigits(frac) && Val(frac) == Abs(v) % SCALE
    ensures Rounded(Digits(Abs(v) / SCALE), Padded(Abs(v) % SCALE, MONEY_DIGITS)) == Abs(v)
  {
    hide Padded, Val, Digits, RoundDiv;
    PowersOfTen();
    ExactRatio(Abs(v) % SCALE, SCALE);
  }

  /** What is printed parses back, saturated when it was printed from outside the money domain and
      flagged exactly then. */
  lemma PrintedParses(v: int)
    requires Abs(v) / SCALE < U64
    ensures Parse(Text(v)) == Parsed(Saturate(v), false, Abs(v) > MONEY_MAX, false)
  {
    hide Padded, Val, Digits, Rounded, Parse, AllDigits;
    var whole, frac := Digits(Abs(v) / SCALE), Padded(Abs(v) % SCALE, MONEY_DIGITS);
    PrintedFraction(v);
    ParseIsExact(v < 0, whole, frac);
    assert Text(v) == Sign(v < 0) + whole + "." + frac;
  }
}
