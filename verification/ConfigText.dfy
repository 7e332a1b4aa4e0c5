/** Config fields as text: the file form (percent scaling, trimmed zeros), the wire form (raw), and
    the typed parser, for decimal, integer, boolean and enumerated fields. */
module ConfigText {
  import opened Decimal
  import opened DecimalText
  import opened Wrappers

  const INT_MAX: int := 0x7FFF_FFFF
  const INT64_MAX: int := 0x7FFF_FFFF_FFFF_FFFF

  // ---- decimal fields: saving ----

  /** Drop trailing zeros past two decimals. */
  function TrimZeros(frac: string): string {
    if |frac| > 2 && frac[|frac| - 1] == '0' then TrimZeros(frac[..|frac| - 1]) else frac
  }

  /** A percent field is written in percent. */
  function FileUnits(v: Money, pct: bool): int {
    if pct then v * 100 else v
  }

  function Saved(v: Money, pct: bool): string {
    var w := FileUnits(v, pct);
    Head(w) + "." + TrimZeros(Padded(Abs(w) % SCALE, MONEY_DIGITS))
  }

  /** What is trimmed is the longest run of closing zeros that leaves two decimals. */
  lemma {:induction false} TrimIsTheLongest(frac: string)
    ensures var left := TrimZeros(frac);
            && left <= frac && (forall i :: |left| <= i < |frac| ==> frac[i] == '0')
            && (|frac| <= 2 ==> left == frac) && (|frac| >= 2 ==> |left| >= 2)
            && (|left| > 2 ==> left[|left| - 1] != '0')
  {
    if |frac| > 2 && frac[|frac| - 1] == '0' {
      TrimIsTheLongest(frac[..|frac| - 1]);
    }
  }

  /** The saved text: the value in file units, without leading zeros and with two to eight decimals of
      which the last past two is not a zero. */
  lemma SavedIsTheDecimal(v: Money, pct: bool) returns (whole: string, frac: string)
    ensures AllDigits(whole) && AllDigits(frac) && 2 <= |frac| <= 8
    ensures Saved(v, pct) == (if v < 0 then "-" else "") + whole + "." + frac
    ensures |whole| >= 1 && (|whole| > 1 ==> whole[0] != '0') && (|frac| > 2 ==> frac[|frac| - 1] != '0')
    ensures Val(whole) * 100_000_000 + Val(frac) * Pow10(8 - |frac|) == (if v < 0 then -v else v) * if pct then 100 else 1
  {
    hide Val, Digits, Padded, Pow10, TrimZeros;
    var w := FileUnits(v, pct);
    whole := Digits(Abs(w) / SCALE);
    var all := Padded(Abs(w) % SCALE, MONEY_DIGITS);
    frac := TrimZeros(all);
    NoLeadingZero(Abs(w) / SCALE);
    PowersOfTen();
    TrimIsTheLongest(all);
    TrailingZeros(frac, all[|frac|..]);
    assert frac + all[|frac|..] == all;
  }

  lemma HeadHasNoPoint(w: int)
    ensures '.' !in Head(w)
  {
    assert AllDigits(Digits(Abs(w) / SCALE));
  }

  /** The trim loop, in place: n characters before, `left` after. */
  method Trim(buf: array<char>, n: nat, ghost head: string, ghost frac: string) returns (left: nat)
    requires n <= buf.Length && buf[..n] == head + "." + frac && '.' !in head
    modifies buf
    ensures left <= n && buf[..left] == head + "." + TrimZeros(frac)
  {
    var dot := 0;
    assert (head + "." + frac)[|head|] == '.';
    while buf[dot] != '.'
      invariant 0 <= dot <= |head|
      decreases |head| - dot
    {
      assert buf[..n][dot] == buf[dot];
      dot := dot + 1;
    }
    assert buf[..n][dot] == '.' && dot == |head|;
    ghost var kept := frac;
    left := n;
    while left - 1 > dot + 2 && buf[left - 1] == '0'
      invariant |head| + 1 <= left <= n && buf[..left] == head + "." + kept
      invariant TrimZeros(kept) == TrimZeros(frac)
    {
      assert buf[left - 1] == buf[..left][left - 1] == kept[|kept| - 1];
      buf[left - 1] := '\0';
      left, kept := left - 1, kept[..|kept| - 1];
    }
    if left - 1 > dot + 2 {
      assert buf[left - 1] == buf[..left][left - 1] == kept[|kept| - 1];
    }
    assert TrimZeros(kept) == kept;
  }

  method SaveDecimal(v: Money, pct: bool) returns (text: string)
    ensures text == Saved(v, pct)
  {
    var w := FileUnits(v, pct);
    var tmp := new char[40];
    var n := ToText(w, tmp);
    HeadHasNoPoint(w);
    n := Trim(tmp, n, Head(w), Padded(Abs(w) % SCALE, MONEY_DIGITS));
    text := tmp[..n];
  }

  // ---- decimal fields: reading ----

  function Clamp(x: int, lo: int, hi: int): int {
    var raised := if x < lo then lo else x;
    if raised > hi then hi else raised
  }

  /** A hundredth, rounded half to even on the magnitude. */
  function Hundredth(m: Money): Money {
    Signed(m < 0, RoundDiv(Abs(m), 100))
  }

  /** A value inside the clamp is itself, one outside is the nearer bound. */
  lemma ClampIsTheNearest(x: int, lo: int, hi: int, y: int)
    requires lo <= y <= hi
    ensures lo <= Clamp(x, lo, hi) <= hi
    ensures x <= y ==> Clamp(x, lo, hi) <= y && Clamp(x, lo, hi) >= x
    ensures x >= y ==> Clamp(x, lo, hi) >= y && Clamp(x, lo, hi) <= x
  {
  }

  /** A hundredth is the nearest-even one, with the sign of the value. */
  lemma HundredthIsTheNearest(m: Money, n: nat)
    requires NearestEven(n, Abs(m), 100)
    ensures IsSigned(Hundredth(m), m > 0, m < 0, n)
  {
    RoundDivExact(Abs(m), 100, n);
    RoundDivExact(0, 100, 0);
    hide RoundDiv, NearestEven;
  }

  /** A value and whether the field refuses the boot. */
  datatype Field = Field(value: Money, fault: bool)

  function Read(text: string, pct: bool, wire: bool, lo: Money, hi: Money): Field {
    var p := Parse(text);
    Field(Clamp(if pct && !wire then Hundredth(p.value) else p.value, lo, hi), !wire && (p.malformed || p.overflow))
  }

  method ReadDecimal(text: string, pct: bool, wire: bool, lo: Money, hi: Money) returns (f: Field)
    ensures f == Read(text, pct, wire, lo, hi)
  {
    var p := FromText(text);
    var value: Money := p.value;
    if !wire && pct { value := Hundredth(value); }
    if value < lo { value := lo; }
    if value > hi { value := hi; }
    f := Field(value, !wire && (p.malformed || p.overflow));
  }

  /** In a file a malformed text or one out of range refuses the boot, and nothing else does; on the
      wire nothing does. */
  lemma RefusedExactly(text: string, pct: bool, lo: Money, hi: Money)
    ensures Read(text, pct, false, lo, hi).fault <==> Parse(text).malformed || Parse(text).overflow
    ensures !Read(text, pct, true, lo, hi).fault
    ensures Read(text, true, false, lo, hi).value == Clamp(Hundredth(Parse(text).value), lo, hi)
    ensures Read(text, false, false, lo, hi).value == Read(text, pct, true, lo, hi).value == Clamp(Parse(text).value, lo, hi)
  {
    hide Parse, Hundredth;
  }

  // ---- the round trip ----

  lemma TrimmedValue(frac: string)
    requires AllDigits(frac)
    ensures AllDigits(TrimZeros(frac)) && |TrimZeros(frac)| <= |frac| && Val(TrimZeros(frac)) <= Val(frac)
    ensures RoundDiv(Val(TrimZeros(frac)) * SCALE, Pow10(|TrimZeros(frac)|)) == RoundDiv(Val(frac) * SCALE, Pow10(|frac|))
  {
    if |frac| > 2 && frac[|frac| - 1] == '0' {
      var front := frac[..|frac| - 1];
      TrimmedValue(front);
      assert Val(frac) == 10 * Val(front);
      assert Pow10(|frac|) == 10 * Pow10(|front|);
      RatioScales(Val(front) * SCALE, Pow10(|front|), 10);
    }
  }

  /** The trimmed text parses to what was printed. */
  lemma SavedParses(v: Money, pct: bool)
    ensures var w := FileUnits(v, pct);
            Parse(Saved(v, pct)) == Parsed(Saturate(w), false, Abs(w) > MONEY_MAX, false)
  {
    var w := FileUnits(v, pct);
    assert Abs(w) / SCALE < U64;
    var whole, frac := Digits(Abs(w) / SCALE), Padded(Abs(w) % SCALE, MONEY_DIGITS);
    hide Padded, Val, Digits, Parse, AllDigits, RoundDiv, TrimZeros;
    PrintedFraction(w);
    TrimmedValue(frac);
    ParseIsExact(w < 0, whole, TrimZeros(frac));
    assert Saved(v, pct) == Sign(w < 0) + whole + "." + TrimZeros(frac);
  }

  lemma HundredthOf(w: Money, v: Money)
    requires w == v * 100
    ensures Hundredth(w) == v
  {
    ExactRatio(Abs(v), 100);
    assert Abs(w) == Abs(v) * 100;
    hide RoundDiv;
  }

  /** A percent value too large for the parser once multiplied by a hundred. */
  predicate TooLarge(v: Money, pct: bool) {
    pct && Abs(v) > MONEY_MAX / 100
  }

  /** What is left of a value after the parser saturated it. */
  function Capped(v: Money, pct: bool): Money {
    if !TooLarge(v, pct) then v else if v > 0 then MONEY_MAX / 100 else 0 - MONEY_MAX / 100
  }

  lemma SaturatedHundredth(v: Money)
    requires TooLarge(v, true)
    ensures Hundredth(Saturate(v * 100)) == Capped(v, true)
  {
    assert RoundDiv(MONEY_MAX, 100) == MONEY_MAX / 100;
  }

  lemma ReadBack(v: Money, pct: bool, lo: Money, hi: Money)
    ensures Read(Saved(v, pct), pct, false, lo, hi) == Field(Clamp(Capped(v, pct), lo, hi), TooLarge(v, pct))
  {
    hide Parse, Saved, Hundredth;
    SavedParses(v, pct);
    if pct {
      if TooLarge(v, pct) {
        SaturatedHundredth(v);
      } else {
        HundredthOf(v * 100, v);
      }
    }
  }

  /** The file round trip returns the same money exactly when the value is inside the clamp and, in
      a percent field, small enough to be written times a hundred (or clamped back to itself). */
  lemma FileRoundTrip(v: Money, pct: bool, lo: Money, hi: Money)
    requires lo <= hi
    ensures Read(Saved(v, pct), pct, false, lo, hi).value == v
       <==> lo <= v <= hi && (TooLarge(v, pct) ==> v == if v > 0 then lo else hi)
  {
    hide Read, Saved;
    ReadBack(v, pct, lo, hi);
  }

  /** Clamp bounds that fit the file form: a hundredth of the domain or less, either way. */
  predicate ClampFits(lo: Money, hi: Money) {
    0 - MONEY_MAX / 100 <= lo <= hi <= MONEY_MAX / 100
  }

  /** So a field whose clamp fits returns every value its clamp admits, percent or not, with no fault. */
  lemma ClampedRoundTrip(v: Money, pct: bool, lo: Money, hi: Money)
    requires ClampFits(lo, hi) && lo <= v <= hi
    ensures Read(Saved(v, pct), pct, false, lo, hi) == Field(v, false)
  {
    hide Read, Saved;
    ReadBack(v, pct, lo, hi);
  }

  /** The widest clamp of a percent field is a hundred units. */
  const PERCENT_CLAMP: Money := 100 * SCALE

  /** No percent field the engine declares can be refused or changed by its own saved text. */
  lemma PercentFieldsRoundTrip(v: Money, lo: Money, hi: Money)
    requires 0 <= lo <= v <= hi <= PERCENT_CLAMP
    ensures Read(Saved(v, true), true, false, lo, hi) == Field(v, false)
  {
    ClampedRoundTrip(v, true, lo, hi);
  }

  /** Save a value and load it again, as the two loops do. */
  method SaveAndReload(v: Money, pct: bool, lo: Money, hi: Money) returns (f: Field)
    requires lo <= hi
    ensures f.value == v <==> lo <= v <= hi && (TooLarge(v, pct) ==> v == if v > 0 then lo else hi)
    ensures f.fault <==> TooLarge(v, pct)
  {
    hide Read, Saved;
    var text := SaveDecimal(v, pct);
    f := ReadDecimal(text, pct, false, lo, hi);
    FileRoundTrip(v, pct, lo, hi);
    FileFaultExactly(v, pct, lo, hi);
  }

  /** And the failure is never silent: the boot is refused exactly for the values that are too
      large, never for a value the text carries. */
  lemma FileFaultExactly(v: Money, pct: bool, lo: Money, hi: Money)
    ensures Read(Saved(v, pct), pct, false, lo, hi).fault <==> TooLarge(v, pct)
  {
    hide Read, Saved;
    ReadBack(v, pct, lo, hi);
  }

  /** Two values never share a saved text. */
  lemma SavedIsInjective(v: Money, u: Money, pct: bool)
    requires Saved(v, pct) == Saved(u, pct) && !TooLarge(v, pct) && !TooLarge(u, pct)
    ensures v == u
  {
    hide Saved, Read;
    ReadBack(v, pct, 0 - MONEY_MAX, MONEY_MAX);
    ReadBack(u, pct, 0 - MONEY_MAX, MONEY_MAX);
  }

  // ---- the wire ----

  /** One line of the signed body: the raw fraction, all eight decimals. */
  function EmitLine(name: string, v: Money): string {
    name + "=" + Text(v) + "\n"
  }

  method EmitDecimal(name: string, v: Money) returns (line: string)
    ensures line == EmitLine(name, v) == name + "=" + Text(v) + "\n"
  {
    var tmp := new char[40];
    var n := ToText(v, tmp);
    line := name + "=" + tmp[..n] + "\n";
  }

  /** The value part read in wire context: no percent scaling, no saturation, no fault. */
  lemma WireRoundTrip(v: Money, pct: bool, lo: Money, hi: Money)
    requires lo <= hi
    ensures Read(Text(v), pct, true, lo, hi) == Field(Clamp(v, lo, hi), false)
    ensures Read(Text(v), pct, true, lo, hi).value == v <==> lo <= v <= hi
  {
    hide Parse, Text;
    PrintedParses(v);
  }

  /** Distinct values give distinct signed lines. */
  lemma EmitIsInjective(name: string, v: Money, u: Money)
    ensures EmitLine(name, v) == EmitLine(name, u) <==> v == u
  {
    hide Text, Read;
    var a, b := EmitLine(name, v), EmitLine(name, u);
    var k := |name| + 1;
    assert a[k..|a| - 1] == Text(v) && b[k..|b| - 1] == Text(u);
    WireRoundTrip(v, false, 0 - MONEY_MAX, MONEY_MAX);
    WireRoundTrip(u, false, 0 - MONEY_MAX, MONEY_MAX);
  }

  // ---- integers ----

  function IntText(v: int): string {
    (if v < 0 then "-" else "") + Digits(Abs(v))
  }

  predicate IsSpace(c: char) {
    c == ' ' || '\t' <= c <= '\r'
  }

  function SkipSpace(s: string): string {
    if s != "" && IsSpace(s[0]) then SkipSpace(s[1..]) else s
  }

  /** The longest run of digits in front. */
  function DigitRun(s: string): (r: string)
    ensures AllDigits(r)
  {
    if s != "" && IsDigit(s[0]) then [s[0]] + DigitRun(s[1..]) else ""
  }

  /** The number the C library reads: leading space, one sign, digits up to the first other
      character. */
  function ReadNumber(s: string): int {
    var t := SkipSpace(s);
    if Negative(t) then 0 - Val(DigitRun(Body(t))) else Val(DigitRun(Body(t)))
  }

  /** Undefined outside the int range. */
  function Atoi(s: string): Option<int> {
    var n := ReadNumber(s);
    if 0 - INT_MAX - 1 <= n <= INT_MAX then Some(n) else None
  }

  lemma DigitRunOfDigits(ds: string)
    requires AllDigits(ds)
    ensures DigitRun(ds) == ds
  {
    if ds != "" {
      DigitRunOfDigits(ds[1..]);
      assert ds == [ds[0]] + ds[1..];
    }
  }

  lemma SpaceIsSkipped(space: string, text: string)
    requires forall i :: 0 <= i < |space| ==> IsSpace(space[i])
    requires text != "" ==> !IsSpace(text[0])
    ensures SkipSpace(space + text) == text
  {
    hide SkipSpace, IsSpace;
    Unfolds(space + text);
    if space == "" {
      assert space + text == text;
    } else {
      FirstAndRest(space, text);
      SpaceIsSkipped(space[1..], text);
    }
  }

  lemma Unfolds(s: string)
    ensures SkipSpace(s) == if s != "" && IsSpace(s[0]) then SkipSpace(s[1..]) else s
    ensures DigitRun(s) == if s != "" && IsDigit(s[0]) then [s[0]] + DigitRun(s[1..]) else ""
  {
    hide IsSpace, IsDigit;
  }

  lemma FirstAndRest(s: string, rest: string)
    requires s != ""
    ensures (s + rest)[0] == s[0] && (s + rest)[1..] == s[1..] + rest && s == [s[0]] + s[1..]
  {
  }

  lemma DigitRunStops(ds: string, rest: string)
    requires AllDigits(ds) && (rest != "" ==> !IsDigit(rest[0]))
    ensures DigitRun(ds + rest) == ds
  {
    hide DigitRun, SkipSpace, IsSpace, IsDigit;
    Unfolds(ds + rest);
    if ds == "" {
      assert ds + rest == rest;
    } else {
      FirstAndRest(ds, rest);
      DigitRunStops(ds[1..], rest);
    }
  }

  /** Leading space, one sign, and the digits up to the first other character, whatever follows; no
      digits are zero. */
  lemma NumberIsInFront(space: string, sign: string, ds: string, rest: string)
    requires forall i :: 0 <= i < |space| ==> space[i] == ' ' || 9 <= space[i] as int <= 13
    requires sign in {"", "+", "-"} && AllDigits(ds) && (rest != "" ==> !IsDigit(rest[0]))
    requires sign == "" && ds == "" && rest != "" ==> rest[0] != ' ' && !(9 <= rest[0] as int <= 13) && rest[0] != '+' && rest[0] != '-'
    ensures ReadNumber(space + (sign + ds + rest)) == if sign == "-" then 0 - Val(ds) else Val(ds)
  {
    hide Val, SkipSpace, DigitRun, AllDigits, Body, Negative;
    var text := sign + ds + rest;
    SignIsFirst(sign, ds, rest);
    SpaceIsSkipped(space, text);
    DigitRunStops(ds, rest);
  }

  lemma SignIsFirst(sign: string, ds: string, rest: string)
    requires sign in {"", "+", "-"} && AllDigits(ds) && (rest != "" ==> !IsDigit(rest[0]))
    requires sign == "" && ds == "" && rest != "" ==> !IsSpace(rest[0]) && rest[0] != '+' && rest[0] != '-'
    ensures var text := sign + ds + rest;
            && (text != "" ==> !IsSpace(text[0])) && Body(text) == ds + rest && (Negative(text) <==> sign == "-")
  {
    var text := sign + ds + rest;
    if sign != "" {
      assert text[0] == sign[0] && text[1..] == ds + rest;
    } else {
      assert text == ds + rest;
      if ds != "" { assert text[0] == ds[0]; }
    }
  }

  lemma NumberRoundTrip(v: int)
    ensures ReadNumber(IntText(v)) == v
  {
    var ds := Digits(Abs(v));
    DigitRunOfDigits(ds);
    assert IsDigit(ds[0]);
    hide Digits, Val, DigitRun, AllDigits;
    BodyOfText(v < 0, ds, "");
    assert Sign(v < 0) + ds + "" == IntText(v) && ds + "" == ds;
    assert SkipSpace(IntText(v)) == IntText(v);
  }

  /** A signed field: atoi, then the clamp. */
  function ReadSigned(text: string, lo: int, hi: int): Option<int> {
    match Atoi(text)
    case Some(n) => Some(Clamp(n, lo, hi))
    case None => None
  }

  /** The saved integer reads back exactly inside the clamp; outside the int range the library
      promises nothing. */
  lemma SignedRoundTrip(v: int, lo: int, hi: int)
    requires lo <= hi
    ensures ReadSigned(IntText(v), lo, hi) == Some(v) <==> -2147483648 <= v <= 2147483647 && lo <= v <= hi
    ensures -2147483648 <= v <= 2147483647 ==> ReadSigned(IntText(v), lo, hi) == Some(Clamp(v, lo, hi))
    ensures ReadSigned(IntText(v), lo, hi) == None <==> v < -2147483648 || v > 2147483647
  {
    hide IntText;
    NumberRoundTrip(v);
  }

  /** strtoull: saturating, a minus sign negates modulo 2^64. */
  function Strtoull(s: string): nat {
    var n := ReadNumber(s);
    if Abs(n) >= U64 then U64 - 1 else if n < 0 then U64 + n else n
  }

  function AsInt64(n: nat): int
    requires n < U64
  {
    if n > INT64_MAX then n - U64 else n
  }

  /** An unsigned field: through a signed 64-bit value, clamped there. */
  function ReadUnsigned(text: string, lo: int, hi: int): int {
    Clamp(AsInt64(Strtoull(text)), lo, hi)
  }

  /** Up to 64 bits the number is read modulo 2^64 into the signed range; beyond, every text is minus
      one. */
  lemma ReadModulo(text: string)
    ensures -0x8000_0000_0000_0000 <= AsInt64(Strtoull(text)) < 0x8000_0000_0000_0000
    ensures Abs(ReadNumber(text)) < U64 ==> AsInt64(Strtoull(text)) - ReadNumber(text) in {0 - U64, 0, U64}
    ensures Abs(ReadNumber(text)) >= U64 ==> AsInt64(Strtoull(text)) == -1
  {
    hide ReadNumber;
  }

  /** A clamp range inside the type returns exactly the values it contains, and no value of the
      upper half of a 64-bit field survives. */
  lemma UnsignedRoundTrip(v: nat, lo: int, hi: int)
    requires v < U64 && 0 <= lo <= hi <= INT64_MAX
    ensures ReadUnsigned(IntText(v), lo, hi) == v <==> lo <= v <= hi
    ensures v > INT64_MAX ==> ReadUnsigned(IntText(v), lo, hi) == lo
  {
    hide IntText;
    NumberRoundTrip(v);
  }

  // ---- booleans ----

  function BoolText(v: int): string {
    if v != 0 then "1" else "0"
  }

  function ReadBool(text: string): Option<int> {
    match Atoi(text)
    case Some(n) => Some(if n != 0 then 1 else 0)
    case None => None
  }

  /** Saving normalizes, so the round trip is the normal form, and the identity on it. */
  lemma BoolRoundTrip(v: int)
    ensures BoolText(v) == (if v == 0 then "0" else "1")
    ensures ReadBool(BoolText(v)) == Some(if v != 0 then 1 else 0)
    ensures ReadBool(BoolText(v)) == Some(v) <==> v == 0 || v == 1
  {
    NumberRoundTrip(0);
    NumberRoundTrip(1);
    assert Lead(0) == "" && Digits(0) == "" + "0" && Digits(1) == "" + "1";
    assert IntText(0) == "" + Digits(0) == "0" && IntText(1) == "" + Digits(1) == "1";
    hide ReadNumber;
  }

  /** Any number reads as a boolean by not being zero. */
  lemma BoolOfNumber(v: int)
    ensures ReadBool(IntText(v))
         == if v < -2147483648 || v > 2147483647 then None else Some(if v == 0 then 0 else 1)
  {
    hide IntText, ReadNumber;
    NumberRoundTrip(v);
  }

  // ---- enumerations ----

  function Lower(c: char): char {
    if 'A' <= c <= 'Z' then ('a' as int + (c as int - 'A' as int)) as char else c
  }

  /** Two characters are the same letter in either case, or equal. */
  lemma CaseIsIgnored(c: char, d: char)
    ensures Lower(c) == Lower(d)
       <==> c == d || ('A' <= c <= 'Z' && d as int == c as int + 32) || ('A' <= d <= 'Z' && c as int == d as int + 32)
  {
  }

  predicate SameWord(a: string, b: string) {
    |a| == |b| && forall i :: 0 <= i < |a| ==> Lower(a[i]) == Lower(b[i])
  }

  /** The first label from i on that equals the text, case ignored; -1 for none. */
  function FindLabel(text: string, labels: seq<string>, i: nat): (r: int)
    requires i <= |labels|
    ensures r == -1 || i <= r < |labels|
    decreases |labels| - i
  {
    if i == |labels| then -1 else if SameWord(text, labels[i]) then i else FindLabel(text, labels, i + 1)
  }

  /** An enumerated field: a label, else a number in range, else the default. */
  function EnumOf(text: string, labels: seq<string>, default: int): Option<int> {
    var i := FindLabel(text, labels, 0);
    if i >= 0 then Some(i) else
      match Atoi(text)
      case Some(n) => Some(if 0 <= n < |labels| then n else default)
      case None => None
  }

  method ReadEnum(text: string, labels: seq<string>, default: int) returns (v: Option<int>)
    ensures v == EnumOf(text, labels, default)
  {
    hide SameWord, Atoi;
    var i := 0;
    while i < |labels|
      invariant 0 <= i <= |labels| && FindLabel(text, labels, 0) == FindLabel(text, labels, i)
    {
      if SameWord(text, labels[i]) { return Some(i); }
      i := i + 1;
    }
    match Atoi(text)
    case Some(n) => v := Some(if 0 <= n < |labels| then n else default);
    case None => v := None;
  }

  lemma {:induction false} FoundIsTheFirst(text: string, labels: seq<string>, i: nat)
    requires i <= |labels|
    ensures var r := FindLabel(text, labels, i);
            && (r == -1 <==> forall k :: i <= k < |labels| ==> !SameWord(text, labels[k]))
            && (r >= 0 ==> SameWord(text, labels[r]) && forall k :: i <= k < r ==> !SameWord(text, labels[k]))
    decreases |labels| - i
  {
    hide SameWord;
    if i < |labels| { FoundIsTheFirst(text, labels, i + 1); }
  }

  /** An enumerated field: the first label that is the text, case ignored; where there is none, the
      number in front of the text where it names a label, and the default where it does not. */
  lemma EnumMeaning(text: string, labels: seq<string>, default: int, k: nat)
    requires k <= |labels| && forall j :: 0 <= j < k ==> !SameWord(text, labels[j])
    ensures k < |labels| && SameWord(text, labels[k]) ==> EnumOf(text, labels, default) == Some(k)
    ensures k == |labels| ==>
              var n := ReadNumber(text);
              EnumOf(text, labels, default)
              == if n < -2147483648 || n > 2147483647 then None
                 else Some(if n < 0 || n >= |labels| then default else n)
  {
    hide SameWord, ReadNumber;
    FoundIsTheFirst(text, labels, 0);
  }

  /** A label can stand for a numeral only by being that numeral. */
  lemma NumeralLabel(text: string, l: string)
    requires AllDigits(text)
    ensures SameWord(text, l) <==> text == l
  {
    if SameWord(text, l) {
      forall i | 0 <= i < |text|
        ensures text[i] == l[i]
      {
        assert Lower(text[i]) == Lower(l[i]);
      }
    }
  }

  /** Where a numeral is found among the labels. */
  lemma FindNumeral(text: string, labels: seq<string>, i: nat)
    requires i <= |labels| && AllDigits(text)
    ensures var r := FindLabel(text, labels, i);
            && (r < 0 <==> forall k :: i <= k < |labels| ==> labels[k] != text)
            && (r >= 0 ==> labels[r] == text && forall k :: i <= k < r ==> labels[k] != text)
    decreases |labels| - i
  {
    hide SameWord;
    if i < |labels| {
      NumeralLabel(text, labels[i]);
      FindNumeral(text, labels, i + 1);
    }
  }

  /** An enumerated field is saved as its number.  It reads back exactly when no label is that
      numeral, or the first one that is belongs to the same entry. */
  lemma EnumRoundTrip(v: nat, labels: seq<string>, default: int)
    requires v < |labels| <= 255
    ensures EnumOf(IntText(v), labels, default) == Some(v)
       <==> IntText(v) !in labels || (labels[v] == IntText(v) && IntText(v) !in labels[..v])
  {
    var text := IntText(v);
    assert text == "" + Digits(v) == Digits(v);
    NumberRoundTrip(v);
    hide IntText, ReadNumber, Digits;
    FindNumeral(text, labels, 0);
    hide FindLabel;
  }
}
