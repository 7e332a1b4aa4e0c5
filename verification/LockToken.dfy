/** FNV-1a hashing on 64-bit words, the held-out lock token built from it, and the label registry
    hash. */
module LockToken {
  import opened Sha256Standard
  import opened Fingerprint

  type Word64 = bv64

  const OFFSET: Word64 := 0xcbf29ce484222325
  const SECOND_SEED: Word64 := 0x9e3779b97f4a7c15

  function Widen(b: Byte): Word64 {
    b as Word64
  }

  function XorWord(h: Word64, x: Word64): Word64 {
    h ^ x
  }

  /** Times the prime, modulo 2^64. */
  function MulPrime(h: Word64): Word64 {
    h * 0x100000001b3
  }

  function Step(h: Word64, b: Byte): Word64 {
    MulPrime(XorWord(h, Widen(b)))
  }

  /** Times the inverse of the prime, which exists because the prime is odd. */
  function DivPrime(h: Word64): Word64 {
    h * 0xce965057aff6957b
  }

  lemma InverseCancels(h: Word64)
    ensures DivPrime(h * 0x100000001b3) == h
  {
  }

  lemma DivUndoesMul(h: Word64)
    ensures DivPrime(MulPrime(h)) == h
  {
    hide DivPrime;
    InverseCancels(h);
  }

  lemma WidenInjective(b: Byte, c: Byte)
    ensures Widen(b) == Widen(c) <==> b == c
  {
  }

  lemma XorInjective(h: Word64, k: Word64, x: Word64, y: Word64)
    requires XorWord(h, x) == XorWord(k, y)
    ensures h == k <==> x == y
  {
    XorUndoes(h, x);
    XorUndoes(k, y);
    hide XorWord;
  }

  lemma XorUndoes(h: Word64, x: Word64)
    ensures XorWord(XorWord(h, x), x) == h && XorWord(h, XorWord(h, x)) == x
  {
  }

  /** Injective in the word and in the byte. */
  lemma StepInjective(h: Word64, k: Word64, b: Byte, c: Byte)
    requires Step(h, b) == Step(k, c)
    ensures h == k <==> b == c
  {
    hide DivPrime, MulPrime, XorWord, Widen;
    DivUndoesMul(XorWord(h, Widen(b)));
    DivUndoesMul(XorWord(k, Widen(c)));
    XorInjective(h, k, Widen(b), Widen(c));
    WidenInjective(b, c);
  }

  // ---- the hash ----

  function Fnv(seed: Word64, data: seq<Byte>): Word64 {
    if data == [] then seed else Step(Fnv(seed, data[..|data| - 1]), data[|data| - 1])
  }

  /** The hash loop; a zero seed means the standard offset. */
  method Fnv1a64(data: seq<Byte>, seed: Word64) returns (h: Word64)
    ensures h == Fnv(if seed != 0 then seed else OFFSET, data)
  {
    h := if seed != 0 then seed else OFFSET;
    for i := 0 to |data|
      invariant h == Fnv(if seed != 0 then seed else OFFSET, data[..i])
    {
      assert data[..i + 1][..i] == data[..i];
      h := Step(h, data[i]);
    }
    assert data[..|data|] == data;
  }

  lemma FnvConcat(seed: Word64, a: seq<Byte>, b: seq<Byte>)
    ensures Fnv(seed, a + b) == Fnv(Fnv(seed, a), b)
  {
    if b == [] {
      assert a + b == a;
    } else {
      assert (a + b)[..|a + b| - 1] == a + b[..|b| - 1];
      FnvConcat(seed, a, b[..|b| - 1]);
    }
  }

  /** Over the same bytes the hash is injective in its starting word. */
  lemma {:induction false} SameTail(h: Word64, k: Word64, data: seq<Byte>)
    ensures Fnv(h, data) == Fnv(k, data) <==> h == k
  {
    if data != [] {
      var front := data[..|data| - 1];
      SameTail(h, k, front);
      hide Step;
      if Fnv(h, data) == Fnv(k, data) {
        StepInjective(Fnv(h, front), Fnv(k, front), data[|data| - 1], data[|data| - 1]);
      }
    }
  }

  /** Whatever surrounds one byte, the hash tells its values apart. */
  lemma OneByteApart(seed: Word64, before: seq<Byte>, b: Byte, c: Byte, after: seq<Byte>)
    ensures Fnv(seed, before + [b] + after) == Fnv(seed, before + [c] + after) <==> b == c
  {
    hide Step;
    var h := Fnv(seed, before);
    FnvConcat(seed, before + [b], after);
    FnvConcat(seed, before + [c], after);
    assert (before + [b])[..|before|] == before && (before + [c])[..|before|] == before;
    SameTail(Step(h, b), Step(h, c), after);
    if Step(h, b) == Step(h, c) { StepInjective(h, h, b, c); }
  }

  ghost predicate DifferAt(a: seq<Byte>, b: seq<Byte>, k: nat) {
    k < |a| == |b| && a[k] != b[k] && forall i :: 0 <= i < |a| && i != k ==> a[i] == b[i]
  }

  lemma OneDifference(seed: Word64, a: seq<Byte>, b: seq<Byte>, k: nat)
    requires DifferAt(a, b, k)
    ensures Fnv(seed, a) != Fnv(seed, b)
  {
    assert a == a[..k] + [a[k]] + a[k + 1..];
    assert b == a[..k] + [b[k]] + a[k + 1..];
    OneByteApart(seed, a[..k], a[k], b[k], a[k + 1..]);
  }

  // ---- the token ----

  /** The eight bytes of a word, most significant first. */
  function WordBytes(h: Word64): (r: seq<Byte>)
    ensures |r| == 8
  {
    [ByteAt(h, 56), ByteAt(h, 48), ByteAt(h, 40), ByteAt(h, 32), ByteAt(h, 24), ByteAt(h, 16), ByteAt(h, 8), ByteAt(h, 0)]
  }

  function ByteAt(h: Word64, shift: Word64): Byte
    requires shift < 64
  {
    ((h >> shift) & 0xff) as Byte
  }

  function Combine(a: Byte, b: Byte, c: Byte, d: Byte, e: Byte, f: Byte, g: Byte, i: Byte): Word64 {
    ((a as Word64) << 56) | ((b as Word64) << 48) | ((c as Word64) << 40) | ((d as Word64) << 32)
    | ((e as Word64) << 24) | ((f as Word64) << 16) | ((g as Word64) << 8) | (i as Word64)
  }

  lemma CombineBytes(h: Word64)
    ensures Combine(ByteAt(h, 56), ByteAt(h, 48), ByteAt(h, 40), ByteAt(h, 32),
                    ByteAt(h, 24), ByteAt(h, 16), ByteAt(h, 8), ByteAt(h, 0)) == h
  {
  }

  lemma BytesDetermine(h: Word64, k: Word64)
    requires WordBytes(h) == WordBytes(k)
    ensures h == k
  {
    hide ByteAt, Combine;
    CombineBytes(h);
    CombineBytes(k);
    var a, b := WordBytes(h), WordBytes(k);
    assert a[0] == b[0] && a[1] == b[1] && a[2] == b[2] && a[3] == b[3];
    assert a[4] == b[4] && a[5] == b[5] && a[6] == b[6] && a[7] == b[7];
  }

  /** A word as sixteen lower-case hexadecimal digits. */
  function Hex(h: Word64): (s: string)
    ensures |s| == 16
  {
    HexRoundTrip(WordBytes(h));
    HexOf(WordBytes(h))
  }

  lemma HexInjective(h: Word64, k: Word64)
    requires Hex(h) == Hex(k)
    ensures h == k
  {
    hide WordBytes;
    HexRoundTrip(WordBytes(h));
    HexRoundTrip(WordBytes(k));
    BytesDetermine(h, k);
  }

  /** The bytes of an integer of k bytes as it lies in memory, least significant first. */
  function Bytes(n: nat, k: nat): (s: seq<Byte>)
    ensures |s| == k
    decreases k
  {
    if k == 0 then [] else [LowByte(n)] + Bytes(n / 256, k - 1)
  }

  function Halved(n: nat, k: nat): nat {
    if k == 0 then n else Halved(n, k - 1) / 2
  }

  predicate Bit(n: nat, k: nat) {
    Halved(n, k) % 2 == 1
  }

  function Pack(a: bool, b: bool, c: bool, d: bool, e: bool, f: bool, g: bool, h: bool): Byte {
    (if a then 128 else 0) | (if b then 64 else 0) | (if c then 32 else 0) | (if d then 16 else 0)
    | (if e then 8 else 0) | (if f then 4 else 0) | (if g then 2 else 0) | (if h then 1 else 0)
  }

  /** The low eight bits of a number. */
  function LowByte(n: nat): Byte {
    ByteOf(n % 256)
  }

  function ByteOf(n: nat): Byte {
    Pack(Bit(n, 7), Bit(n, 6), Bit(n, 5), Bit(n, 4), Bit(n, 3), Bit(n, 2), Bit(n, 1), Bit(n, 0))
  }

  lemma PackInjective(a: bool, b: bool, c: bool, d: bool, e: bool, f: bool, g: bool, h: bool,
                      a': bool, b': bool, c': bool, d': bool, e': bool, f': bool, g': bool, h': bool)
    requires Pack(a, b, c, d, e, f, g, h) == Pack(a', b', c', d', e', f', g', h')
    ensures a == a' && b == b' && c == c' && d == d' && e == e' && f == f' && g == g' && h == h'
  {
  }

  lemma {:induction false} SameBits(n: nat, m: nat, k: nat)
    requires Halved(n, k) == Halved(m, k) && forall i :: 0 <= i < k ==> Bit(n, i) == Bit(m, i)
    ensures n == m
  {
    if k > 0 {
      assert Bit(n, k - 1) == Bit(m, k - 1);
      SameBits(n, m, k - 1);
    }
  }

  lemma HalvedTwice(n: nat)
    ensures Halved(n, 2) == n / 4
  {
    assert Halved(n, 0) == n && Halved(n, 1) == n / 2;
    assert Halved(n, 2) == n / 2 / 2 == n / 4;
  }

  lemma HalvedEight(n: nat)
    ensures Halved(n, 8) == n / 256
  {
    HalvedTwice(n);
    HalvedTwice(n / 4);
    HalvedTwice(n / 16);
    HalvedTwice(n / 64);
    HalvedAdds(n, 2, 2);
    HalvedAdds(n, 4, 2);
    HalvedAdds(n, 6, 2);
    assert n / 4 / 4 == n / 16 && n / 16 / 4 == n / 64 && n / 64 / 4 == n / 256;
  }

  lemma HalvedAdds(n: nat, i: nat, j: nat)
    ensures Halved(Halved(n, i), j) == Halved(n, i + j)
  {
    if j > 0 { HalvedAdds(n, i, j - 1); }
  }

  lemma BytesDiffer(n: nat, m: nat)
    requires n < 256 && m < 256 && n != m
    ensures ByteOf(n) != ByteOf(m)
  {
    hide Pack, Halved, Bit;
    HalvedEight(n);
    HalvedEight(m);
    if ByteOf(n) == ByteOf(m) {
      PackInjective(Bit(n, 7), Bit(n, 6), Bit(n, 5), Bit(n, 4), Bit(n, 3), Bit(n, 2), Bit(n, 1), Bit(n, 0),
                    Bit(m, 7), Bit(m, 6), Bit(m, 5), Bit(m, 4), Bit(m, 3), Bit(m, 2), Bit(m, 1), Bit(m, 0));
      forall i | 0 <= i < 8
        ensures Bit(n, i) == Bit(m, i)
      {
        assert i in {0, 1, 2, 3, 4, 5, 6, 7};
      }
      SameBits(n, m, 8);
    }
  }

  /** The bit pattern of a 32-bit integer. */
  function AsUnsigned(n: int): nat {
    n % 0x1_0000_0000
  }

  function Record(total: int, trainvalEnd: int, stableSeed: nat): (r: seq<Byte>)
    ensures |r| == 16
  {
    Bytes(AsUnsigned(total), 4) + Bytes(AsUnsigned(trainvalEnd), 4) + Bytes(stableSeed, 8)
  }

  function TokenOf(record: seq<Byte>): (t: string)
    ensures |t| == 32
  {
    Hex(Fnv(OFFSET, record)) + Hex(Fnv(SECOND_SEED, record))
  }

  method GenToken(total: int, trainvalEnd: int, stableSeed: nat) returns (token: string)
    ensures token == TokenOf(Record(total, trainvalEnd, stableSeed))
  {
    var buf := Record(total, trainvalEnd, stableSeed);
    var h1 := Fnv1a64(buf, 0);
    var h2 := Fnv1a64(buf, SECOND_SEED);
    token := Hex(h1) + Hex(h2);
  }

  /** Records that differ in one byte have different tokens: both halves differ. */
  lemma TokensSeparate(a: seq<Byte>, b: seq<Byte>, k: nat)
    requires DifferAt(a, b, k)
    ensures TokenOf(a)[..16] != TokenOf(b)[..16] && TokenOf(a)[16..] != TokenOf(b)[16..]
  {
    hide Fnv, Hex, DifferAt;
    OneDifference(OFFSET, a, b, k);
    OneDifference(SECOND_SEED, a, b, k);
    assert TokenOf(a)[..16] == Hex(Fnv(OFFSET, a)) && TokenOf(a)[16..] == Hex(Fnv(SECOND_SEED, a));
    assert TokenOf(b)[..16] == Hex(Fnv(OFFSET, b)) && TokenOf(b)[16..] == Hex(Fnv(SECOND_SEED, b));
    if TokenOf(a)[..16] == TokenOf(b)[..16] { HexInjective(Fnv(OFFSET, a), Fnv(OFFSET, b)); }
    if TokenOf(a)[16..] == TokenOf(b)[16..] { HexInjective(Fnv(SECOND_SEED, a), Fnv(SECOND_SEED, b)); }
  }

  /** Among the first k base-256 digits, exactly one differs. */
  predicate OneDigitApart(n: nat, m: nat, k: nat)
    decreases k
  {
    k > 0 && if n % 256 != m % 256 then n / 256 == m / 256 else OneDigitApart(n / 256, m / 256, k - 1)
  }

  lemma {:induction false} BytesDifferOnce(n: nat, m: nat, k: nat) returns (at: nat)
    requires OneDigitApart(n, m, k)
    ensures DifferAt(Bytes(n, k), Bytes(m, k), at)
    decreases k
  {
    hide ByteOf;
    var a, b := Bytes(n / 256, k - 1), Bytes(m / 256, k - 1);
    assert Bytes(n, k) == [LowByte(n)] + a && Bytes(m, k) == [LowByte(m)] + b;
    if n % 256 != m % 256 {
      BytesDiffer(n % 256, m % 256);
      at := 0;
    } else {
      at := BytesDifferOnce(n / 256, m / 256, k - 1);
      hide Bytes;
      at := at + 1;
    }
  }

  lemma DifferInside(before: seq<Byte>, a: seq<Byte>, b: seq<Byte>, after: seq<Byte>, k: nat)
    requires DifferAt(a, b, k)
    ensures DifferAt(before + a + after, before + b + after, |before| + k)
  {
  }

  /** One of two fields, and nothing else, differs in exactly one byte. */
  predicate FieldsOneByteApart(n: nat, m: nat, k: nat, others: bool) {
    others && OneDigitApart(n, m, k)
  }

  /** Splits whose records differ in one byte of one field, whichever byte and whichever of sample
      count, boundary and seed, have different tokens: boundaries 1 or 256 or 65536 apart, say. */
  lemma NearbySplitsSeparate(total: nat, end: nat, stableSeed: nat, total': nat, end': nat, stableSeed': nat)
    requires total < 0x8000_0000 && end < 0x8000_0000 && total' < 0x8000_0000 && end' < 0x8000_0000
    requires || FieldsOneByteApart(total, total', 4, end == end' && stableSeed == stableSeed')
             || FieldsOneByteApart(end, end', 4, total == total' && stableSeed == stableSeed')
             || FieldsOneByteApart(stableSeed, stableSeed', 8, total == total' && end == end')
    ensures TokenOf(Record(total, end, stableSeed)) != TokenOf(Record(total', end', stableSeed'))
  {
    hide TokenOf, DifferAt, Bytes, OneDigitApart;
    var a, b, c := Bytes(total, 4), Bytes(end, 4), Bytes(stableSeed, 8);
    var x, y, z := Bytes(total', 4), Bytes(end', 4), Bytes(stableSeed', 8);
    var r, q := Record(total, end, stableSeed), Record(total', end', stableSeed');
    if FieldsOneByteApart(total, total', 4, end == end' && stableSeed == stableSeed') {
      var at := BytesDifferOnce(total, total', 4);
      DifferInside([], a, x, b + c, at);
      assert r == [] + a + (b + c) && q == [] + x + (b + c);
      TokensSeparate(r, q, at);
    } else if FieldsOneByteApart(end, end', 4, total == total' && stableSeed == stableSeed') {
      var at := BytesDifferOnce(end, end', 4);
      DifferInside(a, b, y, c, at);
      TokensSeparate(r, q, 4 + at);
    } else {
      var at := BytesDifferOnce(stableSeed, stableSeed', 8);
      DifferInside(a + b, c, z, [], at);
      assert r == (a + b) + c + [] && q == (a + b) + z + [];
      TokensSeparate(r, q, 8 + at);
    }
  }

  // ---- the split ----

  /** The held-out sample count: the clamped fraction, rounded half up, at least one, never all. */
  function TestCount(total: int, fraction: real): int
    requires total > 0
  {
    var f := if fraction < 0.05 then 0.05 else if fraction > 0.30 then 0.30 else fraction;
    var rounded := (total as real * f + 0.5).Floor;
    var some := if rounded < 1 then 1 else rounded;
    if some >= total then total - 1 else some
  }

  /** Both sides of the split hold samples exactly from two samples on; then the held-out side is
      the clamped fraction to within half a sample, or one. */
  lemma TestCountIsTheFraction(total: int, fraction: real)
    requires total > 0
    ensures 0 < TestCount(total, fraction) < total <==> total >= 2
    ensures var count := TestCount(total, fraction);
            var f := if fraction < 0.05 then 0.05 else if fraction > 0.30 then 0.30 else fraction;
            total >= 2 ==> (count as real - 0.5 <= total as real * f < count as real + 0.5)
                           || (count == 1 && total as real * f < 0.5)
  {
    var f := if fraction < 0.05 then 0.05 else if fraction > 0.30 then 0.30 else fraction;
    AtMostThirty(total, f);
  }

  lemma AtMostThirty(total: int, f: real)
    requires total > 0 && 0.05 <= f <= 0.30
    ensures 0.0 < total as real * f <= total as real * 0.30
  {
    assert total as real * (0.30 - f) >= 0.0;
    assert total as real * f > 0.0;
  }

  method CountTest(total: int, fraction: real) returns (count: int)
    requires total > 0
    ensures count == TestCount(total, fraction)
  {
    var f := fraction;
    if f < 0.05 { f := 0.05; }
    if f > 0.30 { f := 0.30; }
    count := (total as real * f + 0.5).Floor;
    if count < 1 { count := 1; }
    if count >= total { count := total - 1; }
  }

  class HeldOutSplit {
    var totalSamples: int
    var trainvalEnd: int
    var testStart: int
    var locked: bool
    var lockToken: string

    /** A locked split; without samples it is degenerate and its token is empty. */
    constructor Make(total: int, fraction: real)
      ensures totalSamples == total && locked && testStart == trainvalEnd
      ensures total <= 0 ==> trainvalEnd == 0 && lockToken == ""
      ensures total > 0 ==> trainvalEnd == total - TestCount(total, fraction)
      ensures total > 0 ==> lockToken == TokenOf(Record(total, trainvalEnd, 0))
    {
      totalSamples, locked, trainvalEnd, testStart, lockToken := total, true, 0, 0, "";
      new;
      hide TestCount, TokenOf, Record;
      if total <= 0 { return; }
      var count := CountTest(total, fraction);
      trainvalEnd := total - count;
      testStart := trainvalEnd;
      lockToken := GenToken(totalSamples, trainvalEnd, 0);
    }

    /** The split opens for its own token and for no other text. */
    method Unlock(token: string) returns (ok: bool)
      modifies `locked
      ensures ok <==> token == lockToken
      ensures locked == (old(locked) && !ok)
    {
      if token != lockToken { return false; }
      locked := false;
      ok := true;
    }

    /** Locked again under a token of a fresh seed. */
    method Relock(seed: nat)
      modifies `locked, `lockToken
      ensures locked && lockToken == TokenOf(Record(totalSamples, trainvalEnd, seed))
    {
      locked := true;
      lockToken := GenToken(totalSamples, trainvalEnd, seed);
    }
  }

  /** A degenerate split is opened by the empty text, which opens no other split. */
  method EmptyTokenOpens(total: int, other: nat, fraction: real) returns (unlocked: bool, otherUnlocked: bool)
    requires total <= 0 < other
    ensures unlocked && !otherUnlocked
  {
    var degenerate := new HeldOutSplit.Make(total, fraction);
    unlocked := degenerate.Unlock("");
    var split := new HeldOutSplit.Make(other, fraction);
    otherUnlocked := split.Unlock("");
  }

  // ---- the label registry ----

  /** A registry row as text: its key and its class count. */
  datatype Row = Row(name: seq<Byte>, classes: seq<Byte>)

  const CLASS_TAG: seq<Byte> := [58, 110, 99]

  function RowText(row: Row): seq<Byte> {
    row.name + CLASS_TAG + row.classes
  }

  function RegistryText(rows: seq<Row>): seq<Byte> {
    if rows == [] then [] else RegistryText(rows[..|rows| - 1]) + RowText(rows[|rows| - 1])
  }

  method RegistryHash(rows: seq<Row>) returns (h: Word64)
    ensures h == Fnv(OFFSET, RegistryText(rows))
  {
    h := OFFSET;
    for i := 0 to |rows|
      invariant h == Fnv(OFFSET, RegistryText(rows[..i]))
    {
      assert rows[..i + 1][..i] == rows[..i];
      var text := RowText(rows[i]);
      ghost var before := h;
      FnvConcat(OFFSET, RegistryText(rows[..i]), text);
      for j := 0 to |text|
        invariant h == Fnv(before, text[..j])
      {
        assert text[..j + 1][..j] == text[..j];
        h := Step(h, text[j]);
      }
      assert text[..|text|] == text;
    }
    assert rows[..|rows|] == rows;
  }

  /** One changed character in one key changes the registry hash, wherever the row stands. */
  lemma {:induction false} RenamedRowChangesHash(rows: seq<Row>, i: nat, k: nat, c: Byte)
    requires i < |rows| && k < |rows[i].name| && rows[i].name[k] != c
    ensures var renamed := rows[i := rows[i].(name := rows[i].name[k := c])];
            Fnv(OFFSET, RegistryText(rows)) != Fnv(OFFSET, RegistryText(renamed))
  {
    hide Fnv;
    var n := |rows| - 1;
    var renamed := rows[i := rows[i].(name := rows[i].name[k := c])];
    var front, last := RegistryText(rows[..n]), RowText(rows[n]);
    FnvConcat(OFFSET, front, last);
    FnvConcat(OFFSET, RegistryText(renamed[..n]), RowText(renamed[n]));
    if i == n {
      assert renamed[..n] == rows[..n];
      assert DifferAt(last, RowText(renamed[n]), k);
      OneDifference(Fnv(OFFSET, front), last, RowText(renamed[n]), k);
    } else {
      assert renamed[..n] == rows[..n][i := rows[i].(name := rows[i].name[k := c])];
      RenamedRowChangesHash(rows[..n], i, k, c);
      SameTail(Fnv(OFFSET, front), Fnv(OFFSET, RegistryText(renamed[..n])), last);
    }
  }

  /** Row boundaries are not hashed: two rows and one row with a composed key hash alike. */
  lemma BoundariesAreInvisible(a: seq<Byte>, b: seq<Byte>, n: seq<Byte>, m: seq<Byte>)
    ensures RegistryText([Row(a, n), Row(b, m)]) == RegistryText([Row(a + CLASS_TAG + n + b, m)])
  {
    var two, one := [Row(a, n), Row(b, m)], [Row(a + CLASS_TAG + n + b, m)];
    assert two[..1] == [Row(a, n)] && [Row(a, n)][..0] == [] && one[..0] == [];
    assert RegistryText([Row(a, n)]) == [] + RowText(Row(a, n));
  }

  predicate IsDigit(b: Byte) {
    48 <= b <= 57
  }

  /** A key is not empty, does not start with a digit and contains no colon; a class count is made
      of digits. */
  ghost predicate Plain(row: Row) {
    && |row.name| > 0 && !IsDigit(row.name[0])
    && 58 !in row.name
    && forall i :: 0 <= i < |row.classes| ==> IsDigit(row.classes[i])
  }

  ghost predicate AllPlain(rows: seq<Row>) {
    forall i :: 0 <= i < |rows| ==> Plain(rows[i])
  }

  lemma {:induction false} RegistryFront(rows: seq<Row>)
    requires rows != []
    ensures RegistryText(rows) == RowText(rows[0]) + RegistryText(rows[1..])
  {
    hide RowText;
    var n := |rows| - 1;
    if n > 0 {
      RegistryFront(rows[..n]);
      assert rows[..n][1..] == rows[1..][..n - 1] && rows[1..][n - 1] == rows[n];
      assert RegistryText(rows[1..]) == RegistryText(rows[1..][..n - 1]) + RowText(rows[n]);
    } else {
      assert rows[..0] == [] && rows[1..] == [];
      assert [] + RowText(rows[0]) == RowText(rows[0]) + [];
    }
  }

  /** The key of the first row ends at the first colon. */
  lemma KeyEnds(a: seq<Byte>, b: seq<Byte>, rest: seq<Byte>, rest': seq<Byte>)
    requires 58 !in a && |rest'| > 0 && rest'[0] == 58
    requires a + rest == b + rest'
    ensures |a| <= |b|
  {
    var text := a + rest;
    assert text == b + rest' && text[|b|] == rest'[0];
  }

  /** The class count ends before the first byte that is not a digit. */
  lemma ClassesEnd(c: seq<Byte>, d: seq<Byte>, rest: seq<Byte>, rest': seq<Byte>)
    requires (forall i :: 0 <= i < |c| ==> IsDigit(c[i])) && (rest' != [] ==> !IsDigit(rest'[0]))
    requires c + rest == d + rest'
    ensures |c| <= |d|
  {
    hide IsDigit;
    var text := c + rest;
    assert text == d + rest' && (|d| < |text| ==> text[|d|] == rest'[0]);
  }

  lemma SamePrefix(a: seq<Byte>, b: seq<Byte>, rest: seq<Byte>, rest': seq<Byte>)
    requires |a| == |b| && a + rest == b + rest'
    ensures a == b && rest == rest'
  {
    var text := a + rest;
    assert text[..|a|] == a && text[..|a|] == b && text[|a|..] == rest && text[|a|..] == rest';
  }

  lemma FrontRowIsDetermined(a: Row, b: Row, rest: seq<Byte>, rest': seq<Byte>)
    requires Plain(a) && Plain(b) && RowText(a) + rest == RowText(b) + rest'
    requires (rest != [] ==> !IsDigit(rest[0])) && (rest' != [] ==> !IsDigit(rest'[0]))
    ensures a == b && rest == rest'
  {
    hide IsDigit;
    var t, u := CLASS_TAG + (a.classes + rest), CLASS_TAG + (b.classes + rest');
    assert t[0] == 58 && u[0] == 58;
    assert RowText(a) + rest == a.name + t && RowText(b) + rest' == b.name + u;
    hide RowText;
    KeyEnds(a.name, b.name, t, u);
    KeyEnds(b.name, a.name, u, t);
    SamePrefix(a.name, b.name, t, u);
    SamePrefix(CLASS_TAG, CLASS_TAG, a.classes + rest, b.classes + rest');
    ClassesEnd(a.classes, b.classes, rest, rest');
    ClassesEnd(b.classes, a.classes, rest', rest);
    SamePrefix(a.classes, b.classes, rest, rest');
  }

  lemma StartsPlain(rows: seq<Row>)
    requires AllPlain(rows)
    ensures var text := RegistryText(rows); (text == [] <==> rows == []) && (text != [] ==> !IsDigit(text[0]))
  {
    if rows != [] {
      RegistryFront(rows);
      assert RowText(rows[0])[0] == rows[0].name[0];
    }
  }

  /** For registries of plain rows the hashed text determines the rows, their order and their class
      counts: adding, removing, reordering or editing a row changes it. */
  lemma {:induction false} PlainRegistriesAreDetermined(a: seq<Row>, b: seq<Row>)
    requires AllPlain(a) && AllPlain(b)
    ensures RegistryText(a) == RegistryText(b) <==> a == b
    decreases |a|
  {
    hide RegistryText, RowText, Plain, IsDigit;
    StartsPlain(a);
    StartsPlain(b);
    if a != [] && b != [] && RegistryText(a) == RegistryText(b) {
      RegistryFront(a);
      RegistryFront(b);
      StartsPlain(a[1..]);
      StartsPlain(b[1..]);
      FrontRowIsDetermined(a[0], b[0], RegistryText(a[1..]), RegistryText(b[1..]));
      PlainRegistriesAreDetermined(a[1..], b[1..]);
      assert a == [a[0]] + a[1..] && b == [b[0]] + b[1..];
    }
  }

  // The rows of the label table.
  const WIN_LOSS: Row := Row([119, 105, 110, 95, 108, 111, 115, 115], [48])
  const BARRIER: Row := Row([98, 97, 114, 114, 105, 101, 114], [48])
  const FORWARD_PNL: Row := Row([102, 111, 114, 119, 97, 114, 100, 95, 112, 110, 108], [49])
  const REGIME: Row := Row([114, 101, 103, 105, 109, 101], [53])
  const VOL_BARRIER: Row := Row([118, 111, 108, 95, 98, 97, 114, 114, 105, 101, 114], [48])
  const WILL_PEAK: Row := Row([119, 105, 108, 108, 95, 112, 101, 97, 107], [48])
  const WILL_VALLEY: Row := Row([119, 105, 108, 108, 95, 118, 97, 108, 108, 101, 121], [48])
  const PEAK_VALLEY_STABLE: Row := Row([112, 101, 97, 107, 95, 118, 97, 108, 108, 101, 121, 95, 115, 116, 97, 98, 108, 101], [51])
  const CS_PERCENTILE_RANK: Row := Row([99, 115, 95, 112, 101, 114, 99, 101, 110, 116, 105, 108, 101, 95, 114, 97, 110, 107], [49])
  const CS_ZSCORE_ROBUST: Row := Row([99, 115, 95, 122, 115, 99, 111, 114, 101, 95, 114, 111, 98, 117, 115, 116], [49])
  const CS_VOLSCALED_DEMEANED: Row := Row([99, 115, 95, 118, 111, 108, 115, 99, 97, 108, 101, 100, 95, 100, 101, 109, 101, 97, 110, 101, 100], [49])
  const VOL_BARRIER_3C: Row := Row([118, 111, 108, 95, 98, 97, 114, 114, 105, 101, 114, 95, 51, 99], [51])
  const VOL_BARRIER_3C_TIMED: Row := Row([118, 111, 108, 95, 98, 97, 114, 114, 105, 101, 114, 95, 51, 99, 95, 116, 105, 109, 101, 100], [51])

  const TARGETS: seq<Row> := [
    WIN_LOSS, BARRIER, FORWARD_PNL, REGIME, VOL_BARRIER, WILL_PEAK,
    WILL_VALLEY, PEAK_VALLEY_STABLE, CS_PERCENTILE_RANK, CS_ZSCORE_ROBUST,
    CS_VOLSCALED_DEMEANED, VOL_BARRIER_3C, VOL_BARRIER_3C_TIMED
  ]

  /** The label table is plain, so its text is shared with no other plain registry. */
  lemma TargetsAreDetermined(rows: seq<Row>)
    requires AllPlain(rows)
    ensures AllPlain(TARGETS) && (RegistryText(rows) == RegistryText(TARGETS) <==> rows == TARGETS)
  {
    TargetsArePlain();
    hide AllPlain, RegistryText;
    PlainRegistriesAreDetermined(rows, TARGETS);
  }

  lemma TargetsArePlain()
    ensures AllPlain(TARGETS)
  {
    ShortKeysArePlain();
    LongKeysArePlain();
    hide Plain;
  }

  lemma ShortKeysArePlain()
    ensures Plain(WIN_LOSS) && Plain(BARRIER) && Plain(FORWARD_PNL) && Plain(REGIME)
    ensures Plain(VOL_BARRIER) && Plain(WILL_PEAK) && Plain(WILL_VALLEY)
  {
  }

  lemma LongKeysArePlain()
    ensures Plain(PEAK_VALLEY_STABLE) && Plain(CS_PERCENTILE_RANK) && Plain(CS_ZSCORE_ROBUST)
    ensures Plain(CS_VOLSCALED_DEMEANED) && Plain(VOL_BARRIER_3C) && Plain(VOL_BARRIER_3C_TIMED)
  {
  }
}
