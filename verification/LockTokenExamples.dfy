/** A known answer of the lock token: one record, byte for byte, and its thirty-two digits. */
module LockTokenExamples {
  import opened Sha256Standard
  import opened Sha256Examples
  import opened Fingerprint
  import opened LockToken

  // ---- the record ----

  const RECORD: seq<Byte> := [0x40, 0x42, 0x0f, 0x00, 0x00, 0x35, 0x0c, 0x00,
                              0xef, 0xcd, 0xab, 0x89, 0x67, 0x45, 0x23, 0x01]

  lemma BytesUnfold(n: nat, k: nat)
    ensures Bytes(n, 0) == [] && Bytes(n, k + 1) == [ByteOf(n % 256)] + Bytes(n / 256, k)
  {
    hide ByteOf;
  }

  /** The bits of a number below 256, most significant first. */
  lemma ByteOfBits(n: nat, a: bool, b: bool, c: bool, d: bool, e: bool, f: bool, g: bool, h: bool)
    requires n == (if a then 128 else 0) + (if b then 64 else 0) + (if c then 32 else 0) + (if d then 16 else 0)
                + (if e then 8 else 0) + (if f then 4 else 0) + (if g then 2 else 0) + (if h then 1 else 0)
    ensures ByteOf(n) == Pack(a, b, c, d, e, f, g, h)
  {
    hide Pack, Halved, Bit;
    NotHalved(n);
    var n7 := if a then 1 else 0;
    var n6 := 2 * n7 + if b then 1 else 0;
    var n5 := 2 * n6 + if c then 1 else 0;
    var n4 := 2 * n5 + if d then 1 else 0;
    var n3 := 2 * n4 + if e then 1 else 0;
    var n2 := 2 * n3 + if f then 1 else 0;
    var n1 := 2 * n2 + if g then 1 else 0;
    PeelBit(n, 0, n1, h);
    PeelBit(n, 1, n2, g);
    PeelBit(n, 2, n3, f);
    PeelBit(n, 3, n4, e);
    PeelBit(n, 4, n5, d);
    PeelBit(n, 5, n6, c);
    PeelBit(n, 6, n7, b);
    PeelBit(n, 7, 0, a);
  }

  lemma NotHalved(n: nat)
    ensures Halved(n, 0) == n
  {
  }

  lemma PeelBit(n: nat, k: nat, rest: nat, b: bool)
    requires Halved(n, k) == 2 * rest + if b then 1 else 0
    ensures Bit(n, k) == b && Halved(n, k + 1) == rest
  {
  }

  lemma LiteralBytes0()
    ensures ByteOf(0) == 0x00 && ByteOf(1) == 0x01 && ByteOf(12) == 0x0c && ByteOf(15) == 0x0f
  {
    hide ByteOf;
    ByteOfBits(0, false, false, false, false, false, false, false, false);
    ByteOfBits(1, false, false, false, false, false, false, false, true);
    ByteOfBits(12, false, false, false, false, true, true, false, false);
    ByteOfBits(15, false, false, false, false, true, true, true, true);
  }

  lemma LiteralBytes1()
    ensures ByteOf(35) == 0x23 && ByteOf(53) == 0x35 && ByteOf(64) == 0x40 && ByteOf(66) == 0x42
  {
    hide ByteOf;
    ByteOfBits(35, false, false, true, false, false, false, true, true);
    ByteOfBits(53, false, false, true, true, false, true, false, true);
    ByteOfBits(64, false, true, false, false, false, false, false, false);
    ByteOfBits(66, false, true, false, false, false, false, true, false);
  }

  lemma LiteralBytes2()
    ensures ByteOf(69) == 0x45 && ByteOf(103) == 0x67 && ByteOf(137) == 0x89 && ByteOf(171) == 0xab
  {
    hide ByteOf;
    ByteOfBits(69, false, true, false, false, false, true, false, true);
    ByteOfBits(103, false, true, true, false, false, true, true, true);
    ByteOfBits(137, true, false, false, false, true, false, false, true);
    ByteOfBits(171, true, false, true, false, true, false, true, true);
  }

  lemma LiteralBytes3()
    ensures ByteOf(205) == 0xcd && ByteOf(239) == 0xef
  {
    hide ByteOf;
    ByteOfBits(205, true, true, false, false, true, true, false, true);
    ByteOfBits(239, true, true, true, false, true, true, true, true);
  }

  lemma CountBytes()
    ensures Bytes(1000000, 4) == [0x40, 0x42, 0x0f, 0x00]
    ensures Bytes(800000, 4) == [0x00, 0x35, 0x0c, 0x00]
  {
    hide ByteOf, Bytes;
    LiteralBytes0();
    LiteralBytes1();
    LiteralBytes2();
    LiteralBytes3();
    BytesUnfold(1000000, 3);
    BytesUnfold(3906, 2);
    BytesUnfold(15, 1);
    BytesUnfold(0, 0);
    BytesUnfold(800000, 3);
    BytesUnfold(3125, 2);
    BytesUnfold(12, 1);
    BytesUnfold(0, 0);
  }

  lemma SeedBytes()
    ensures Bytes(0x0123456789abcdef, 8) == [0xef, 0xcd, 0xab, 0x89, 0x67, 0x45, 0x23, 0x01]
  {
    hide ByteOf, Bytes;
    LiteralBytes0();
    LiteralBytes1();
    LiteralBytes2();
    LiteralBytes3();
    BytesUnfold(81985529216486895, 7);
    BytesUnfold(320255973501901, 6);
    BytesUnfold(1250999896491, 5);
    BytesUnfold(4886718345, 4);
    BytesUnfold(19088743, 3);
    BytesUnfold(74565, 2);
    BytesUnfold(291, 1);
    BytesUnfold(1, 0);
  }

  lemma RecordIs()
    ensures Record(1000000, 800000, 0x0123456789abcdef) == RECORD
  {
    hide Bytes;
    CountBytes();
    SeedBytes();
  }

  // ---- the hash ----

  lemma FourSteps(seed: Word64, a: Byte, b: Byte, c: Byte, d: Byte)
    ensures Fnv(seed, [a, b, c, d]) == Step(Step(Step(Step(seed, a), b), c), d)
  {
    hide Step;
    assert [a, b, c, d][..3] == [a, b, c] && [a, b, c][..2] == [a, b] && [a, b][..1] == [a] && [a][..0] == [];
    assert Fnv(seed, [a, b, c]) == Step(Fnv(seed, [a, b]), c);
    assert Fnv(seed, [a, b]) == Step(Fnv(seed, [a]), b);
    assert Fnv(seed, [a]) == Step(Fnv(seed, []), a);
  }

  lemma RecordInFours()
    ensures RECORD == [0x40, 0x42, 0x0f, 0x00] + [0x00, 0x35, 0x0c, 0x00]
                    + [0xef, 0xcd, 0xab, 0x89] + [0x67, 0x45, 0x23, 0x01]
  {
  }

  lemma First0()
    ensures Step(0xcbf29ce484222325, 0x40) == 0xaf63fd4c8602249f && Step(0xaf63fd4c8602249f, 0x42) == 0x090c4607b5a4a387
    ensures Step(0x090c4607b5a4a387, 0x0f) == 0x047e8719a6c1e018 && Step(0x047e8719a6c1e018, 0x00) == 0x64dfa8965b6fc8c8
  {
  }

  lemma First1()
    ensures Step(0x64dfa8965b6fc8c8, 0x00) == 0xd7d43f7d5ef22bd8 && Step(0xd7d43f7d5ef22bd8, 0x35) == 0xafd3cf085580a3b7
    ensures Step(0xafd3cf085580a3b7, 0x0c) == 0x458c8629499636c1 && Step(0x458c8629499636c1, 0x00) == 0xc3feb9280a3f09f3
  {
  }

  lemma First2()
    ensures Step(0xc3feb9280a3f09f3, 0xef) == 0x48ddbb09691c7a94 && Step(0x48ddbb09691c7a94, 0xcd) == 0xed3f29fd9b63e53b
    ensures Step(0xed3f29fd9b63e53b, 0xab) == 0x8639e9ef0abf13b0 && Step(0x8639e9ef0abf13b0, 0x89) == 0xd37bba2f42ada9db
  {
  }

  lemma First3()
    ensures Step(0xd37bba2f42ada9db, 0x67) == 0x08e71a4e4d176a74 && Step(0x08e71a4e4d176a74, 0x45) == 0x381be40cfec97143
    ensures Step(0x381be40cfec97143, 0x23) == 0x20d5e214f04ba620 && Step(0x20d5e214f04ba620, 0x01) == 0x17154a94508b4a13
  {
  }

  lemma FirstHash()
    ensures Fnv(OFFSET, RECORD) == 0x17154a94508b4a13
  {
    hide Fnv, Step;
    RecordInFours();
    First0();
    FourSteps(0xcbf29ce484222325, 0x40, 0x42, 0x0f, 0x00);
    First1();
    FourSteps(0x64dfa8965b6fc8c8, 0x00, 0x35, 0x0c, 0x00);
    First2();
    FourSteps(0xc3feb9280a3f09f3, 0xef, 0xcd, 0xab, 0x89);
    First3();
    FourSteps(0xd37bba2f42ada9db, 0x67, 0x45, 0x23, 0x01);
    FnvConcat(OFFSET, [0x40, 0x42, 0x0f, 0x00], [0x00, 0x35, 0x0c, 0x00]);
    FnvConcat(OFFSET, [0x40, 0x42, 0x0f, 0x00] + [0x00, 0x35, 0x0c, 0x00], [0xef, 0xcd, 0xab, 0x89]);
    FnvConcat(OFFSET, [0x40, 0x42, 0x0f, 0x00] + [0x00, 0x35, 0x0c, 0x00] + [0xef, 0xcd, 0xab, 0x89], [0x67, 0x45, 0x23, 0x01]);
  }

  lemma Second0()
    ensures Step(0x9e3779b97f4a7c15, 0x40) == 0x22c02b334b91446f && Step(0x22c02b334b91446f, 0x42) == 0x9dcd952967d6d877
    ensures Step(0x9dcd952967d6d877, 0x0f) == 0xfb2ced5b7211d3e8 && Step(0xfb2ced5b7211d3e8, 0x00) == 0xdf2b3a62d44b1338
  {
  }

  lemma Second1()
    ensures Step(0xdf2b3a62d44b1338, 0x00) == 0x81876deebb91a828 && Step(0x81876deebb91a828, 0x35) == 0xaac7e9a8b880a947
    ensures Step(0xaac7e9a8b880a947, 0x0c) == 0xb25b54b1829faa71 && Step(0xb25b54b1829faa71, 0x00) == 0xb0db5aa0f54e9e03
  {
  }

  lemma Second2()
    ensures Step(0xb0db5aa0f54e9e03, 0xef) == 0xd359eb80d4980b04 && Step(0xd359eb80d4980b04, 0xcd) == 0xb9d6f4e93e5c068b
    ensures Step(0xb9d6f4e93e5c068b, 0xab) == 0x24484854f65e6860 && Step(0x24484854f65e6860, 0x89) == 0x053bd15ea26c43eb
  {
  }

  lemma Second3()
    ensures Step(0x053bd15ea26c43eb, 0x67) == 0x50e84fcdfdf6c6e4 && Step(0x50e84fcdfdf6c6e4, 0x45) == 0x71863c068a538393
    ensures Step(0x71863c068a538393, 0x23) == 0x3a9baf1d0be8c410 && Step(0x3a9baf1d0be8c410, 0x01) == 0x7f4e9f5b3c8528e3
  {
  }

  lemma SecondHash()
    ensures Fnv(SECOND_SEED, RECORD) == 0x7f4e9f5b3c8528e3
  {
    hide Fnv, Step;
    RecordInFours();
    Second0();
    FourSteps(0x9e3779b97f4a7c15, 0x40, 0x42, 0x0f, 0x00);
    Second1();
    FourSteps(0xdf2b3a62d44b1338, 0x00, 0x35, 0x0c, 0x00);
    Second2();
    FourSteps(0xb0db5aa0f54e9e03, 0xef, 0xcd, 0xab, 0x89);
    Second3();
    FourSteps(0x053bd15ea26c43eb, 0x67, 0x45, 0x23, 0x01);
    FnvConcat(SECOND_SEED, [0x40, 0x42, 0x0f, 0x00], [0x00, 0x35, 0x0c, 0x00]);
    FnvConcat(SECOND_SEED, [0x40, 0x42, 0x0f, 0x00] + [0x00, 0x35, 0x0c, 0x00], [0xef, 0xcd, 0xab, 0x89]);
    FnvConcat(SECOND_SEED, [0x40, 0x42, 0x0f, 0x00] + [0x00, 0x35, 0x0c, 0x00] + [0xef, 0xcd, 0xab, 0x89], [0x67, 0x45, 0x23, 0x01]);
  }

  // ---- the digits ----

  lemma HexOfEight(a: Byte, b: Byte, c: Byte, d: Byte, e: Byte, f: Byte, g: Byte, h: Byte)
    ensures HexOf([a, b, c, d, e, f, g, h])
         == HexOf([a]) + HexOf([b]) + HexOf([c]) + HexOf([d]) + (HexOf([e]) + HexOf([f]) + HexOf([g]) + HexOf([h]))
  {
    hide HexOf;
    assert [a, b, c, d, e, f, g, h] == [a] + [b] + [c] + [d] + ([e] + [f] + [g] + [h]);
    HexConcat([a] + [b] + [c] + [d], [e] + [f] + [g] + [h]);
    HexConcat([a] + [b] + [c], [d]);
    HexConcat([a] + [b], [c]);
    HexConcat([a], [b]);
    HexConcat([e] + [f] + [g], [h]);
    HexConcat([e] + [f], [g]);
    HexConcat([e], [f]);
  }

  lemma FirstDigits()
    ensures Hex(0x17154a94508b4a13) == "17154a94" + "508b4a13"
  {
    hide HexOf, High, Low, HexDigit;
    FirstBytes();
    FirstNibbles();
    HexOfEight(0x17, 0x15, 0x4a, 0x94, 0x50, 0x8b, 0x4a, 0x13);
  }

  lemma FirstBytes()
    ensures LockToken.WordBytes(0x17154a94508b4a13) == [0x17, 0x15, 0x4a, 0x94, 0x50, 0x8b, 0x4a, 0x13]
  {
  }

  lemma FirstNibbles()
    ensures HexOf([0x17]) == "17"
    ensures HexOf([0x15]) == "15"
    ensures HexOf([0x4a]) == "4a"
    ensures HexOf([0x94]) == "94"
    ensures HexOf([0x50]) == "50"
    ensures HexOf([0x8b]) == "8b"
    ensures HexOf([0x4a]) == "4a"
    ensures HexOf([0x13]) == "13"
  {
    hide HexOf;
    HexOfByte(0x17, 1, 7);
    HexOfByte(0x15, 1, 5);
    HexOfByte(0x4a, 4, 10);
    HexOfByte(0x94, 9, 4);
    HexOfByte(0x50, 5, 0);
    HexOfByte(0x8b, 8, 11);
    HexOfByte(0x4a, 4, 10);
    HexOfByte(0x13, 1, 3);
  }

  lemma SecondDigits()
    ensures Hex(0x7f4e9f5b3c8528e3) == "7f4e9f5b" + "3c8528e3"
  {
    hide HexOf, High, Low, HexDigit;
    SecondBytes();
    SecondNibbles();
    HexOfEight(0x7f, 0x4e, 0x9f, 0x5b, 0x3c, 0x85, 0x28, 0xe3);
  }

  lemma SecondBytes()
    ensures LockToken.WordBytes(0x7f4e9f5b3c8528e3) == [0x7f, 0x4e, 0x9f, 0x5b, 0x3c, 0x85, 0x28, 0xe3]
  {
  }

  lemma SecondNibbles()
    ensures HexOf([0x7f]) == "7f"
    ensures HexOf([0x4e]) == "4e"
    ensures HexOf([0x9f]) == "9f"
    ensures HexOf([0x5b]) == "5b"
    ensures HexOf([0x3c]) == "3c"
    ensures HexOf([0x85]) == "85"
    ensures HexOf([0x28]) == "28"
    ensures HexOf([0xe3]) == "e3"
  {
    hide HexOf;
    HexOfByte(0x7f, 7, 15);
    HexOfByte(0x4e, 4, 14);
    HexOfByte(0x9f, 9, 15);
    HexOfByte(0x5b, 5, 11);
    HexOfByte(0x3c, 3, 12);
    HexOfByte(0x85, 8, 5);
    HexOfByte(0x28, 2, 8);
    HexOfByte(0xe3, 14, 3);
  }

  /** The token of a million samples, eight hundred thousand of them in front, and a given seed. */
  lemma KnownToken()
    ensures TokenOf(Record(1000000, 800000, 0x0123456789abcdef)) == "17154a94" + "508b4a13" + ("7f4e9f5b" + "3c8528e3")
  {
    hide Record, Fnv, Hex;
    RecordIs();
    FirstHash();
    SecondHash();
    FirstDigits();
    SecondDigits();
  }

  // ---- the label table ----

  function AsText(s: seq<Byte>): (t: string)
    ensures |t| == |s|
  {
    seq(|s|, i requires 0 <= i < |s| => s[i] as char)
  }

  /** What a row of the label table adds to the hashed text. */
  lemma RowsRead()
    ensures AsText(RowText(BARRIER)) == "barrier:nc0" && AsText(RowText(REGIME)) == "regime:nc5"
  {
  }
}
