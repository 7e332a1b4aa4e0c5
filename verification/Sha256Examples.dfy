/** A known answer of SHA-256, evaluated from the definition eight rounds at a time: the digest of
    the three bytes "abc". */
module Sha256Examples {
  import opened Sha256Standard
  import opened Sha256Constants
  import opened Fingerprint

  /** Sixteen consecutive words of a message schedule. */
  datatype Window = Window(
    w0: Word, w1: Word, w2: Word, w3: Word, w4: Word, w5: Word, w6: Word, w7: Word,
    w8: Word, w9: Word, w10: Word, w11: Word, w12: Word, w13: Word, w14: Word, w15: Word)

  ghost predicate At(b: Block, t: nat, s: Window) {
    && W(b, t) == s.w0 && W(b, t + 1) == s.w1 && W(b, t + 2) == s.w2 && W(b, t + 3) == s.w3
    && W(b, t + 4) == s.w4 && W(b, t + 5) == s.w5 && W(b, t + 6) == s.w6 && W(b, t + 7) == s.w7
    && W(b, t + 8) == s.w8 && W(b, t + 9) == s.w9 && W(b, t + 10) == s.w10 && W(b, t + 11) == s.w11
    && W(b, t + 12) == s.w12 && W(b, t + 13) == s.w13 && W(b, t + 14) == s.w14 && W(b, t + 15) == s.w15
  }

  /** The window eight words further on. */
  function Slide8(s: Window): Window {
    var x16 := Schedule(s.w14, s.w9, s.w1, s.w0);
    var x17 := Schedule(s.w15, s.w10, s.w2, s.w1);
    var x18 := Schedule(x16, s.w11, s.w3, s.w2);
    var x19 := Schedule(x17, s.w12, s.w4, s.w3);
    var x20 := Schedule(x18, s.w13, s.w5, s.w4);
    var x21 := Schedule(x19, s.w14, s.w6, s.w5);
    var x22 := Schedule(x20, s.w15, s.w7, s.w6);
    var x23 := Schedule(x21, x16, s.w8, s.w7);
    Window(s.w8, s.w9, s.w10, s.w11, s.w12, s.w13, s.w14, s.w15, x16, x17, x18, x19, x20, x21, x22, x23)
  }

  lemma NextWord(b: Block, t: nat)
    ensures W(b, t + 16) == Schedule(W(b, t + 14), W(b, t + 9), W(b, t + 1), W(b, t))
  {
  }

  lemma Slide8At(b: Block, t: nat, s: Window)
    requires At(b, t, s)
    ensures At(b, t + 8, Slide8(s))
  {
    hide W, Schedule;
    NextWord(b, t);
    NextWord(b, t + 1);
    NextWord(b, t + 2);
    NextWord(b, t + 3);
    NextWord(b, t + 4);
    NextWord(b, t + 5);
    NextWord(b, t + 6);
    NextWord(b, t + 7);
  }

  function Rounds8(v: Vars, s: Window, a: Word, b: Word, c: Word, d: Word, e: Word, f: Word, g: Word, h: Word): Vars {
    Round(Round(Round(Round(Round(Round(Round(Round(
      v, a, s.w0), b, s.w1), c, s.w2), d, s.w3), e, s.w4), f, s.w5), g, s.w6), h, s.w7)
  }

  lemma NextRound(v: Vars, b: Block, t: nat)
    requires t < 64
    ensures Rounds(v, b, t + 1) == Round(Rounds(v, b, t), K(t), W(b, t))
  {
  }

  /** Eight rounds and the words they use up. */
  lemma EightRounds(start: Vars, b: Block, t: nat, v: Vars, s: Window)
    requires t + 8 <= 64 && Rounds(start, b, t) == v && At(b, t, s)
    ensures At(b, t + 8, Slide8(s))
    ensures Rounds(start, b, t + 8)
         == Rounds8(v, s, K(t), K(t + 1), K(t + 2), K(t + 3), K(t + 4), K(t + 5), K(t + 6), K(t + 7))
  {
    Slide8At(b, t, s);
    hide Rounds, Round, W, K, Slide8;
    NextRound(start, b, t);
    NextRound(start, b, t + 1);
    NextRound(start, b, t + 2);
    NextRound(start, b, t + 3);
    NextRound(start, b, t + 4);
    NextRound(start, b, t + 5);
    NextRound(start, b, t + 6);
    NextRound(start, b, t + 7);
  }

  // ---- the block ----

  const ABC: seq<Byte> := [0x61, 0x62, 0x63]

  function AbcBlock(): Block {
    ABC + [0x80] + Zeros(59) + [0x18]
  }

  lemma BigEndianSmall(bytes: nat)
    ensures BigEndian(0, bytes) == Zeros(bytes)
  {
    if bytes > 0 {
      BigEndianSmall(bytes - 1);
      assert Zeros(bytes) == Zeros(bytes - 1) + [0];
    }
  }

  lemma AbcIsPadded()
    ensures Pad(ABC) == AbcBlock()
  {
    BigEndianSmall(7);
    assert BigEndian(24, 8) == BigEndian(0, 7) + [0x18];
    hide BigEndian;
    assert Zeros(52) + Zeros(7) == Zeros(59);
    assert Pad(ABC) == ABC + [0x80] + Zeros(52) + (Zeros(7) + [0x18]);
  }

  ghost predicate StartsAbc(b: Block) {
    At(b, 0, Window(0x61626380, 0x00000000, 0x00000000, 0x00000000, 0x00000000, 0x00000000, 0x00000000, 0x00000000,
                    0x00000000, 0x00000000, 0x00000000, 0x00000000, 0x00000000, 0x00000000, 0x00000000, 0x00000018))
  }

  lemma AbcWords()
    ensures StartsAbc(AbcBlock())
  {
    var b := AbcBlock();
    assert b[0] == 0x61 && b[1] == 0x62 && b[2] == 0x63 && b[3] == 0x80 && b[63] == 0x18;
    assert forall k :: 4 <= k < 63 ==> b[k] == 0;
    hide AbcBlock;
    assert forall t :: 0 < t < 15 ==> W(b, t) == WordOf(0, 0, 0, 0);
  }

  // ---- the rounds ----

  lemma Abc8(b: Block)
    requires StartsAbc(b)
    ensures Rounds(INITIAL, b, 8)
         == Vars(0x85a07b5f, 0xe5030380, 0x2b4209f5, 0x04409a6a, 0x0c657a79, 0x9b27a401, 0x714260ad, 0x43ada245)
    ensures At(b, 8, Window(0x00000000, 0x00000000, 0x00000000, 0x00000000, 0x00000000, 0x00000000, 0x00000000, 0x00000018,
                             0x61626380, 0x000f0000, 0x7da86405, 0x600003c6, 0x3e9d7b78, 0x0183fc00, 0x12dcbfdb, 0xe2e2c38e))
  {
    assert Rounds(INITIAL, b, 0) == INITIAL;
    var s := Window(0x61626380, 0x00000000, 0x00000000, 0x00000000, 0x00000000, 0x00000000, 0x00000000, 0x00000000,
                           0x00000000, 0x00000000, 0x00000000, 0x00000000, 0x00000000, 0x00000000, 0x00000000, 0x00000018);
    Constants0();
    Constants4();
    hide K, W, At, Rounds;
    EightRounds(INITIAL, b, 0, INITIAL, s);
  }

  lemma Abc16(b: Block)
    requires StartsAbc(b)
    ensures Rounds(INITIAL, b, 16)
         == Vars(0xb0fa238e, 0xc0645fde, 0xd932eb16, 0x87912990, 0x07590dcd, 0x0b92f20c, 0x745a48de, 0x1e578218)
    ensures At(b, 16, Window(0x61626380, 0x000f0000, 0x7da86405, 0x600003c6, 0x3e9d7b78, 0x0183fc00, 0x12dcbfdb, 0xe2e2c38e,
                             0xc8215c1a, 0xb73679a2, 0xe5bc3909, 0x32663c5b, 0x9d209d67, 0xec8726cb, 0x702138a4, 0xd3b7973b))
  {
    hide W, At, StartsAbc, Rounds;
    Abc8(b);
    var v := Vars(0x85a07b5f, 0xe5030380, 0x2b4209f5, 0x04409a6a, 0x0c657a79, 0x9b27a401, 0x714260ad, 0x43ada245);
    var s := Window(0x00000000, 0x00000000, 0x00000000, 0x00000000, 0x00000000, 0x00000000, 0x00000000, 0x00000018,
                           0x61626380, 0x000f0000, 0x7da86405, 0x600003c6, 0x3e9d7b78, 0x0183fc00, 0x12dcbfdb, 0xe2e2c38e);
    Constants8();
    Constants12();
    hide K, W, At, Rounds;
    EightRounds(INITIAL, b, 8, v, s);
  }

  lemma Abc24(b: Block)
    requires StartsAbc(b)
    ensures Rounds(INITIAL, b, 24)
         == Vars(0xc5d53d8d, 0xa7a3623f, 0xc2606d6d, 0x9dc68b63, 0xaa47c347, 0x49f5114a, 0xe1257970, 0x8ada8930)
    ensures At(b, 24, Window(0xc8215c1a, 0xb73679a2, 0xe5bc3909, 0x32663c5b, 0x9d209d67, 0xec8726cb, 0x702138a4, 0xd3b7973b,
                             0x93f5997f, 0x3b68ba73, 0xaff4ffc1, 0xf10a5c62, 0x0a8b3996, 0x72af830a, 0x9409e33e, 0x24641522))
  {
    hide W, At, StartsAbc, Rounds;
    Abc16(b);
    var v := Vars(0xb0fa238e, 0xc0645fde, 0xd932eb16, 0x87912990, 0x07590dcd, 0x0b92f20c, 0x745a48de, 0x1e578218);
    var s := Window(0x61626380, 0x000f0000, 0x7da86405, 0x600003c6, 0x3e9d7b78, 0x0183fc00, 0x12dcbfdb, 0xe2e2c38e,
                           0xc8215c1a, 0xb73679a2, 0xe5bc3909, 0x32663c5b, 0x9d209d67, 0xec8726cb, 0x702138a4, 0xd3b7973b);
    Constants16();
    Constants20();
    hide K, W, At, Rounds;
    EightRounds(INITIAL, b, 16, v, s);
  }

  lemma Abc32(b: Block)
    requires StartsAbc(b)
    ensures Rounds(INITIAL, b, 32)
         == Vars(0x73b33bf5, 0xea992a22, 0xa0060b30, 0x363482c9, 0xba591112, 0x0109ab3a, 0xade79437, 0x6112a3b7)
    ensures At(b, 32, Window(0x93f5997f, 0x3b68ba73, 0xaff4ffc1, 0xf10a5c62, 0x0a8b3996, 0x72af830a, 0x9409e33e, 0x24641522,
                             0x9f47bf94, 0xf0a64f5a, 0x3e246a79, 0x27333ba3, 0x0c4763f2, 0x840abf27, 0x7a290d5d, 0x065c43da))
  {
    hide W, At, StartsAbc, Rounds;
    Abc24(b);
    var v := Vars(0xc5d53d8d, 0xa7a3623f, 0xc2606d6d, 0x9dc68b63, 0xaa47c347, 0x49f5114a, 0xe1257970, 0x8ada8930);
    var s := Window(0xc8215c1a, 0xb73679a2, 0xe5bc3909, 0x32663c5b, 0x9d209d67, 0xec8726cb, 0x702138a4, 0xd3b7973b,
                           0x93f5997f, 0x3b68ba73, 0xaff4ffc1, 0xf10a5c62, 0x0a8b3996, 0x72af830a, 0x9409e33e, 0x24641522);
    Constants24();
    Constants28();
    hide K, W, At, Rounds;
    EightRounds(INITIAL, b, 24, v, s);
  }

  lemma Abc40(b: Block)
    requires StartsAbc(b)
    ensures Rounds(INITIAL, b, 40)
         == Vars(0x79ea687a, 0x6dc57a8a, 0x34df1604, 0x41a65cb1, 0x1efbc0a0, 0xf0781bc8, 0xa507a53d, 0x0772a26b)
    ensures At(b, 40, Window(0x9f47bf94, 0xf0a64f5a, 0x3e246a79, 0x27333ba3, 0x0c4763f2, 0x840abf27, 0x7a290d5d, 0x065c43da,
                             0xfb3e89cb, 0xcc7617db, 0xb9e66c34, 0xa9993667, 0x84badedd, 0xc21462bc, 0x1487472c, 0xb20f7a99))
  {
    hide W, At, StartsAbc, Rounds;
    Abc32(b);
    var v := Vars(0x73b33bf5, 0xea992a22, 0xa0060b30, 0x363482c9, 0xba591112, 0x0109ab3a, 0xade79437, 0x6112a3b7);
    var s := Window(0x93f5997f, 0x3b68ba73, 0xaff4ffc1, 0xf10a5c62, 0x0a8b3996, 0x72af830a, 0x9409e33e, 0x24641522,
                           0x9f47bf94, 0xf0a64f5a, 0x3e246a79, 0x27333ba3, 0x0c4763f2, 0x840abf27, 0x7a290d5d, 0x065c43da);
    Constants32();
    Constants36();
    hide K, W, At, Rounds;
    EightRounds(INITIAL, b, 32, v, s);
  }

  lemma Abc48(b: Block)
    requires StartsAbc(b)
    ensures Rounds(INITIAL, b, 48)
         == Vars(0x4172328d, 0xa14c14b0, 0x72ab4b91, 0x26628815, 0xfecf0bc6, 0xd57b94a9, 0xb7755da1, 0xa80f11f0)
    ensures At(b, 48, Window(0xfb3e89cb, 0xcc7617db, 0xb9e66c34, 0xa9993667, 0x84badedd, 0xc21462bc, 0x1487472c, 0xb20f7a99,
                             0xef57b9cd, 0xebe6b238, 0x9fe3095e, 0x78bc8d4b, 0xa43fcf15, 0x668b2ff8, 0xeeaba2cc, 0x12b1edeb))
  {
    hide W, At, StartsAbc, Rounds;
    Abc40(b);
    var v := Vars(0x79ea687a, 0x6dc57a8a, 0x34df1604, 0x41a65cb1, 0x1efbc0a0, 0xf0781bc8, 0xa507a53d, 0x0772a26b);
    var s := Window(0x9f47bf94, 0xf0a64f5a, 0x3e246a79, 0x27333ba3, 0x0c4763f2, 0x840abf27, 0x7a290d5d, 0x065c43da,
                           0xfb3e89cb, 0xcc7617db, 0xb9e66c34, 0xa9993667, 0x84badedd, 0xc21462bc, 0x1487472c, 0xb20f7a99);
    Constants40();
    Constants44();
    hide K, W, At, Rounds;
    EightRounds(INITIAL, b, 40, v, s);
  }

  lemma Abc56(b: Block)
    requires StartsAbc(b)
    ensures Rounds(INITIAL, b, 56)
         == Vars(0x38cc9913, 0x3ec45cdb, 0xf5702fdb, 0x101fd28f, 0x54cb266b, 0xe50e1b4f, 0x9f4787c3, 0x529e7d00)
    ensures At(b, 56, Window(0xef57b9cd, 0xebe6b238, 0x9fe3095e, 0x78bc8d4b, 0xa43fcf15, 0x668b2ff8, 0xeeaba2cc, 0x12b1edeb,
                             0xb80a5a34, 0x1ce797d5, 0x310fc1d7, 0xa31968ce, 0x7d8ce042, 0xd5892c87, 0x0ef2e48b, 0x86476aaa))
  {
    hide W, At, StartsAbc, Rounds;
    Abc48(b);
    var v := Vars(0x4172328d, 0xa14c14b0, 0x72ab4b91, 0x26628815, 0xfecf0bc6, 0xd57b94a9, 0xb7755da1, 0xa80f11f0);
    var s := Window(0xfb3e89cb, 0xcc7617db, 0xb9e66c34, 0xa9993667, 0x84badedd, 0xc21462bc, 0x1487472c, 0xb20f7a99,
                           0xef57b9cd, 0xebe6b238, 0x9fe3095e, 0x78bc8d4b, 0xa43fcf15, 0x668b2ff8, 0xeeaba2cc, 0x12b1edeb);
    Constants48();
    Constants52();
    hide K, W, At, Rounds;
    EightRounds(INITIAL, b, 48, v, s);
  }

  lemma Abc64(b: Block)
    requires StartsAbc(b)
    ensures Rounds(INITIAL, b, 64)
         == Vars(0x506e3058, 0xd39a2165, 0x04d24d6c, 0xb85e2ce9, 0x5ef50f24, 0xfb121210, 0x948d25b6, 0x961f4894)
  {
    hide W, At, StartsAbc, Rounds;
    Abc56(b);
    var v := Vars(0x38cc9913, 0x3ec45cdb, 0xf5702fdb, 0x101fd28f, 0x54cb266b, 0xe50e1b4f, 0x9f4787c3, 0x529e7d00);
    var s := Window(0xef57b9cd, 0xebe6b238, 0x9fe3095e, 0x78bc8d4b, 0xa43fcf15, 0x668b2ff8, 0xeeaba2cc, 0x12b1edeb,
                           0xb80a5a34, 0x1ce797d5, 0x310fc1d7, 0xa31968ce, 0x7d8ce042, 0xd5892c87, 0x0ef2e48b, 0x86476aaa);
    Constants56();
    Constants60();
    hide K, W, At, Rounds;
    EightRounds(INITIAL, b, 56, v, s);
  }

  lemma AbcCompressed()
    ensures HashBlocks(AbcBlock()) == Vars(0xba7816bf, 0x8f01cfea, 0x414140de, 0x5dae2223, 0xb00361a3, 0x96177a9c, 0xb410ff61, 0xf20015ad)
  {
    hide AbcBlock, Rounds, StartsAbc;
    AbcWords();
    Abc64(AbcBlock());
    HashBlocksSnoc([], AbcBlock());
    assert [] + AbcBlock() == AbcBlock();
  }

  // ---- the digest as text ----

  lemma HexConcat(a: seq<Byte>, b: seq<Byte>)
    ensures HexOf(a + b) == HexOf(a) + HexOf(b)
  {
    hide HexDigit, High, Low;
    if b == [] {
      assert a + b == a;
    } else {
      var front, last := b[..|b| - 1], b[|b| - 1];
      HexConcat(a, front);
      assert a + b == (a + front) + [last] && b == front + [last];
      HexOfSnoc(a + front, last);
      HexOfSnoc(front, last);
    }
  }

  lemma HexOfFour(w: Word, a: Byte, b: Byte, c: Byte, d: Byte)
    requires WordBytes(w) == [a, b, c, d]
    ensures HexOf(WordBytes(w)) == HexOf([a]) + HexOf([b]) + HexOf([c]) + HexOf([d])
  {
    hide HexOf;
    assert [a, b, c, d] == [a] + [b] + [c] + [d];
    HexConcat([a] + [b] + [c], [d]);
    HexConcat([a] + [b], [c]);
    HexConcat([a], [b]);
  }

  lemma HexOfByte(b: Byte, high: Byte, low: Byte)
    requires High(b) == high && Low(b) == low
    ensures HexOf([b]) == [HexDigit(high), HexDigit(low)]
  {
    hide HexDigit, High, Low, HexOf;
    HexOfSnoc([], b);
    assert [] + [b] == [b];
  }

  lemma Text0()
    ensures HexOf(WordBytes(0xba7816bf)) == "ba7816bf"
  {
    HexOfByte(0xba, 11, 10);
    HexOfByte(0x78, 7, 8);
    HexOfByte(0x16, 1, 6);
    HexOfByte(0xbf, 11, 15);
    HexOfFour(0xba7816bf, 0xba, 0x78, 0x16, 0xbf);
    hide HexOf;
  }

  lemma Text1()
    ensures HexOf(WordBytes(0x8f01cfea)) == "8f01cfea"
  {
    HexOfByte(0x8f, 8, 15);
    HexOfByte(0x01, 0, 1);
    HexOfByte(0xcf, 12, 15);
    HexOfByte(0xea, 14, 10);
    HexOfFour(0x8f01cfea, 0x8f, 0x01, 0xcf, 0xea);
    hide HexOf;
  }

  lemma Text2()
    ensures HexOf(WordBytes(0x414140de)) == "414140de"
  {
    HexOfByte(0x41, 4, 1);
    HexOfByte(0x41, 4, 1);
    HexOfByte(0x40, 4, 0);
    HexOfByte(0xde, 13, 14);
    HexOfFour(0x414140de, 0x41, 0x41, 0x40, 0xde);
    hide HexOf;
  }

  lemma Text3()
    ensures HexOf(WordBytes(0x5dae2223)) == "5dae2223"
  {
    HexOfByte(0x5d, 5, 13);
    HexOfByte(0xae, 10, 14);
    HexOfByte(0x22, 2, 2);
    HexOfByte(0x23, 2, 3);
    HexOfFour(0x5dae2223, 0x5d, 0xae, 0x22, 0x23);
    hide HexOf;
  }

  lemma Text4()
    ensures HexOf(WordBytes(0xb00361a3)) == "b00361a3"
  {
    HexOfByte(0xb0, 11, 0);
    HexOfByte(0x03, 0, 3);
    HexOfByte(0x61, 6, 1);
    HexOfByte(0xa3, 10, 3);
    HexOfFour(0xb00361a3, 0xb0, 0x03, 0x61, 0xa3);
    hide HexOf;
  }

  lemma Text5()
    ensures HexOf(WordBytes(0x96177a9c)) == "96177a9c"
  {
    HexOfByte(0x96, 9, 6);
    HexOfByte(0x17, 1, 7);
    HexOfByte(0x7a, 7, 10);
    HexOfByte(0x9c, 9, 12);
    HexOfFour(0x96177a9c, 0x96, 0x17, 0x7a, 0x9c);
    hide HexOf;
  }

  lemma Text6()
    ensures HexOf(WordBytes(0xb410ff61)) == "b410ff61"
  {
    HexOfByte(0xb4, 11, 4);
    HexOfByte(0x10, 1, 0);
    HexOfByte(0xff, 15, 15);
    HexOfByte(0x61, 6, 1);
    HexOfFour(0xb410ff61, 0xb4, 0x10, 0xff, 0x61);
    hide HexOf;
  }

  lemma Text7()
    ensures HexOf(WordBytes(0xf20015ad)) == "f20015ad"
  {
    HexOfByte(0xf2, 15, 2);
    HexOfByte(0x00, 0, 0);
    HexOfByte(0x15, 1, 5);
    HexOfByte(0xad, 10, 13);
    HexOfFour(0xf20015ad, 0xf2, 0x00, 0x15, 0xad);
    hide HexOf;
  }

  function TextOf(ws: seq<Word>): string {
    HexOf(WordsBytes(ws))
  }

  lemma WordsConcat(a: seq<Word>, b: seq<Word>)
    ensures WordsBytes(a + b) == WordsBytes(a) + WordsBytes(b)
  {
    hide WordBytes;
    if b == [] {
      assert a + b == a;
    } else {
      WordsConcat(a, b[..|b| - 1]);
      assert (a + b)[..|a + b| - 1] == a + b[..|b| - 1];
    }
  }

  lemma TextConcat(a: seq<Word>, b: seq<Word>)
    ensures TextOf(a + b) == TextOf(a) + TextOf(b)
  {
    hide HexOf, WordsBytes;
    WordsConcat(a, b);
    HexConcat(WordsBytes(a), WordsBytes(b));
  }

  lemma TextOfOne(w: Word)
    ensures TextOf([w]) == HexOf(WordBytes(w))
  {
    hide HexOf, WordBytes;
    assert WordsBytes([]) == [] && [w][..0] == [];
    assert [] + WordBytes(w) == WordBytes(w);
  }

  lemma DigestText(v: Vars)
    ensures HexOf(Digest(v)) == TextOf([v.a]) + TextOf([v.b]) + TextOf([v.c]) + TextOf([v.d])
                              + (TextOf([v.e]) + TextOf([v.f]) + TextOf([v.g]) + TextOf([v.h]))
  {
    assert HexOf(Digest(v)) == TextOf([v.a, v.b, v.c, v.d, v.e, v.f, v.g, v.h]);
    assert [v.a, v.b, v.c, v.d, v.e, v.f, v.g, v.h] == [v.a, v.b, v.c, v.d] + [v.e, v.f, v.g, v.h];
    hide TextOf, HexOf, Digest;
    TextConcat([v.a, v.b, v.c, v.d], [v.e, v.f, v.g, v.h]);
    FourTexts(v.a, v.b, v.c, v.d);
    FourTexts(v.e, v.f, v.g, v.h);
  }

  lemma FourTexts(a: Word, b: Word, c: Word, d: Word)
    ensures TextOf([a, b, c, d]) == TextOf([a]) + TextOf([b]) + TextOf([c]) + TextOf([d])
  {
    hide TextOf;
    assert [a, b, c, d] == [a] + [b] + [c] + [d];
    TextConcat([a] + [b] + [c], [d]);
    TextConcat([a] + [b], [c]);
    TextConcat([a], [b]);
  }

  /** The digest of "abc", eight characters a word. */
  lemma AbcDigest()
    ensures HexOf(Sha256(ABC)) == "ba7816bf" + "8f01cfea" + "414140de" + "5dae2223"
                                + ("b00361a3" + "96177a9c" + "b410ff61" + "f20015ad")
  {
    hide AbcBlock, HashBlocks, HexOf, WordBytes, Digest, TextOf;
    AbcIsPadded();
    AbcCompressed();
    DigestText(Vars(0xba7816bf, 0x8f01cfea, 0x414140de, 0x5dae2223, 0xb00361a3, 0x96177a9c, 0xb410ff61, 0xf20015ad));
    AbcTexts();
  }

  lemma AbcTexts()
    ensures TextOf([0xba7816bf]) == "ba7816bf"
    ensures TextOf([0x8f01cfea]) == "8f01cfea"
    ensures TextOf([0x414140de]) == "414140de"
    ensures TextOf([0x5dae2223]) == "5dae2223"
    ensures TextOf([0xb00361a3]) == "b00361a3"
    ensures TextOf([0x96177a9c]) == "96177a9c"
    ensures TextOf([0xb410ff61]) == "b410ff61"
    ensures TextOf([0xf20015ad]) == "f20015ad"
  {
    hide HexOf, WordBytes, TextOf;
    Text0();
    TextOfOne(0xba7816bf);
    Text1();
    TextOfOne(0x8f01cfea);
    Text2();
    TextOfOne(0x414140de);
    Text3();
    TextOfOne(0x5dae2223);
    Text4();
    TextOfOne(0xb00361a3);
    Text5();
    TextOfOne(0x96177a9c);
    Text6();
    TextOfOne(0xb410ff61);
    Text7();
    TextOfOne(0xf20015ad);
  }
}
