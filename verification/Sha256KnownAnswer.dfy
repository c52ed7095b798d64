/** The message of three letters in the examples of FIPS 180-4: its schedule, its rounds and its digest. */
module Sha256KnownAnswer {
  import opened Sha256Spec

  /** "abc" in ASCII. */
  const ABC: seq<Byte> := [0x61, 0x62, 0x63]

  const ABC_BLOCK: Block :=
    [0x61, 0x62, 0x63, 0x80, 0, 0, 0, 0] + [0, 0, 0, 0, 0, 0, 0, 0] +
    [0, 0, 0, 0, 0, 0, 0, 0] + [0, 0, 0, 0, 0, 0, 0, 0] +
    [0, 0, 0, 0, 0, 0, 0, 0] + [0, 0, 0, 0, 0, 0, 0, 0] +
    [0, 0, 0, 0, 0, 0, 0, 0] + [0, 0, 0, 0, 0, 0, 0, 24]

  lemma LengthOfAbc()
    ensures Length64(24) == [0, 0, 0, 0, 0, 0, 0, 24]
  {
    hide LengthByte;
    NoHighByte(1);
    NoHighByte(2);
    NoHighByte(3);
    NoHighByte(4);
    NoHighByte(5);
    NoHighByte(6);
    NoHighByte(7);
    LowByte();
  }

  lemma LowByte()
    ensures LengthByte(24, 0) == 24
  {
  }

  lemma NoHighByte(j: nat)
    requires 1 <= j
    ensures LengthByte(24, j) == 0
  {
    PowerIsLarge(j);
    hide Power256;
    SmallerDividesToZero(24, Power256(j));
  }

  lemma SmallerDividesToZero(a: nat, b: nat)
    requires a < b
    ensures a / b == 0
  {
  }

  lemma {:induction false} PowerIsLarge(j: nat)
    requires 1 <= j
    ensures 256 <= Power256(j)
  {
    if 1 < j {
      PowerIsLarge(j - 1);
    }
  }

  lemma PaddedAbc()
    ensures Padded(ABC) == ABC_BLOCK
  {
    LengthOfAbc();
    assert PadZeros(3) == 52;
  }

  // ---------------------------------------------------------------------------------------
  // The schedule
  // ---------------------------------------------------------------------------------------

  /** Word `t` of the schedule. */
  predicate Scheduled(t: nat, w: Word) {
    t < 64 && W(ABC_BLOCK, t) == w
  }

  lemma ZeroWord()
    ensures BigEndian(0, 0, 0, 0) == 0 && BigEndian(0, 0, 0, 24) == 24
    ensures BigEndian(0x61, 0x62, 0x63, 0x80) == 0x61626380
  {
  }

  lemma FirstWords()
    ensures Scheduled(0, 0x61626380) && Scheduled(15, 24)
    ensures forall t: nat | 1 <= t < 15 :: Scheduled(t, 0)
  {
    ZeroWord();
    hide BigEndian;
    assert W(ABC_BLOCK, 0) == 0x61626380 && W(ABC_BLOCK, 15) == 24;
    forall t: nat | 1 <= t < 15 ensures Scheduled(t, 0) {
      ZeroBytesThere(t);
    }
  }

  lemma ZeroBytesThere(t: nat)
    requires 1 <= t < 15
    ensures ABC_BLOCK[4 * t] == ABC_BLOCK[4 * t + 1] == ABC_BLOCK[4 * t + 2] == ABC_BLOCK[4 * t + 3] == 0
  {
    assert forall i | 4 <= i < 60 :: ABC_BLOCK[i] == 0;
  }

  lemma NextWord(t: nat, w2: Word, w7: Word, w15: Word, w16: Word, w: Word)
    requires 16 <= t < 64 && Scheduled(t - 2, w2) && Scheduled(t - 7, w7) && Scheduled(t - 15, w15)
    requires Scheduled(t - 16, w16) && Sum4(SmallSigma1(w2), w7, SmallSigma0(w15), w16) == w
    ensures Scheduled(t, w)
  {
    hide Sum4, SmallSigma0, SmallSigma1;
  }

  lemma Words16()
    ensures Scheduled(16, 0x61626380) && Scheduled(17, 0x000f0000)
    ensures Scheduled(18, 0x7da86405) && Scheduled(19, 0x600003c6)
    ensures Scheduled(20, 0x3e9d7b78) && Scheduled(21, 0x0183fc00)
    ensures Scheduled(22, 0x12dcbfdb) && Scheduled(23, 0xe2e2c38e)
  {
    hide Scheduled;
    FirstWords();
    NextWord(16, 0x00000000, 0x00000000, 0x00000000, 0x61626380, 0x61626380);
    NextWord(17, 0x00000018, 0x00000000, 0x00000000, 0x00000000, 0x000f0000);
    NextWord(18, 0x61626380, 0x00000000, 0x00000000, 0x00000000, 0x7da86405);
    NextWord(19, 0x000f0000, 0x00000000, 0x00000000, 0x00000000, 0x600003c6);
    NextWord(20, 0x7da86405, 0x00000000, 0x00000000, 0x00000000, 0x3e9d7b78);
    NextWord(21, 0x600003c6, 0x00000000, 0x00000000, 0x00000000, 0x0183fc00);
    NextWord(22, 0x3e9d7b78, 0x00000018, 0x00000000, 0x00000000, 0x12dcbfdb);
    NextWord(23, 0x0183fc00, 0x61626380, 0x00000000, 0x00000000, 0xe2e2c38e);
  }

  lemma Words24()
    ensures Scheduled(24, 0xc8215c1a) && Scheduled(25, 0xb73679a2)
    ensures Scheduled(26, 0xe5bc3909) && Scheduled(27, 0x32663c5b)
    ensures Scheduled(28, 0x9d209d67) && Scheduled(29, 0xec8726cb)
    ensures Scheduled(30, 0x702138a4) && Scheduled(31, 0xd3b7973b)
  {
    hide Scheduled;
    FirstWords();
    Words16();
    NextWord(24, 0x12dcbfdb, 0x000f0000, 0x00000000, 0x00000000, 0xc8215c1a);
    NextWord(25, 0xe2e2c38e, 0x7da86405, 0x00000000, 0x00000000, 0xb73679a2);
    NextWord(26, 0xc8215c1a, 0x600003c6, 0x00000000, 0x00000000, 0xe5bc3909);
    NextWord(27, 0xb73679a2, 0x3e9d7b78, 0x00000000, 0x00000000, 0x32663c5b);
    NextWord(28, 0xe5bc3909, 0x0183fc00, 0x00000000, 0x00000000, 0x9d209d67);
    NextWord(29, 0x32663c5b, 0x12dcbfdb, 0x00000000, 0x00000000, 0xec8726cb);
    NextWord(30, 0x9d209d67, 0xe2e2c38e, 0x00000018, 0x00000000, 0x702138a4);
    NextWord(31, 0xec8726cb, 0xc8215c1a, 0x61626380, 0x00000018, 0xd3b7973b);
  }

  lemma Words32()
    ensures Scheduled(32, 0x93f5997f) && Scheduled(33, 0x3b68ba73)
    ensures Scheduled(34, 0xaff4ffc1) && Scheduled(35, 0xf10a5c62)
    ensures Scheduled(36, 0x0a8b3996) && Scheduled(37, 0x72af830a)
    ensures Scheduled(38, 0x9409e33e) && Scheduled(39, 0x24641522)
  {
    hide Scheduled;
    Words16();
    Words24();
    NextWord(32, 0x702138a4, 0xb73679a2, 0x000f0000, 0x61626380, 0x93f5997f);
    NextWord(33, 0xd3b7973b, 0xe5bc3909, 0x7da86405, 0x000f0000, 0x3b68ba73);
    NextWord(34, 0x93f5997f, 0x32663c5b, 0x600003c6, 0x7da86405, 0xaff4ffc1);
    NextWord(35, 0x3b68ba73, 0x9d209d67, 0x3e9d7b78, 0x600003c6, 0xf10a5c62);
    NextWord(36, 0xaff4ffc1, 0xec8726cb, 0x0183fc00, 0x3e9d7b78, 0x0a8b3996);
    NextWord(37, 0xf10a5c62, 0x702138a4, 0x12dcbfdb, 0x0183fc00, 0x72af830a);
    NextWord(38, 0x0a8b3996, 0xd3b7973b, 0xe2e2c38e, 0x12dcbfdb, 0x9409e33e);
    NextWord(39, 0x72af830a, 0x93f5997f, 0xc8215c1a, 0xe2e2c38e, 0x24641522);
  }

  lemma Words40()
    ensures Scheduled(40, 0x9f47bf94) && Scheduled(41, 0xf0a64f5a)
    ensures Scheduled(42, 0x3e246a79) && Scheduled(43, 0x27333ba3)
    ensures Scheduled(44, 0x0c4763f2) && Scheduled(45, 0x840abf27)
    ensures Scheduled(46, 0x7a290d5d) && Scheduled(47, 0x065c43da)
  {
    hide Scheduled;
    Words24();
    Words32();
    NextWord(40, 0x9409e33e, 0x3b68ba73, 0xb73679a2, 0xc8215c1a, 0x9f47bf94);
    NextWord(41, 0x24641522, 0xaff4ffc1, 0xe5bc3909, 0xb73679a2, 0xf0a64f5a);
    NextWord(42, 0x9f47bf94, 0xf10a5c62, 0x32663c5b, 0xe5bc3909, 0x3e246a79);
    NextWord(43, 0xf0a64f5a, 0x0a8b3996, 0x9d209d67, 0x32663c5b, 0x27333ba3);
    NextWord(44, 0x3e246a79, 0x72af830a, 0xec8726cb, 0x9d209d67, 0x0c4763f2);
    NextWord(45, 0x27333ba3, 0x9409e33e, 0x702138a4, 0xec8726cb, 0x840abf27);
    NextWord(46, 0x0c4763f2, 0x24641522, 0xd3b7973b, 0x702138a4, 0x7a290d5d);
    NextWord(47, 0x840abf27, 0x9f47bf94, 0x93f5997f, 0xd3b7973b, 0x065c43da);
  }

  lemma Words48()
    ensures Scheduled(48, 0xfb3e89cb) && Scheduled(49, 0xcc7617db)
    ensures Scheduled(50, 0xb9e66c34) && Scheduled(51, 0xa9993667)
    ensures Scheduled(52, 0x84badedd) && Scheduled(53, 0xc21462bc)
    ensures Scheduled(54, 0x1487472c) && Scheduled(55, 0xb20f7a99)
  {
    hide Scheduled;
    Words32();
    Words40();
    NextWord(48, 0x7a290d5d, 0xf0a64f5a, 0x3b68ba73, 0x93f5997f, 0xfb3e89cb);
    NextWord(49, 0x065c43da, 0x3e246a79, 0xaff4ffc1, 0x3b68ba73, 0xcc7617db);
    NextWord(50, 0xfb3e89cb, 0x27333ba3, 0xf10a5c62, 0xaff4ffc1, 0xb9e66c34);
    NextWord(51, 0xcc7617db, 0x0c4763f2, 0x0a8b3996, 0xf10a5c62, 0xa9993667);
    NextWord(52, 0xb9e66c34, 0x840abf27, 0x72af830a, 0x0a8b3996, 0x84badedd);
    NextWord(53, 0xa9993667, 0x7a290d5d, 0x9409e33e, 0x72af830a, 0xc21462bc);
    NextWord(54, 0x84badedd, 0x065c43da, 0x24641522, 0x9409e33e, 0x1487472c);
    NextWord(55, 0xc21462bc, 0xfb3e89cb, 0x9f47bf94, 0x24641522, 0xb20f7a99);
  }

  lemma Words56()
    ensures Scheduled(56, 0xef57b9cd) && Scheduled(57, 0xebe6b238)
    ensures Scheduled(58, 0x9fe3095e) && Scheduled(59, 0x78bc8d4b)
    ensures Scheduled(60, 0xa43fcf15) && Scheduled(61, 0x668b2ff8)
    ensures Scheduled(62, 0xeeaba2cc) && Scheduled(63, 0x12b1edeb)
  {
    hide Scheduled;
    Words40();
    Words48();
    NextWord(56, 0x1487472c, 0xcc7617db, 0xf0a64f5a, 0x9f47bf94, 0xef57b9cd);
    NextWord(57, 0xb20f7a99, 0xb9e66c34, 0x3e246a79, 0xf0a64f5a, 0xebe6b238);
    NextWord(58, 0xef57b9cd, 0xa9993667, 0x27333ba3, 0x3e246a79, 0x9fe3095e);
    NextWord(59, 0xebe6b238, 0x84badedd, 0x0c4763f2, 0x27333ba3, 0x78bc8d4b);
    NextWord(60, 0x9fe3095e, 0xc21462bc, 0x840abf27, 0x0c4763f2, 0xa43fcf15);
    NextWord(61, 0x78bc8d4b, 0x1487472c, 0x7a290d5d, 0x840abf27, 0x668b2ff8);
    NextWord(62, 0xa43fcf15, 0xb20f7a99, 0x065c43da, 0x7a290d5d, 0xeeaba2cc);
    NextWord(63, 0x668b2ff8, 0xef57b9cd, 0xfb3e89cb, 0x065c43da, 0x12b1edeb);
  }

  // ---------------------------------------------------------------------------------------
  // The rounds
  // ---------------------------------------------------------------------------------------

  /** The registers after `t` rounds. */
  predicate After(t: nat, r: Registers) {
    t <= 64 && Rounds(Loaded(H0), ABC_BLOCK, t) == r
  }

  /** Round constant `t`. */
  predicate Constant(t: nat, k: Word) {
    t < 64 && K[t] == k
  }

  lemma NextRound(t: nat, r: Registers, k: Word, w: Word, a: Word, e: Word) returns (next: Registers)
    requires t < 64 && After(t, r) && Scheduled(t, w) && Constant(t, k)
    requires Round(r, k, w) == Registers(a, r.a, r.b, r.c, e, r.e, r.f, r.g)
    ensures next == Registers(a, r.a, r.b, r.c, e, r.e, r.f, r.g) && After(t + 1, next)
  {
    next := Round(r, k, w);
    hide Round, W;
  }

  lemma NoRounds()
    ensures After(0, Registers(0x6a09e667, 0xbb67ae85, 0x3c6ef372, 0xa54ff53a,
                               0x510e527f, 0x9b05688c, 0x1f83d9ab, 0x5be0cd19))
  {
  }

  lemma Constants0()
    ensures Constant(0, 0x428a2f98) && Constant(1, 0x71374491) && Constant(2, 0xb5c0fbcf) && Constant(3, 0xe9b5dba5)
    ensures Constant(4, 0x3956c25b) && Constant(5, 0x59f111f1) && Constant(6, 0x923f82a4) && Constant(7, 0xab1c5ed5)
  {
  }

  lemma Rounds8()
    ensures After(8, Registers(0x85a07b5f, 0xe5030380, 0x2b4209f5, 0x04409a6a,
                               0x0c657a79, 0x9b27a401, 0x714260ad, 0x43ada245))
  {
    hide After, Scheduled, Constant;
    Constants0();
    NoRounds();
    FirstWords();
    var r0 := Registers(0x6a09e667, 0xbb67ae85, 0x3c6ef372, 0xa54ff53a,
                        0x510e527f, 0x9b05688c, 0x1f83d9ab, 0x5be0cd19);
    var r1 := NextRound(0, r0, 0x428a2f98, 0x61626380, 0x5d6aebcd, 0xfa2a4622);
    var r2 := NextRound(1, r1, 0x71374491, 0x00000000, 0x5a6ad9ad, 0x78ce7989);
    var r3 := NextRound(2, r2, 0xb5c0fbcf, 0x00000000, 0xc8c347a7, 0xf92939eb);
    var r4 := NextRound(3, r3, 0xe9b5dba5, 0x00000000, 0xd550f666, 0x24e00850);
    var r5 := NextRound(4, r4, 0x3956c25b, 0x00000000, 0x04409a6a, 0x43ada245);
    var r6 := NextRound(5, r5, 0x59f111f1, 0x00000000, 0x2b4209f5, 0x714260ad);
    var r7 := NextRound(6, r6, 0x923f82a4, 0x00000000, 0xe5030380, 0x9b27a401);
    var r8 := NextRound(7, r7, 0xab1c5ed5, 0x00000000, 0x85a07b5f, 0x0c657a79);
  }

  lemma Constants8()
    ensures Constant(8, 0xd807aa98) && Constant(9, 0x12835b01) && Constant(10, 0x243185be) && Constant(11, 0x550c7dc3)
    ensures Constant(12, 0x72be5d74) && Constant(13, 0x80deb1fe) && Constant(14, 0x9bdc06a7) && Constant(15, 0xc19bf174)
  {
  }

  lemma Rounds16()
    ensures After(16, Registers(0xb0fa238e, 0xc0645fde, 0xd932eb16, 0x87912990,
                                0x07590dcd, 0x0b92f20c, 0x745a48de, 0x1e578218))
  {
    hide After, Scheduled, Constant;
    Constants8();
    Rounds8();
    FirstWords();
    var r8 := Registers(0x85a07b5f, 0xe5030380, 0x2b4209f5, 0x04409a6a,
                        0x0c657a79, 0x9b27a401, 0x714260ad, 0x43ada245);
    var r9 := NextRound(8, r8, 0xd807aa98, 0x00000000, 0x8e04ecb9, 0x32ca2d8c);
    var r10 := NextRound(9, r9, 0x12835b01, 0x00000000, 0x8c87346b, 0x1cc92596);
    var r11 := NextRound(10, r10, 0x243185be, 0x00000000, 0x4798a3f4, 0x436b23e8);
    var r12 := NextRound(11, r11, 0x550c7dc3, 0x00000000, 0xf71fc5a9, 0x816fd6e9);
    var r13 := NextRound(12, r12, 0x72be5d74, 0x00000000, 0x87912990, 0x1e578218);
    var r14 := NextRound(13, r13, 0x80deb1fe, 0x00000000, 0xd932eb16, 0x745a48de);
    var r15 := NextRound(14, r14, 0x9bdc06a7, 0x00000000, 0xc0645fde, 0x0b92f20c);
    var r16 := NextRound(15, r15, 0xc19bf174, 0x00000018, 0xb0fa238e, 0x07590dcd);
  }

  lemma Constants16()
    ensures Constant(16, 0xe49b69c1) && Constant(17, 0xefbe4786) && Constant(18, 0x0fc19dc6) && Constant(19, 0x240ca1cc)
    ensures Constant(20, 0x2de92c6f) && Constant(21, 0x4a7484aa) && Constant(22, 0x5cb0a9dc) && Constant(23, 0x76f988da)
  {
  }

  lemma Rounds24()
    ensures After(24, Registers(0xc5d53d8d, 0xa7a3623f, 0xc2606d6d, 0x9dc68b63,
                                0xaa47c347, 0x49f5114a, 0xe1257970, 0x8ada8930))
  {
    hide After, Scheduled, Constant;
    Constants16();
    Rounds16();
    Words16();
    var r16 := Registers(0xb0fa238e, 0xc0645fde, 0xd932eb16, 0x87912990,
                         0x07590dcd, 0x0b92f20c, 0x745a48de, 0x1e578218);
    var r17 := NextRound(16, r16, 0xe49b69c1, 0x61626380, 0x21da9a9b, 0x8034229c);
    var r18 := NextRound(17, r17, 0xefbe4786, 0x000f0000, 0xc2fbd9d1, 0x846ee454);
    var r19 := NextRound(18, r18, 0x0fc19dc6, 0x7da86405, 0xfe777bbf, 0xcc899961);
    var r20 := NextRound(19, r19, 0x240ca1cc, 0x600003c6, 0xe1f20c33, 0xb0638179);
    var r21 := NextRound(20, r20, 0x2de92c6f, 0x3e9d7b78, 0x9dc68b63, 0x8ada8930);
    var r22 := NextRound(21, r21, 0x4a7484aa, 0x0183fc00, 0xc2606d6d, 0xe1257970);
    var r23 := NextRound(22, r22, 0x5cb0a9dc, 0x12dcbfdb, 0xa7a3623f, 0x49f5114a);
    var r24 := NextRound(23, r23, 0x76f988da, 0xe2e2c38e, 0xc5d53d8d, 0xaa47c347);
  }

  lemma Constants24()
    ensures Constant(24, 0x983e5152) && Constant(25, 0xa831c66d) && Constant(26, 0xb00327c8) && Constant(27, 0xbf597fc7)
    ensures Constant(28, 0xc6e00bf3) && Constant(29, 0xd5a79147) && Constant(30, 0x06ca6351) && Constant(31, 0x14292967)
  {
  }

  lemma Rounds32()
    ensures After(32, Registers(0x73b33bf5, 0xea992a22, 0xa0060b30, 0x363482c9,
                                0xba591112, 0x0109ab3a, 0xade79437, 0x6112a3b7))
  {
    hide After, Scheduled, Constant;
    Constants24();
    Rounds24();
    Words24();
    var r24 := Registers(0xc5d53d8d, 0xa7a3623f, 0xc2606d6d, 0x9dc68b63,
                         0xaa47c347, 0x49f5114a, 0xe1257970, 0x8ada8930);
    var r25 := NextRound(24, r24, 0x983e5152, 0xc8215c1a, 0x1c2c2838, 0x2823ef91);
    var r26 := NextRound(25, r25, 0xa831c66d, 0xb73679a2, 0xcde8037d, 0x14383d8e);
    var r27 := NextRound(26, r26, 0xb00327c8, 0xe5bc3909, 0xb62ec4bc, 0xc74c6516);
    var r28 := NextRound(27, r27, 0xbf597fc7, 0x32663c5b, 0x77d37528, 0xedffbff8);
    var r29 := NextRound(28, r28, 0xc6e00bf3, 0x9d209d67, 0x363482c9, 0x6112a3b7);
    var r30 := NextRound(29, r29, 0xd5a79147, 0xec8726cb, 0xa0060b30, 0xade79437);
    var r31 := NextRound(30, r30, 0x06ca6351, 0x702138a4, 0xea992a22, 0x0109ab3a);
    var r32 := NextRound(31, r31, 0x14292967, 0xd3b7973b, 0x73b33bf5, 0xba591112);
  }

  lemma Constants32()
    ensures Constant(32, 0x27b70a85) && Constant(33, 0x2e1b2138) && Constant(34, 0x4d2c6dfc) && Constant(35, 0x53380d13)
    ensures Constant(36, 0x650a7354) && Constant(37, 0x766a0abb) && Constant(38, 0x81c2c92e) && Constant(39, 0x92722c85)
  {
  }

  lemma Rounds40()
    ensures After(40, Registers(0x79ea687a, 0x6dc57a8a, 0x34df1604, 0x41a65cb1,
                                0x1efbc0a0, 0xf0781bc8, 0xa507a53d, 0x0772a26b))
  {
    hide After, Scheduled, Constant;
    Constants32();
    Rounds32();
    Words32();
    var r32 := Registers(0x73b33bf5, 0xea992a22, 0xa0060b30, 0x363482c9,
                         0xba591112, 0x0109ab3a, 0xade79437, 0x6112a3b7);
    var r33 := NextRound(32, r32, 0x27b70a85, 0x93f5997f, 0x98e12507, 0x9cd9f5f6);
    var r34 := NextRound(33, r33, 0x2e1b2138, 0x3b68ba73, 0xfe604df5, 0x59249dd3);
    var r35 := NextRound(34, r34, 0x4d2c6dfc, 0xaff4ffc1, 0xa9a7738c, 0x085f3833);
    var r36 := NextRound(35, r35, 0x53380d13, 0xf10a5c62, 0x65a0cfe4, 0xf4b002d6);
    var r37 := NextRound(36, r36, 0x650a7354, 0x0a8b3996, 0x41a65cb1, 0x0772a26b);
    var r38 := NextRound(37, r37, 0x766a0abb, 0x72af830a, 0x34df1604, 0xa507a53d);
    var r39 := NextRound(38, r38, 0x81c2c92e, 0x9409e33e, 0x6dc57a8a, 0xf0781bc8);
    var r40 := NextRound(39, r39, 0x92722c85, 0x24641522, 0x79ea687a, 0x1efbc0a0);
  }

  lemma Constants40()
    ensures Constant(40, 0xa2bfe8a1) && Constant(41, 0xa81a664b) && Constant(42, 0xc24b8b70) && Constant(43, 0xc76c51a3)
    ensures Constant(44, 0xd192e819) && Constant(45, 0xd6990624) && Constant(46, 0xf40e3585) && Constant(47, 0x106aa070)
  {
  }

  lemma Rounds48()
    ensures After(48, Registers(0x4172328d, 0xa14c14b0, 0x72ab4b91, 0x26628815,
                                0xfecf0bc6, 0xd57b94a9, 0xb7755da1, 0xa80f11f0))
  {
    hide After, Scheduled, Constant;
    Constants40();
    Rounds40();
    Words40();
    var r40 := Registers(0x79ea687a, 0x6dc57a8a, 0x34df1604, 0x41a65cb1,
                         0x1efbc0a0, 0xf0781bc8, 0xa507a53d, 0x0772a26b);
    var r41 := NextRound(40, r40, 0xa2bfe8a1, 0x9f47bf94, 0xd6670766, 0x26352d63);
    var r42 := NextRound(41, r41, 0xa81a664b, 0xf0a64f5a, 0xdf46652f, 0x838b2711);
    var r43 := NextRound(42, r42, 0xc24b8b70, 0x3e246a79, 0x17aa0dfe, 0xdecd4715);
    var r44 := NextRound(43, r43, 0xc76c51a3, 0x27333ba3, 0x9d4baf93, 0xfda24c2e);
    var r45 := NextRound(44, r44, 0xd192e819, 0x0c4763f2, 0x26628815, 0xa80f11f0);
    var r46 := NextRound(45, r45, 0xd6990624, 0x840abf27, 0x72ab4b91, 0xb7755da1);
    var r47 := NextRound(46, r46, 0xf40e3585, 0x7a290d5d, 0xa14c14b0, 0xd57b94a9);
    var r48 := NextRound(47, r47, 0x106aa070, 0x065c43da, 0x4172328d, 0xfecf0bc6);
  }

  lemma Constants48()
    ensures Constant(48, 0x19a4c116) && Constant(49, 0x1e376c08) && Constant(50, 0x2748774c) && Constant(51, 0x34b0bcb5)
    ensures Constant(52, 0x391c0cb3) && Constant(53, 0x4ed8aa4a) && Constant(54, 0x5b9cca4f) && Constant(55, 0x682e6ff3)
  {
  }

  lemma Rounds56()
    ensures After(56, Registers(0x38cc9913, 0x3ec45cdb, 0xf5702fdb, 0x101fd28f,
                                0x54cb266b, 0xe50e1b4f, 0x9f4787c3, 0x529e7d00))
  {
    hide After, Scheduled, Constant;
    Constants48();
    Rounds48();
    Words48();
    var r48 := Registers(0x4172328d, 0xa14c14b0, 0x72ab4b91, 0x26628815,
                         0xfecf0bc6, 0xd57b94a9, 0xb7755da1, 0xa80f11f0);
    var r49 := NextRound(48, r48, 0x19a4c116, 0xfb3e89cb, 0x05757ceb, 0xbd714038);
    var r50 := NextRound(49, r49, 0x1e376c08, 0xcc7617db, 0xf11bfaa8, 0x6e5c390c);
    var r51 := NextRound(50, r50, 0x2748774c, 0xb9e66c34, 0x7a0508a1, 0x52f1ccf7);
    var r52 := NextRound(51, r51, 0x34b0bcb5, 0xa9993667, 0x886e7a22, 0x49231c1e);
    var r53 := NextRound(52, r52, 0x391c0cb3, 0x84badedd, 0x101fd28f, 0x529e7d00);
    var r54 := NextRound(53, r53, 0x4ed8aa4a, 0xc21462bc, 0xf5702fdb, 0x9f4787c3);
    var r55 := NextRound(54, r54, 0x5b9cca4f, 0x1487472c, 0x3ec45cdb, 0xe50e1b4f);
    var r56 := NextRound(55, r55, 0x682e6ff3, 0xb20f7a99, 0x38cc9913, 0x54cb266b);
  }

  lemma Constants56()
    ensures Constant(56, 0x748f82ee) && Constant(57, 0x78a5636f) && Constant(58, 0x84c87814) && Constant(59, 0x8cc70208)
    ensures Constant(60, 0x90befffa) && Constant(61, 0xa4506ceb) && Constant(62, 0xbef9a3f7) && Constant(63, 0xc67178f2)
  {
  }

  lemma Rounds64()
    ensures After(64, Registers(0x506e3058, 0xd39a2165, 0x04d24d6c, 0xb85e2ce9,
                                0x5ef50f24, 0xfb121210, 0x948d25b6, 0x961f4894))
  {
    hide After, Scheduled, Constant;
    Constants56();
    Rounds56();
    Words56();
    var r56 := Registers(0x38cc9913, 0x3ec45cdb, 0xf5702fdb, 0x101fd28f,
                         0x54cb266b, 0xe50e1b4f, 0x9f4787c3, 0x529e7d00);
    var r57 := NextRound(56, r56, 0x748f82ee, 0xef57b9cd, 0xfcd1887b, 0x9b5e906c);
    var r58 := NextRound(57, r57, 0x78a5636f, 0xebe6b238, 0xc062d46f, 0x7e44008e);
    var r59 := NextRound(58, r58, 0x84c87814, 0x9fe3095e, 0xffb70472, 0x6d83bfc6);
    var r60 := NextRound(59, r59, 0x8cc70208, 0x78bc8d4b, 0xb6ae8fff, 0xb21bad3d);
    var r61 := NextRound(60, r60, 0x90befffa, 0xa43fcf15, 0xb85e2ce9, 0x961f4894);
    var r62 := NextRound(61, r61, 0xa4506ceb, 0x668b2ff8, 0x04d24d6c, 0x948d25b6);
    var r63 := NextRound(62, r62, 0xbef9a3f7, 0xeeaba2cc, 0xd39a2165, 0xfb121210);
    var r64 := NextRound(63, r63, 0xc67178f2, 0x12b1edeb, 0x506e3058, 0x5ef50f24);
  }

  // ---------------------------------------------------------------------------------------
  // The digest
  // ---------------------------------------------------------------------------------------

  lemma HashOfAbc()
    ensures Sha256(ABC) ==
            [0xba7816bf, 0x8f01cfea, 0x414140de, 0x5dae2223,
             0xb00361a3, 0x96177a9c, 0xb410ff61, 0xf20015ad]
  {
    PaddedAbc();
    Rounds64();
    hide Rounds, Padded;
    assert ABC_BLOCK[..0] == [] && ABC_BLOCK[0..] == ABC_BLOCK;
    assert FoldBlocks(H0, []) == H0;
  }

  /** The four bytes of a word, the first of them the most significant. */
  lemma BytesOfWord(h: Hash, j: nat)
    requires j < 8
    ensures HashByte(h, 4 * j) == (h[j] >> 24) as Byte
    ensures HashByte(h, 4 * j + 1) == ((h[j] >> 16) & 0xff) as Byte
    ensures HashByte(h, 4 * j + 2) == ((h[j] >> 8) & 0xff) as Byte
    ensures HashByte(h, 4 * j + 3) == (h[j] & 0xff) as Byte
  {
  }

  lemma HexOfOne(d: seq<Byte>, b: Byte)
    ensures Hex(d + [b]) == Hex(d) + HexByte(b)
  {
    hide HexByte;
    assert (d + [b])[..|d|] == d;
  }

  lemma HexOfFour(d: seq<Byte>, a: Byte, b: Byte, c: Byte, e: Byte)
    ensures Hex(d + [a, b, c, e]) == Hex(d) + (HexByte(a) + HexByte(b) + HexByte(c) + HexByte(e))
  {
    hide HexByte, Hex;
    HexOfOne(d, a);
    HexOfOne(d + [a], b);
    HexOfOne(d + [a] + [b], c);
    HexOfOne(d + [a] + [b] + [c], e);
    assert d + [a, b, c, e] == d + [a] + [b] + [c] + [e];
  }

  lemma FourBytes(h: Hash, j: nat, a: Byte, b: Byte, c: Byte, e: Byte)
    requires j < 8 && h[j] == BigEndian(a, b, c, e)
    ensures HashByte(h, 4 * j) == a && HashByte(h, 4 * j + 1) == b
    ensures HashByte(h, 4 * j + 2) == c && HashByte(h, 4 * j + 3) == e
  {
    BytesOfWord(h, j);
    BytesBack(a, b, c, e);
    hide HashByte, BigEndian;
  }

  lemma DigestGrows(h: Hash, j: nat)
    requires j < 8
    ensures Digest(h)[..4 * j + 4] ==
            Digest(h)[..4 * j] +
            [HashByte(h, 4 * j), HashByte(h, 4 * j + 1), HashByte(h, 4 * j + 2), HashByte(h, 4 * j + 3)]
  {
    hide HashByte;
    var d, i := Digest(h), 4 * j;
    assert d[..i + 4] == d[..i] + [d[i], d[i + 1], d[i + 2], d[i + 3]];
  }

  /** A word more of the digest is eight digits more of its text. */
  lemma NextText(h: Hash, j: nat, a: Byte, b: Byte, c: Byte, e: Byte, text: string, digits: string)
    requires j < 8 && Hex(Digest(h)[..4 * j]) == text
    requires h[j] == BigEndian(a, b, c, e) && HexByte(a) + HexByte(b) + HexByte(c) + HexByte(e) == digits
    ensures Hex(Digest(h)[..4 * j + 4]) == text + digits
  {
    hide HashByte, BigEndian, HexByte, Hex, Digest;
    FourBytes(h, j, a, b, c, e);
    DigestGrows(h, j);
    HexOfFour(Digest(h)[..4 * j], a, b, c, e);
  }

  lemma BytesBack(a: Byte, b: Byte, c: Byte, e: Byte)
    ensures var w := BigEndian(a, b, c, e);
            && (w >> 24) as Byte == a && ((w >> 16) & 0xff) as Byte == b
            && ((w >> 8) & 0xff) as Byte == c && (w & 0xff) as Byte == e
  {
  }

  lemma Digits0()
    ensures BigEndian(0xba, 0x78, 0x16, 0xbf) == 0xba7816bf
    ensures HexByte(0xba) + HexByte(0x78) + HexByte(0x16) + HexByte(0xbf) == "ba7816bf"
  {
  }

  lemma Digits1()
    ensures BigEndian(0x8f, 0x01, 0xcf, 0xea) == 0x8f01cfea
    ensures HexByte(0x8f) + HexByte(0x01) + HexByte(0xcf) + HexByte(0xea) == "8f01cfea"
  {
  }

  lemma Digits2()
    ensures BigEndian(0x41, 0x41, 0x40, 0xde) == 0x414140de
    ensures HexByte(0x41) + HexByte(0x41) + HexByte(0x40) + HexByte(0xde) == "414140de"
  {
  }

  lemma Digits3()
    ensures BigEndian(0x5d, 0xae, 0x22, 0x23) == 0x5dae2223
    ensures HexByte(0x5d) + HexByte(0xae) + HexByte(0x22) + HexByte(0x23) == "5dae2223"
  {
  }

  lemma Digits4()
    ensures BigEndian(0xb0, 0x03, 0x61, 0xa3) == 0xb00361a3
    ensures HexByte(0xb0) + HexByte(0x03) + HexByte(0x61) + HexByte(0xa3) == "b00361a3"
  {
  }

  lemma Digits5()
    ensures BigEndian(0x96, 0x17, 0x7a, 0x9c) == 0x96177a9c
    ensures HexByte(0x96) + HexByte(0x17) + HexByte(0x7a) + HexByte(0x9c) == "96177a9c"
  {
  }

  lemma Digits6()
    ensures BigEndian(0xb4, 0x10, 0xff, 0x61) == 0xb410ff61
    ensures HexByte(0xb4) + HexByte(0x10) + HexByte(0xff) + HexByte(0x61) == "b410ff61"
  {
  }

  lemma Digits7()
    ensures BigEndian(0xf2, 0x00, 0x15, 0xad) == 0xf20015ad
    ensures HexByte(0xf2) + HexByte(0x00) + HexByte(0x15) + HexByte(0xad) == "f20015ad"
  {
  }

  /** The text the standard gives. */
  lemma DigestOfAbc()
    ensures Hex(Digest(Sha256(ABC))) ==
            "ba7816bf" + "8f01cfea" + "414140de" + "5dae2223" + "b00361a3" + "96177a9c" + "b410ff61" + "f20015ad"
  {
    HashOfAbc();
    var h := Sha256(ABC);
    hide Sha256, BigEndian, HexByte, Digest, Hex;
    EmptyText(h);
    Digits0();
    var t0 := "ba7816bf";
    NextText(h, 0, 0xba, 0x78, 0x16, 0xbf, "", "ba7816bf");
    Digits1();
    var t1 := t0 + "8f01cfea";
    NextText(h, 1, 0x8f, 0x01, 0xcf, 0xea, t0, "8f01cfea");
    Digits2();
    var t2 := t1 + "414140de";
    NextText(h, 2, 0x41, 0x41, 0x40, 0xde, t1, "414140de");
    Digits3();
    var t3 := t2 + "5dae2223";
    NextText(h, 3, 0x5d, 0xae, 0x22, 0x23, t2, "5dae2223");
    Digits4();
    var t4 := t3 + "b00361a3";
    NextText(h, 4, 0xb0, 0x03, 0x61, 0xa3, t3, "b00361a3");
    Digits5();
    var t5 := t4 + "96177a9c";
    NextText(h, 5, 0x96, 0x17, 0x7a, 0x9c, t4, "96177a9c");
    Digits6();
    var t6 := t5 + "b410ff61";
    NextText(h, 6, 0xb4, 0x10, 0xff, 0x61, t5, "b410ff61");
    Digits7();
    var t7 := t6 + "f20015ad";
    NextText(h, 7, 0xf2, 0x00, 0x15, 0xad, t6, "f20015ad");
    assert Digest(h)[..32] == Digest(h);
  }

  lemma EmptyText(h: Hash)
    ensures Hex(Digest(h)[..0]) == ""
  {
  }
}
