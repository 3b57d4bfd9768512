/** The example published with FIPS 180: the message "abc" fills one block. Each
    row below is one step of the published computation, so the definitions give
    the values of the standard. */
module FipsExample {
  import opened Bytes
  import opened Fips180

  const ABC: seq<Byte> := [0x61, 0x62, 0x63]

  /** The sixteen words of the padded message. */
  ghost predicate AbcBlock(m: seq<Word>) {
    && |m| == 16 && m[0] == 0x61626380
    && m[1] == 0 && m[2] == 0 && m[3] == 0 && m[4] == 0 && m[5] == 0 && m[6] == 0 && m[7] == 0
    && m[8] == 0 && m[9] == 0 && m[10] == 0 && m[11] == 0 && m[12] == 0 && m[13] == 0 && m[14] == 0
    && m[15] == 0x18
  }

  // ----- the message schedule -----

  /** Word t of the schedule, from four earlier ones. */
  lemma Next(m: seq<Word>, t: nat, w2: Word, w7: Word, w15: Word, w16: Word, w: Word)
    requires |m| == 16 && t >= 16 && Schedule(m, t - 2) == w2 && Schedule(m, t - 7) == w7
    requires Schedule(m, t - 15) == w15 && Schedule(m, t - 16) == w16 && ScheduleStep(w2, w7, w15, w16) == w
    ensures Schedule(m, t) == w
  {
    hide ScheduleStep;
  }

  lemma Words0(m: seq<Word>)
    requires AbcBlock(m)
    ensures Schedule(m, 0) == 0x61626380 && Schedule(m, 1) == 0
    ensures Schedule(m, 2) == 0 && Schedule(m, 3) == 0
    ensures Schedule(m, 4) == 0 && Schedule(m, 5) == 0
    ensures Schedule(m, 6) == 0 && Schedule(m, 7) == 0
    ensures Schedule(m, 8) == 0 && Schedule(m, 9) == 0
    ensures Schedule(m, 10) == 0 && Schedule(m, 11) == 0
    ensures Schedule(m, 12) == 0 && Schedule(m, 13) == 0
    ensures Schedule(m, 14) == 0 && Schedule(m, 15) == 0x00000018
  {
  }

  lemma Words16(m: seq<Word>)
    requires AbcBlock(m)
    ensures Schedule(m, 16) == 0x61626380 && Schedule(m, 17) == 0x000f0000
    ensures Schedule(m, 18) == 0x7da86405 && Schedule(m, 19) == 0x600003c6
    ensures Schedule(m, 20) == 0x3e9d7b78 && Schedule(m, 21) == 0x0183fc00
    ensures Schedule(m, 22) == 0x12dcbfdb && Schedule(m, 23) == 0xe2e2c38e
    ensures Schedule(m, 24) == 0xc8215c1a && Schedule(m, 25) == 0xb73679a2
    ensures Schedule(m, 26) == 0xe5bc3909 && Schedule(m, 27) == 0x32663c5b
    ensures Schedule(m, 28) == 0x9d209d67 && Schedule(m, 29) == 0xec8726cb
    ensures Schedule(m, 30) == 0x702138a4 && Schedule(m, 31) == 0xd3b7973b
  {
    hide Schedule;
    Words0(m);
    Next(m, 16, 0, 0, 0, 0x61626380, 0x61626380);
    Next(m, 17, 0x00000018, 0, 0, 0, 0x000f0000);
    Next(m, 18, 0x61626380, 0, 0, 0, 0x7da86405);
    Next(m, 19, 0x000f0000, 0, 0, 0, 0x600003c6);
    Next(m, 20, 0x7da86405, 0, 0, 0, 0x3e9d7b78);
    Next(m, 21, 0x600003c6, 0, 0, 0, 0x0183fc00);
    Next(m, 22, 0x3e9d7b78, 0x00000018, 0, 0, 0x12dcbfdb);
    Next(m, 23, 0x0183fc00, 0x61626380, 0, 0, 0xe2e2c38e);
    Next(m, 24, 0x12dcbfdb, 0x000f0000, 0, 0, 0xc8215c1a);
    Next(m, 25, 0xe2e2c38e, 0x7da86405, 0, 0, 0xb73679a2);
    Next(m, 26, 0xc8215c1a, 0x600003c6, 0, 0, 0xe5bc3909);
    Next(m, 27, 0xb73679a2, 0x3e9d7b78, 0, 0, 0x32663c5b);
    Next(m, 28, 0xe5bc3909, 0x0183fc00, 0, 0, 0x9d209d67);
    Next(m, 29, 0x32663c5b, 0x12dcbfdb, 0, 0, 0xec8726cb);
    Next(m, 30, 0x9d209d67, 0xe2e2c38e, 0x00000018, 0, 0x702138a4);
    Next(m, 31, 0xec8726cb, 0xc8215c1a, 0x61626380, 0x00000018, 0xd3b7973b);
  }

  lemma Words32(m: seq<Word>)
    requires AbcBlock(m)
    ensures Schedule(m, 32) == 0x93f5997f && Schedule(m, 33) == 0x3b68ba73
    ensures Schedule(m, 34) == 0xaff4ffc1 && Schedule(m, 35) == 0xf10a5c62
    ensures Schedule(m, 36) == 0x0a8b3996 && Schedule(m, 37) == 0x72af830a
    ensures Schedule(m, 38) == 0x9409e33e && Schedule(m, 39) == 0x24641522
    ensures Schedule(m, 40) == 0x9f47bf94 && Schedule(m, 41) == 0xf0a64f5a
    ensures Schedule(m, 42) == 0x3e246a79 && Schedule(m, 43) == 0x27333ba3
    ensures Schedule(m, 44) == 0x0c4763f2 && Schedule(m, 45) == 0x840abf27
    ensures Schedule(m, 46) == 0x7a290d5d && Schedule(m, 47) == 0x065c43da
  {
    hide Schedule;
    Words16(m);
    Next(m, 32, 0x702138a4, 0xb73679a2, 0x000f0000, 0x61626380, 0x93f5997f);
    Next(m, 33, 0xd3b7973b, 0xe5bc3909, 0x7da86405, 0x000f0000, 0x3b68ba73);
    Next(m, 34, 0x93f5997f, 0x32663c5b, 0x600003c6, 0x7da86405, 0xaff4ffc1);
    Next(m, 35, 0x3b68ba73, 0x9d209d67, 0x3e9d7b78, 0x600003c6, 0xf10a5c62);
    Next(m, 36, 0xaff4ffc1, 0xec8726cb, 0x0183fc00, 0x3e9d7b78, 0x0a8b3996);
    Next(m, 37, 0xf10a5c62, 0x702138a4, 0x12dcbfdb, 0x0183fc00, 0x72af830a);
    Next(m, 38, 0x0a8b3996, 0xd3b7973b, 0xe2e2c38e, 0x12dcbfdb, 0x9409e33e);
    Next(m, 39, 0x72af830a, 0x93f5997f, 0xc8215c1a, 0xe2e2c38e, 0x24641522);
    Next(m, 40, 0x9409e33e, 0x3b68ba73, 0xb73679a2, 0xc8215c1a, 0x9f47bf94);
    Next(m, 41, 0x24641522, 0xaff4ffc1, 0xe5bc3909, 0xb73679a2, 0xf0a64f5a);
    Next(m, 42, 0x9f47bf94, 0xf10a5c62, 0x32663c5b, 0xe5bc3909, 0x3e246a79);
    Next(m, 43, 0xf0a64f5a, 0x0a8b3996, 0x9d209d67, 0x32663c5b, 0x27333ba3);
    Next(m, 44, 0x3e246a79, 0x72af830a, 0xec8726cb, 0x9d209d67, 0x0c4763f2);
    Next(m, 45, 0x27333ba3, 0x9409e33e, 0x702138a4, 0xec8726cb, 0x840abf27);
    Next(m, 46, 0x0c4763f2, 0x24641522, 0xd3b7973b, 0x702138a4, 0x7a290d5d);
    Next(m, 47, 0x840abf27, 0x9f47bf94, 0x93f5997f, 0xd3b7973b, 0x065c43da);
  }

  lemma Words48(m: seq<Word>)
    requires AbcBlock(m)
    ensures Schedule(m, 48) == 0xfb3e89cb && Schedule(m, 49) == 0xcc7617db
    ensures Schedule(m, 50) == 0xb9e66c34 && Schedule(m, 51) == 0xa9993667
    ensures Schedule(m, 52) == 0x84badedd && Schedule(m, 53) == 0xc21462bc
    ensures Schedule(m, 54) == 0x1487472c && Schedule(m, 55) == 0xb20f7a99
    ensures Schedule(m, 56) == 0xef57b9cd && Schedule(m, 57) == 0xebe6b238
    ensures Schedule(m, 58) == 0x9fe3095e && Schedule(m, 59) == 0x78bc8d4b
    ensures Schedule(m, 60) == 0xa43fcf15 && Schedule(m, 61) == 0x668b2ff8
    ensures Schedule(m, 62) == 0xeeaba2cc && Schedule(m, 63) == 0x12b1edeb
  {
    hide Schedule;
    Words32(m);
    Next(m, 48, 0x7a290d5d, 0xf0a64f5a, 0x3b68ba73, 0x93f5997f, 0xfb3e89cb);
    Next(m, 49, 0x065c43da, 0x3e246a79, 0xaff4ffc1, 0x3b68ba73, 0xcc7617db);
    Next(m, 50, 0xfb3e89cb, 0x27333ba3, 0xf10a5c62, 0xaff4ffc1, 0xb9e66c34);
    Next(m, 51, 0xcc7617db, 0x0c4763f2, 0x0a8b3996, 0xf10a5c62, 0xa9993667);
    Next(m, 52, 0xb9e66c34, 0x840abf27, 0x72af830a, 0x0a8b3996, 0x84badedd);
    Next(m, 53, 0xa9993667, 0x7a290d5d, 0x9409e33e, 0x72af830a, 0xc21462bc);
    Next(m, 54, 0x84badedd, 0x065c43da, 0x24641522, 0x9409e33e, 0x1487472c);
    Next(m, 55, 0xc21462bc, 0xfb3e89cb, 0x9f47bf94, 0x24641522, 0xb20f7a99);
    Next(m, 56, 0x1487472c, 0xcc7617db, 0xf0a64f5a, 0x9f47bf94, 0xef57b9cd);
    Next(m, 57, 0xb20f7a99, 0xb9e66c34, 0x3e246a79, 0xf0a64f5a, 0xebe6b238);
    Next(m, 58, 0xef57b9cd, 0xa9993667, 0x27333ba3, 0x3e246a79, 0x9fe3095e);
    Next(m, 59, 0xebe6b238, 0x84badedd, 0x0c4763f2, 0x27333ba3, 0x78bc8d4b);
    Next(m, 60, 0x9fe3095e, 0xc21462bc, 0x840abf27, 0x0c4763f2, 0xa43fcf15);
    Next(m, 61, 0x78bc8d4b, 0x1487472c, 0x7a290d5d, 0x840abf27, 0x668b2ff8);
    Next(m, 62, 0xa43fcf15, 0xb20f7a99, 0x065c43da, 0x7a290d5d, 0xeeaba2cc);
    Next(m, 63, 0x668b2ff8, 0xef57b9cd, 0xfb3e89cb, 0x065c43da, 0x12b1edeb);
  }

  // ----- the round constants -----

  lemma Keys0()
    ensures K(0) == 0x428a2f98 && K(1) == 0x71374491 && K(2) == 0xb5c0fbcf && K(3) == 0xe9b5dba5
    ensures K(4) == 0x3956c25b && K(5) == 0x59f111f1 && K(6) == 0x923f82a4 && K(7) == 0xab1c5ed5
  {
  }

  lemma Keys8()
    ensures K(8) == 0xd807aa98 && K(9) == 0x12835b01 && K(10) == 0x243185be && K(11) == 0x550c7dc3
    ensures K(12) == 0x72be5d74 && K(13) == 0x80deb1fe && K(14) == 0x9bdc06a7 && K(15) == 0xc19bf174
  {
  }

  lemma Keys16()
    ensures K(16) == 0xe49b69c1 && K(17) == 0xefbe4786 && K(18) == 0x0fc19dc6 && K(19) == 0x240ca1cc
    ensures K(20) == 0x2de92c6f && K(21) == 0x4a7484aa && K(22) == 0x5cb0a9dc && K(23) == 0x76f988da
  {
  }

  lemma Keys24()
    ensures K(24) == 0x983e5152 && K(25) == 0xa831c66d && K(26) == 0xb00327c8 && K(27) == 0xbf597fc7
    ensures K(28) == 0xc6e00bf3 && K(29) == 0xd5a79147 && K(30) == 0x06ca6351 && K(31) == 0x14292967
  {
  }

  lemma Keys32()
    ensures K(32) == 0x27b70a85 && K(33) == 0x2e1b2138 && K(34) == 0x4d2c6dfc && K(35) == 0x53380d13
    ensures K(36) == 0x650a7354 && K(37) == 0x766a0abb && K(38) == 0x81c2c92e && K(39) == 0x92722c85
  {
  }

  lemma Keys40()
    ensures K(40) == 0xa2bfe8a1 && K(41) == 0xa81a664b && K(42) == 0xc24b8b70 && K(43) == 0xc76c51a3
    ensures K(44) == 0xd192e819 && K(45) == 0xd6990624 && K(46) == 0xf40e3585 && K(47) == 0x106aa070
  {
  }

  lemma Keys48()
    ensures K(48) == 0x19a4c116 && K(49) == 0x1e376c08 && K(50) == 0x2748774c && K(51) == 0x34b0bcb5
    ensures K(52) == 0x391c0cb3 && K(53) == 0x4ed8aa4a && K(54) == 0x5b9cca4f && K(55) == 0x682e6ff3
  {
  }

  lemma Keys56()
    ensures K(56) == 0x748f82ee && K(57) == 0x78a5636f && K(58) == 0x84c87814 && K(59) == 0x8cc70208
    ensures K(60) == 0x90befffa && K(61) == 0xa4506ceb && K(62) == 0xbef9a3f7 && K(63) == 0xc67178f2
  {
  }

  // ----- the 64 rounds -----

  function After(m: seq<Word>, t: nat): Vars
    requires |m| == 16 && t <= 64
  {
    Rounds(Load(Initial()), m, t)
  }

  /** Round t leaves a' and e' in the two registers it computes. */
  lemma Turn(m: seq<Word>, t: nat, a: Word, b: Word, c: Word, d: Word, e: Word, f: Word, g: Word, h: Word,
             k: Word, w: Word, a': Word, e': Word)
    requires |m| == 16 && t < 64 && After(m, t) == Vars(a, b, c, d, e, f, g, h) && K(t) == k && Schedule(m, t) == w
    requires Round(Vars(a, b, c, d, e, f, g, h), k, w) == Vars(a', a, b, c, e', e, f, g)
    ensures After(m, t + 1) == Vars(a', a, b, c, e', e, f, g)
  {
    hide Round, K, Schedule;
  }

  lemma Rounds8(m: seq<Word>)
    requires AbcBlock(m)
    ensures After(m, 8) ==
      Vars(0x85a07b5f, 0xe5030380, 0x2b4209f5, 0x04409a6a, 0x0c657a79, 0x9b27a401, 0x714260ad, 0x43ada245)
  {
    hide Schedule, K;
    assert After(m, 0) ==
      Vars(0x6a09e667, 0xbb67ae85, 0x3c6ef372, 0xa54ff53a, 0x510e527f, 0x9b05688c, 0x1f83d9ab, 0x5be0cd19);
    hide After;
    Keys0();
    Words0(m);
    Turn(m, 0, 0x6a09e667, 0xbb67ae85, 0x3c6ef372, 0xa54ff53a, 0x510e527f, 0x9b05688c, 0x1f83d9ab, 0x5be0cd19,
         0x428a2f98, 0x61626380, 0x5d6aebcd, 0xfa2a4622);
    Turn(m, 1, 0x5d6aebcd, 0x6a09e667, 0xbb67ae85, 0x3c6ef372, 0xfa2a4622, 0x510e527f, 0x9b05688c, 0x1f83d9ab,
         0x71374491, 0, 0x5a6ad9ad, 0x78ce7989);
    Turn(m, 2, 0x5a6ad9ad, 0x5d6aebcd, 0x6a09e667, 0xbb67ae85, 0x78ce7989, 0xfa2a4622, 0x510e527f, 0x9b05688c,
         0xb5c0fbcf, 0, 0xc8c347a7, 0xf92939eb);
    Turn(m, 3, 0xc8c347a7, 0x5a6ad9ad, 0x5d6aebcd, 0x6a09e667, 0xf92939eb, 0x78ce7989, 0xfa2a4622, 0x510e527f,
         0xe9b5dba5, 0, 0xd550f666, 0x24e00850);
    Turn(m, 4, 0xd550f666, 0xc8c347a7, 0x5a6ad9ad, 0x5d6aebcd, 0x24e00850, 0xf92939eb, 0x78ce7989, 0xfa2a4622,
         0x3956c25b, 0, 0x04409a6a, 0x43ada245);
    Turn(m, 5, 0x04409a6a, 0xd550f666, 0xc8c347a7, 0x5a6ad9ad, 0x43ada245, 0x24e00850, 0xf92939eb, 0x78ce7989,
         0x59f111f1, 0, 0x2b4209f5, 0x714260ad);
    Turn(m, 6, 0x2b4209f5, 0x04409a6a, 0xd550f666, 0xc8c347a7, 0x714260ad, 0x43ada245, 0x24e00850, 0xf92939eb,
         0x923f82a4, 0, 0xe5030380, 0x9b27a401);
    Turn(m, 7, 0xe5030380, 0x2b4209f5, 0x04409a6a, 0xd550f666, 0x9b27a401, 0x714260ad, 0x43ada245, 0x24e00850,
         0xab1c5ed5, 0, 0x85a07b5f, 0x0c657a79);
  }

  lemma Rounds16(m: seq<Word>)
    requires AbcBlock(m)
    ensures After(m, 16) ==
      Vars(0xb0fa238e, 0xc0645fde, 0xd932eb16, 0x87912990, 0x07590dcd, 0x0b92f20c, 0x745a48de, 0x1e578218)
  {
    hide Schedule, After, K;
    Keys8();
    Words0(m);
    Rounds8(m);
    Turn(m, 8, 0x85a07b5f, 0xe5030380, 0x2b4209f5, 0x04409a6a, 0x0c657a79, 0x9b27a401, 0x714260ad, 0x43ada245,
         0xd807aa98, 0, 0x8e04ecb9, 0x32ca2d8c);
    Turn(m, 9, 0x8e04ecb9, 0x85a07b5f, 0xe5030380, 0x2b4209f5, 0x32ca2d8c, 0x0c657a79, 0x9b27a401, 0x714260ad,
         0x12835b01, 0, 0x8c87346b, 0x1cc92596);
    Turn(m, 10, 0x8c87346b, 0x8e04ecb9, 0x85a07b5f, 0xe5030380, 0x1cc92596, 0x32ca2d8c, 0x0c657a79, 0x9b27a401,
         0x243185be, 0, 0x4798a3f4, 0x436b23e8);
    Turn(m, 11, 0x4798a3f4, 0x8c87346b, 0x8e04ecb9, 0x85a07b5f, 0x436b23e8, 0x1cc92596, 0x32ca2d8c, 0x0c657a79,
         0x550c7dc3, 0, 0xf71fc5a9, 0x816fd6e9);
    Turn(m, 12, 0xf71fc5a9, 0x4798a3f4, 0x8c87346b, 0x8e04ecb9, 0x816fd6e9, 0x436b23e8, 0x1cc92596, 0x32ca2d8c,
         0x72be5d74, 0, 0x87912990, 0x1e578218);
    Turn(m, 13, 0x87912990, 0xf71fc5a9, 0x4798a3f4, 0x8c87346b, 0x1e578218, 0x816fd6e9, 0x436b23e8, 0x1cc92596,
         0x80deb1fe, 0, 0xd932eb16, 0x745a48de);
    Turn(m, 14, 0xd932eb16, 0x87912990, 0xf71fc5a9, 0x4798a3f4, 0x745a48de, 0x1e578218, 0x816fd6e9, 0x436b23e8,
         0x9bdc06a7, 0, 0xc0645fde, 0x0b92f20c);
    Turn(m, 15, 0xc0645fde, 0xd932eb16, 0x87912990, 0xf71fc5a9, 0x0b92f20c, 0x745a48de, 0x1e578218, 0x816fd6e9,
         0xc19bf174, 0x00000018, 0xb0fa238e, 0x07590dcd);
  }

  lemma Rounds24(m: seq<Word>)
    requires AbcBlock(m)
    ensures After(m, 24) ==
      Vars(0xc5d53d8d, 0xa7a3623f, 0xc2606d6d, 0x9dc68b63, 0xaa47c347, 0x49f5114a, 0xe1257970, 0x8ada8930)
  {
    hide Schedule, After, K;
    Keys16();
    Words16(m);
    Rounds16(m);
    Turn(m, 16, 0xb0fa238e, 0xc0645fde, 0xd932eb16, 0x87912990, 0x07590dcd, 0x0b92f20c, 0x745a48de, 0x1e578218,
         0xe49b69c1, 0x61626380, 0x21da9a9b, 0x8034229c);
    Turn(m, 17, 0x21da9a9b, 0xb0fa238e, 0xc0645fde, 0xd932eb16, 0x8034229c, 0x07590dcd, 0x0b92f20c, 0x745a48de,
         0xefbe4786, 0x000f0000, 0xc2fbd9d1, 0x846ee454);
    Turn(m, 18, 0xc2fbd9d1, 0x21da9a9b, 0xb0fa238e, 0xc0645fde, 0x846ee454, 0x8034229c, 0x07590dcd, 0x0b92f20c,
         0x0fc19dc6, 0x7da86405, 0xfe777bbf, 0xcc899961);
    Turn(m, 19, 0xfe777bbf, 0xc2fbd9d1, 0x21da9a9b, 0xb0fa238e, 0xcc899961, 0x846ee454, 0x8034229c, 0x07590dcd,
         0x240ca1cc, 0x600003c6, 0xe1f20c33, 0xb0638179);
    Turn(m, 20, 0xe1f20c33, 0xfe777bbf, 0xc2fbd9d1, 0x21da9a9b, 0xb0638179, 0xcc899961, 0x846ee454, 0x8034229c,
         0x2de92c6f, 0x3e9d7b78, 0x9dc68b63, 0x8ada8930);
    Turn(m, 21, 0x9dc68b63, 0xe1f20c33, 0xfe777bbf, 0xc2fbd9d1, 0x8ada8930, 0xb0638179, 0xcc899961, 0x846ee454,
         0x4a7484aa, 0x0183fc00, 0xc2606d6d, 0xe1257970);
    Turn(m, 22, 0xc2606d6d, 0x9dc68b63, 0xe1f20c33, 0xfe777bbf, 0xe1257970, 0x8ada8930, 0xb0638179, 0xcc899961,
         0x5cb0a9dc, 0x12dcbfdb, 0xa7a3623f, 0x49f5114a);
    Turn(m, 23, 0xa7a3623f, 0xc2606d6d, 0x9dc68b63, 0xe1f20c33, 0x49f5114a, 0xe1257970, 0x8ada8930, 0xb0638179,
         0x76f988da, 0xe2e2c38e, 0xc5d53d8d, 0xaa47c347);
  }

  lemma Rounds32(m: seq<Word>)
    requires AbcBlock(m)
    ensures After(m, 32) ==
      Vars(0x73b33bf5, 0xea992a22, 0xa0060b30, 0x363482c9, 0xba591112, 0x0109ab3a, 0xade79437, 0x6112a3b7)
  {
    hide Schedule, After, K;
    Keys24();
    Words16(m);
    Rounds24(m);
    Turn(m, 24, 0xc5d53d8d, 0xa7a3623f, 0xc2606d6d, 0x9dc68b63, 0xaa47c347, 0x49f5114a, 0xe1257970, 0x8ada8930,
         0x983e5152, 0xc8215c1a, 0x1c2c2838, 0x2823ef91);
    Turn(m, 25, 0x1c2c2838, 0xc5d53d8d, 0xa7a3623f, 0xc2606d6d, 0x2823ef91, 0xaa47c347, 0x49f5114a, 0xe1257970,
         0xa831c66d, 0xb73679a2, 0xcde8037d, 0x14383d8e);
    Turn(m, 26, 0xcde8037d, 0x1c2c2838, 0xc5d53d8d, 0xa7a3623f, 0x14383d8e, 0x2823ef91, 0xaa47c347, 0x49f5114a,
         0xb00327c8, 0xe5bc3909, 0xb62ec4bc, 0xc74c6516);
    Turn(m, 27, 0xb62ec4bc, 0xcde8037d, 0x1c2c2838, 0xc5d53d8d, 0xc74c6516, 0x14383d8e, 0x2823ef91, 0xaa47c347,
         0xbf597fc7, 0x32663c5b, 0x77d37528, 0xedffbff8);
    Turn(m, 28, 0x77d37528, 0xb62ec4bc, 0xcde8037d, 0x1c2c2838, 0xedffbff8, 0xc74c6516, 0x14383d8e, 0x2823ef91,
         0xc6e00bf3, 0x9d209d67, 0x363482c9, 0x6112a3b7);
    Turn(m, 29, 0x363482c9, 0x77d37528, 0xb62ec4bc, 0xcde8037d, 0x6112a3b7, 0xedffbff8, 0xc74c6516, 0x14383d8e,
         0xd5a79147, 0xec8726cb, 0xa0060b30, 0xade79437);
    Turn(m, 30, 0xa0060b30, 0x363482c9, 0x77d37528, 0xb62ec4bc, 0xade79437, 0x6112a3b7, 0xedffbff8, 0xc74c6516,
         0x06ca6351, 0x702138a4, 0xea992a22, 0x0109ab3a);
    Turn(m, 31, 0xea992a22, 0xa0060b30, 0x363482c9, 0x77d37528, 0x0109ab3a, 0xade79437, 0x6112a3b7, 0xedffbff8,
         0x14292967, 0xd3b7973b, 0x73b33bf5, 0xba591112);
  }

  lemma Rounds40(m: seq<Word>)
    requires AbcBlock(m)
    ensures After(m, 40) ==
      Vars(0x79ea687a, 0x6dc57a8a, 0x34df1604, 0x41a65cb1, 0x1efbc0a0, 0xf0781bc8, 0xa507a53d, 0x0772a26b)
  {
    hide Schedule, After, K;
    Keys32();
    Words32(m);
    Rounds32(m);
    Turn(m, 32, 0x73b33bf5, 0xea992a22, 0xa0060b30, 0x363482c9, 0xba591112, 0x0109ab3a, 0xade79437, 0x6112a3b7,
         0x27b70a85, 0x93f5997f, 0x98e12507, 0x9cd9f5f6);
    Turn(m, 33, 0x98e12507, 0x73b33bf5, 0xea992a22, 0xa0060b30, 0x9cd9f5f6, 0xba591112, 0x0109ab3a, 0xade79437,
         0x2e1b2138, 0x3b68ba73, 0xfe604df5, 0x59249dd3);
    Turn(m, 34, 0xfe604df5, 0x98e12507, 0x73b33bf5, 0xea992a22, 0x59249dd3, 0x9cd9f5f6, 0xba591112, 0x0109ab3a,
         0x4d2c6dfc, 0xaff4ffc1, 0xa9a7738c, 0x085f3833);
    Turn(m, 35, 0xa9a7738c, 0xfe604df5, 0x98e12507, 0x73b33bf5, 0x085f3833, 0x59249dd3, 0x9cd9f5f6, 0xba591112,
         0x53380d13, 0xf10a5c62, 0x65a0cfe4, 0xf4b002d6);
    Turn(m, 36, 0x65a0cfe4, 0xa9a7738c, 0xfe604df5, 0x98e12507, 0xf4b002d6, 0x085f3833, 0x59249dd3, 0x9cd9f5f6,
         0x650a7354, 0x0a8b3996, 0x41a65cb1, 0x0772a26b);
    Turn(m, 37, 0x41a65cb1, 0x65a0cfe4, 0xa9a7738c, 0xfe604df5, 0x0772a26b, 0xf4b002d6, 0x085f3833, 0x59249dd3,
         0x766a0abb, 0x72af830a, 0x34df1604, 0xa507a53d);
    Turn(m, 38, 0x34df1604, 0x41a65cb1, 0x65a0cfe4, 0xa9a7738c, 0xa507a53d, 0x0772a26b, 0xf4b002d6, 0x085f3833,
         0x81c2c92e, 0x9409e33e, 0x6dc57a8a, 0xf0781bc8);
    Turn(m, 39, 0x6dc57a8a, 0x34df1604, 0x41a65cb1, 0x65a0cfe4, 0xf0781bc8, 0xa507a53d, 0x0772a26b, 0xf4b002d6,
         0x92722c85, 0x24641522, 0x79ea687a, 0x1efbc0a0);
  }

  lemma Rounds48(m: seq<Word>)
    requires AbcBlock(m)
    ensures After(m, 48) ==
      Vars(0x4172328d, 0xa14c14b0, 0x72ab4b91, 0x26628815, 0xfecf0bc6, 0xd57b94a9, 0xb7755da1, 0xa80f11f0)
  {
    hide Schedule, After, K;
    Keys40();
    Words32(m);
    Rounds40(m);
    Turn(m, 40, 0x79ea687a, 0x6dc57a8a, 0x34df1604, 0x41a65cb1, 0x1efbc0a0, 0xf0781bc8, 0xa507a53d, 0x0772a26b,
         0xa2bfe8a1, 0x9f47bf94, 0xd6670766, 0x26352d63);
    Turn(m, 41, 0xd6670766, 0x79ea687a, 0x6dc57a8a, 0x34df1604, 0x26352d63, 0x1efbc0a0, 0xf0781bc8, 0xa507a53d,
         0xa81a664b, 0xf0a64f5a, 0xdf46652f, 0x838b2711);
    Turn(m, 42, 0xdf46652f, 0xd6670766, 0x79ea687a, 0x6dc57a8a, 0x838b2711, 0x26352d63, 0x1efbc0a0, 0xf0781bc8,
         0xc24b8b70, 0x3e246a79, 0x17aa0dfe, 0xdecd4715);
    Turn(m, 43, 0x17aa0dfe, 0xdf46652f, 0xd6670766, 0x79ea687a, 0xdecd4715, 0x838b2711, 0x26352d63, 0x1efbc0a0,
         0xc76c51a3, 0x27333ba3, 0x9d4baf93, 0xfda24c2e);
    Turn(m, 44, 0x9d4baf93, 0x17aa0dfe, 0xdf46652f, 0xd6670766, 0xfda24c2e, 0xdecd4715, 0x838b2711, 0x26352d63,
         0xd192e819, 0x0c4763f2, 0x26628815, 0xa80f11f0);
    Turn(m, 45, 0x26628815, 0x9d4baf93, 0x17aa0dfe, 0xdf46652f, 0xa80f11f0, 0xfda24c2e, 0xdecd4715, 0x838b2711,
         0xd6990624, 0x840abf27, 0x72ab4b91, 0xb7755da1);
    Turn(m, 46, 0x72ab4b91, 0x26628815, 0x9d4baf93, 0x17aa0dfe, 0xb7755da1, 0xa80f11f0, 0xfda24c2e, 0xdecd4715,
         0xf40e3585, 0x7a290d5d, 0xa14c14b0, 0xd57b94a9);
    Turn(m, 47, 0xa14c14b0, 0x72ab4b91, 0x26628815, 0x9d4baf93, 0xd57b94a9, 0xb7755da1, 0xa80f11f0, 0xfda24c2e,
         0x106aa070, 0x065c43da, 0x4172328d, 0xfecf0bc6);
  }

  lemma Rounds56(m: seq<Word>)
    requires AbcBlock(m)
    ensures After(m, 56) ==
      Vars(0x38cc9913, 0x3ec45cdb, 0xf5702fdb, 0x101fd28f, 0x54cb266b, 0xe50e1b4f, 0x9f4787c3, 0x529e7d00)
  {
    hide Schedule, After, K;
    Keys48();
    Words48(m);
    Rounds48(m);
    Turn(m, 48, 0x4172328d, 0xa14c14b0, 0x72ab4b91, 0x26628815, 0xfecf0bc6, 0xd57b94a9, 0xb7755da1, 0xa80f11f0,
         0x19a4c116, 0xfb3e89cb, 0x05757ceb, 0xbd714038);
    Turn(m, 49, 0x05757ceb, 0x4172328d, 0xa14c14b0, 0x72ab4b91, 0xbd714038, 0xfecf0bc6, 0xd57b94a9, 0xb7755da1,
         0x1e376c08, 0xcc7617db, 0xf11bfaa8, 0x6e5c390c);
    Turn(m, 50, 0xf11bfaa8, 0x05757ceb, 0x4172328d, 0xa14c14b0, 0x6e5c390c, 0xbd714038, 0xfecf0bc6, 0xd57b94a9,
         0x2748774c, 0xb9e66c34, 0x7a0508a1, 0x52f1ccf7);
    Turn(m, 51, 0x7a0508a1, 0xf11bfaa8, 0x05757ceb, 0x4172328d, 0x52f1ccf7, 0x6e5c390c, 0xbd714038, 0xfecf0bc6,
         0x34b0bcb5, 0xa9993667, 0x886e7a22, 0x49231c1e);
    Turn(m, 52, 0x886e7a22, 0x7a0508a1, 0xf11bfaa8, 0x05757ceb, 0x49231c1e, 0x52f1ccf7, 0x6e5c390c, 0xbd714038,
         0x391c0cb3, 0x84badedd, 0x101fd28f, 0x529e7d00);
    Turn(m, 53, 0x101fd28f, 0x886e7a22, 0x7a0508a1, 0xf11bfaa8, 0x529e7d00, 0x49231c1e, 0x52f1ccf7, 0x6e5c390c,
         0x4ed8aa4a, 0xc21462bc, 0xf5702fdb, 0x9f4787c3);
    Turn(m, 54, 0xf5702fdb, 0x101fd28f, 0x886e7a22, 0x7a0508a1, 0x9f4787c3, 0x529e7d00, 0x49231c1e, 0x52f1ccf7,
         0x5b9cca4f, 0x1487472c, 0x3ec45cdb, 0xe50e1b4f);
    Turn(m, 55, 0x3ec45cdb, 0xf5702fdb, 0x101fd28f, 0x886e7a22, 0xe50e1b4f, 0x9f4787c3, 0x529e7d00, 0x49231c1e,
         0x682e6ff3, 0xb20f7a99, 0x38cc9913, 0x54cb266b);
  }

  lemma Rounds64(m: seq<Word>)
    requires AbcBlock(m)
    ensures After(m, 64) ==
      Vars(0x506e3058, 0xd39a2165, 0x04d24d6c, 0xb85e2ce9, 0x5ef50f24, 0xfb121210, 0x948d25b6, 0x961f4894)
  {
    hide Schedule, After, K;
    Keys56();
    Words48(m);
    Rounds56(m);
    Turn(m, 56, 0x38cc9913, 0x3ec45cdb, 0xf5702fdb, 0x101fd28f, 0x54cb266b, 0xe50e1b4f, 0x9f4787c3, 0x529e7d00,
         0x748f82ee, 0xef57b9cd, 0xfcd1887b, 0x9b5e906c);
    Turn(m, 57, 0xfcd1887b, 0x38cc9913, 0x3ec45cdb, 0xf5702fdb, 0x9b5e906c, 0x54cb266b, 0xe50e1b4f, 0x9f4787c3,
         0x78a5636f, 0xebe6b238, 0xc062d46f, 0x7e44008e);
    Turn(m, 58, 0xc062d46f, 0xfcd1887b, 0x38cc9913, 0x3ec45cdb, 0x7e44008e, 0x9b5e906c, 0x54cb266b, 0xe50e1b4f,
         0x84c87814, 0x9fe3095e, 0xffb70472, 0x6d83bfc6);
    Turn(m, 59, 0xffb70472, 0xc062d46f, 0xfcd1887b, 0x38cc9913, 0x6d83bfc6, 0x7e44008e, 0x9b5e906c, 0x54cb266b,
         0x8cc70208, 0x78bc8d4b, 0xb6ae8fff, 0xb21bad3d);
    Turn(m, 60, 0xb6ae8fff, 0xffb70472, 0xc062d46f, 0xfcd1887b, 0xb21bad3d, 0x6d83bfc6, 0x7e44008e, 0x9b5e906c,
         0x90befffa, 0xa43fcf15, 0xb85e2ce9, 0x961f4894);
    Turn(m, 61, 0xb85e2ce9, 0xb6ae8fff, 0xffb70472, 0xc062d46f, 0x961f4894, 0xb21bad3d, 0x6d83bfc6, 0x7e44008e,
         0xa4506ceb, 0x668b2ff8, 0x04d24d6c, 0x948d25b6);
    Turn(m, 62, 0x04d24d6c, 0xb85e2ce9, 0xb6ae8fff, 0xffb70472, 0x948d25b6, 0x961f4894, 0xb21bad3d, 0x6d83bfc6,
         0xbef9a3f7, 0xeeaba2cc, 0xd39a2165, 0xfb121210);
    Turn(m, 63, 0xd39a2165, 0x04d24d6c, 0xb85e2ce9, 0xb6ae8fff, 0xfb121210, 0x948d25b6, 0x961f4894, 0xb21bad3d,
         0xc67178f2, 0x12b1edeb, 0x506e3058, 0x5ef50f24);
  }

  // ----- the digest -----

  lemma LengthOfAbc()
    ensures LengthBlock(24) == [0, 0, 0, 0, 0, 0, 0, 0x18]
  {
    assert BytesOf(0) == [0, 0, 0, 0];
    assert BytesOf(0x18) == [0, 0, 0, 0x18];
  }

  lemma AbcPadded()
    ensures |Padded(ABC)| == 64 && AbcBlock(Words(Padded(ABC)))
  {
    hide LengthBlock;
    LengthOfAbc();
    var p := Padded(ABC);
    assert p[0] == 0x61 && p[1] == 0x62 && p[2] == 0x63 && p[3] == 0x80;
    assert forall i :: 4 <= i < 63 ==> p[i] == 0;
    assert p[63] == 0x18;
    PaddedWords(p);
  }

  lemma PaddedWords(p: seq<Byte>)
    requires |p| == 64 && p[0] == 0x61 && p[1] == 0x62 && p[2] == 0x63 && p[3] == 0x80 && p[63] == 0x18
    requires forall i :: 4 <= i < 63 ==> p[i] == 0
    ensures AbcBlock(Words(p))
  {
    assert WordOf(0x61, 0x62, 0x63, 0x80) == 0x61626380;
    assert WordOf(0, 0, 0, 0) == 0 && WordOf(0, 0, 0, 0x18) == 0x18;
    hide WordOf;
    assert forall j :: 1 <= j < 15 ==> Words(p)[j] == WordOf(0, 0, 0, 0);
  }

  lemma AbcState(m: seq<Word>)
    requires AbcBlock(m)
    ensures Add(Initial(), After(m, 64)) ==
      [0xba7816bf, 0x8f01cfea, 0x414140de, 0x5dae2223, 0xb00361a3, 0x96177a9c, 0xb410ff61, 0xf20015ad]
  {
    hide After;
    Rounds64(m);
  }

  lemma EncodeEight(h: seq<Word>)
    requires |h| == 8
    ensures Encode(h) == BytesOf(h[0]) + BytesOf(h[1]) + BytesOf(h[2]) + BytesOf(h[3]) +
                         BytesOf(h[4]) + BytesOf(h[5]) + BytesOf(h[6]) + BytesOf(h[7])
  {
    hide BytesOf;
    EncodeFour(h[..4]);
    assert h[..7][..6] == h[..6] && h[..6][..5] == h[..5] && h[..5][..4] == h[..4];
    assert Encode(h[..5]) == Encode(h[..4]) + BytesOf(h[4]);
    assert Encode(h[..6]) == Encode(h[..5]) + BytesOf(h[5]);
    assert Encode(h[..7]) == Encode(h[..6]) + BytesOf(h[6]);
  }

  lemma EncodeFour(h: seq<Word>)
    requires |h| == 4
    ensures Encode(h) == BytesOf(h[0]) + BytesOf(h[1]) + BytesOf(h[2]) + BytesOf(h[3])
  {
    hide BytesOf;
    assert h[..3][..2] == h[..2] && h[..2][..1] == h[..1];
    assert Encode(h[..1]) == BytesOf(h[0]);
    assert Encode(h[..2]) == Encode(h[..1]) + BytesOf(h[1]);
    assert Encode(h[..3]) == Encode(h[..2]) + BytesOf(h[2]);
  }

  lemma DigestBytes1()
    ensures BytesOf(0xba7816bf) == [0xba, 0x78, 0x16, 0xbf]
    ensures BytesOf(0x8f01cfea) == [0x8f, 0x01, 0xcf, 0xea]
    ensures BytesOf(0x414140de) == [0x41, 0x41, 0x40, 0xde]
    ensures BytesOf(0x5dae2223) == [0x5d, 0xae, 0x22, 0x23]
  {
  }

  lemma DigestBytes2()
    ensures BytesOf(0xb00361a3) == [0xb0, 0x03, 0x61, 0xa3]
    ensures BytesOf(0x96177a9c) == [0x96, 0x17, 0x7a, 0x9c]
    ensures BytesOf(0xb410ff61) == [0xb4, 0x10, 0xff, 0x61]
    ensures BytesOf(0xf20015ad) == [0xf2, 0x00, 0x15, 0xad]
  {
  }

  lemma Encoded(h: seq<Word>)
    requires h ==
      [0xba7816bf, 0x8f01cfea, 0x414140de, 0x5dae2223, 0xb00361a3, 0x96177a9c, 0xb410ff61, 0xf20015ad]
    ensures Encode(h) ==
      [0xba, 0x78, 0x16, 0xbf, 0x8f, 0x01, 0xcf, 0xea, 0x41, 0x41, 0x40, 0xde, 0x5d, 0xae, 0x22, 0x23,
       0xb0, 0x03, 0x61, 0xa3, 0x96, 0x17, 0x7a, 0x9c, 0xb4, 0x10, 0xff, 0x61, 0xf2, 0x00, 0x15, 0xad]
  {
    hide BytesOf, Encode;
    EncodeEight(h);
    DigestBytes1();
    DigestBytes2();
  }

  lemma OneBlock(h: seq<Word>, p: seq<Byte>)
    requires |h| == 8 && |p| == 64
    ensures Absorb(h, p) == Compress(h, p)
  {
    hide Compress;
    assert p[..0] == [] && p[0..] == p;
    assert Absorb(h, p[..0]) == h;
  }

  /** The digest of "abc" is the published one. */
  lemma DigestOfAbc()
    ensures Digest(ABC) ==
      [0xba, 0x78, 0x16, 0xbf, 0x8f, 0x01, 0xcf, 0xea, 0x41, 0x41, 0x40, 0xde, 0x5d, 0xae, 0x22, 0x23,
       0xb0, 0x03, 0x61, 0xa3, 0x96, 0x17, 0x7a, 0x9c, 0xb4, 0x10, 0xff, 0x61, 0xf2, 0x00, 0x15, 0xad]
  {
    hide Padded, Words, Rounds, Encode, Absorb, Initial, Add, Load;
    AbcPadded();
    OneBlock(Initial(), Padded(ABC));
    AbcState(Words(Padded(ABC)));
    Encoded(Absorb(Initial(), Padded(ABC)));
  }
}
