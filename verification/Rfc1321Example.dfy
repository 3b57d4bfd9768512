/** The example of RFC 1321, appendix A.5: the message "abc" fills one block.
    Each row below is one of the 64 operations, so the definitions give the
    published digest. */
module Rfc1321Example {
  import opened Bytes
  import opened Rfc1321

  const ABC: seq<Byte> := [0x61, 0x62, 0x63]

  /** The sixteen words of the padded message. */
  ghost predicate AbcBlock(x: seq<Word>) {
    && |x| == 16 && x[0] == 0x80636261
    && x[1] == 0 && x[2] == 0 && x[3] == 0 && x[4] == 0 && x[5] == 0 && x[6] == 0 && x[7] == 0
    && x[8] == 0 && x[9] == 0 && x[10] == 0 && x[11] == 0 && x[12] == 0 && x[13] == 0
    && x[14] == 0x18 && x[15] == 0
  }

  // ----- the 64 operations -----

  /** The operation i of round r writes b'. */
  lemma Turn(v: Regs, x: seq<Word>, r: nat, i: nat, a: Word, b: Word, c: Word, d: Word,
             w: Word, t: Word, s: Word, b': Word)
    requires |x| == 16 && r < 4 && i < 16 && Steps(v, x, r, i) == Regs(a, b, c, d)
    requires x[WordIndex(r, i)] == w && Sine(r, i) == t && Shift(r, i) == s && 0 < s < 32
    requires Operation(Auxiliary(r, b, c, d), a, b, w, t, s) == b'
    ensures Steps(v, x, r, i + 1) == Regs(d, b', b, c)
  {
    hide Operation, Auxiliary, Sine, Shift, WordIndex;
  }

  lemma Rows1a(x: seq<Word>)
    requires AbcBlock(x)
    ensures x[WordIndex(0, 0)] == 0x80636261 && Sine(0, 0) == 0xd76aa478 && Shift(0, 0) == 7
    ensures x[WordIndex(0, 1)] == 0 && Sine(0, 1) == 0xe8c7b756 && Shift(0, 1) == 12
    ensures x[WordIndex(0, 2)] == 0 && Sine(0, 2) == 0x242070db && Shift(0, 2) == 17
    ensures x[WordIndex(0, 3)] == 0 && Sine(0, 3) == 0xc1bdceee && Shift(0, 3) == 22
  {
  }

  lemma FirstOf1(x: seq<Word>)
    requires AbcBlock(x)
    ensures Steps(Regs(0x67452301, 0xefcdab89, 0x98badcfe, 0x10325476), x, 0, 4) ==
      Regs(0xd6d117b4, 0x7ad956f2, 0x2f6fbd72, 0x344a8432)
  {
    var v := Regs(0x67452301, 0xefcdab89, 0x98badcfe, 0x10325476);
    assert Steps(v, x, 0, 0) == v;
    Rows1a(x);
    hide Steps, Sine, Shift, WordIndex;
    Turn(v, x, 0, 0, 0x67452301, 0xefcdab89, 0x98badcfe, 0x10325476, 0x80636261, 0xd76aa478, 7, 0xd6d117b4);
    Turn(v, x, 0, 1, 0x10325476, 0xd6d117b4, 0xefcdab89, 0x98badcfe, 0, 0xe8c7b756, 12, 0x344a8432);
    Turn(v, x, 0, 2, 0x98badcfe, 0x344a8432, 0xd6d117b4, 0xefcdab89, 0, 0x242070db, 17, 0x2f6fbd72);
    Turn(v, x, 0, 3, 0xefcdab89, 0x2f6fbd72, 0x344a8432, 0xd6d117b4, 0, 0xc1bdceee, 22, 0x7ad956f2);
  }

  lemma Rows1b(x: seq<Word>)
    requires AbcBlock(x)
    ensures x[WordIndex(0, 4)] == 0 && Sine(0, 4) == 0xf57c0faf && Shift(0, 4) == 7
    ensures x[WordIndex(0, 5)] == 0 && Sine(0, 5) == 0x4787c62a && Shift(0, 5) == 12
    ensures x[WordIndex(0, 6)] == 0 && Sine(0, 6) == 0xa8304613 && Shift(0, 6) == 17
    ensures x[WordIndex(0, 7)] == 0 && Sine(0, 7) == 0xfd469501 && Shift(0, 7) == 22
  {
  }

  lemma SecondOf1(x: seq<Word>)
    requires AbcBlock(x)
    ensures Steps(Regs(0x67452301, 0xefcdab89, 0x98badcfe, 0x10325476), x, 0, 8) ==
      Regs(0xc73741ef, 0x928d99f6, 0x207dc67b, 0x8bac3051)
  {
    var v := Regs(0x67452301, 0xefcdab89, 0x98badcfe, 0x10325476);
    FirstOf1(x);
    Rows1b(x);
    hide Steps, Sine, Shift, WordIndex;
    Turn(v, x, 0, 4, 0xd6d117b4, 0x7ad956f2, 0x2f6fbd72, 0x344a8432, 0, 0xf57c0faf, 7, 0xc73741ef);
    Turn(v, x, 0, 5, 0x344a8432, 0xc73741ef, 0x7ad956f2, 0x2f6fbd72, 0, 0x4787c62a, 12, 0x8bac3051);
    Turn(v, x, 0, 6, 0x2f6fbd72, 0x8bac3051, 0xc73741ef, 0x7ad956f2, 0, 0xa8304613, 17, 0x207dc67b);
    Turn(v, x, 0, 7, 0x7ad956f2, 0x207dc67b, 0x8bac3051, 0xc73741ef, 0, 0xfd469501, 22, 0x928d99f6);
  }

  lemma Rows1c(x: seq<Word>)
    requires AbcBlock(x)
    ensures x[WordIndex(0, 8)] == 0 && Sine(0, 8) == 0x698098d8 && Shift(0, 8) == 7
    ensures x[WordIndex(0, 9)] == 0 && Sine(0, 9) == 0x8b44f7af && Shift(0, 9) == 12
    ensures x[WordIndex(0, 10)] == 0 && Sine(0, 10) == 0xffff5bb1 && Shift(0, 10) == 17
    ensures x[WordIndex(0, 11)] == 0 && Sine(0, 11) == 0x895cd7be && Shift(0, 11) == 22
  {
  }

  lemma ThirdOf1(x: seq<Word>)
    requires AbcBlock(x)
    ensures Steps(Regs(0x67452301, 0xefcdab89, 0x98badcfe, 0x10325476), x, 0, 12) ==
      Regs(0x854b3712, 0x5ed49596, 0x3020401c, 0x74e2f284)
  {
    var v := Regs(0x67452301, 0xefcdab89, 0x98badcfe, 0x10325476);
    SecondOf1(x);
    Rows1c(x);
    hide Steps, Sine, Shift, WordIndex;
    Turn(v, x, 0, 8, 0xc73741ef, 0x928d99f6, 0x207dc67b, 0x8bac3051, 0, 0x698098d8, 7, 0x854b3712);
    Turn(v, x, 0, 9, 0x8bac3051, 0x854b3712, 0x928d99f6, 0x207dc67b, 0, 0x8b44f7af, 12, 0x74e2f284);
    Turn(v, x, 0, 10, 0x207dc67b, 0x74e2f284, 0x854b3712, 0x928d99f6, 0, 0xffff5bb1, 17, 0x3020401c);
    Turn(v, x, 0, 11, 0x928d99f6, 0x3020401c, 0x74e2f284, 0x854b3712, 0, 0x895cd7be, 22, 0x5ed49596);
  }

  lemma Rows1d(x: seq<Word>)
    requires AbcBlock(x)
    ensures x[WordIndex(0, 12)] == 0 && Sine(0, 12) == 0x6b901122 && Shift(0, 12) == 7
    ensures x[WordIndex(0, 13)] == 0 && Sine(0, 13) == 0xfd987193 && Shift(0, 13) == 12
    ensures x[WordIndex(0, 14)] == 0x00000018 && Sine(0, 14) == 0xa679438e && Shift(0, 14) == 17
    ensures x[WordIndex(0, 15)] == 0 && Sine(0, 15) == 0x49b40821 && Shift(0, 15) == 22
  {
  }

  lemma Round1(x: seq<Word>)
    requires AbcBlock(x)
    ensures Round(Regs(0x67452301, 0xefcdab89, 0x98badcfe, 0x10325476), x, 0) ==
      Regs(0xdda9b9a6, 0x72aff2e0, 0xe396856b, 0xa1051895)
  {
    var v := Regs(0x67452301, 0xefcdab89, 0x98badcfe, 0x10325476);
    ThirdOf1(x);
    Rows1d(x);
    hide Steps, Sine, Shift, WordIndex;
    Turn(v, x, 0, 12, 0x854b3712, 0x5ed49596, 0x3020401c, 0x74e2f284, 0, 0x6b901122, 7, 0xdda9b9a6);
    Turn(v, x, 0, 13, 0x74e2f284, 0xdda9b9a6, 0x5ed49596, 0x3020401c, 0, 0xfd987193, 12, 0xa1051895);
    Turn(v, x, 0, 14, 0x3020401c, 0xa1051895, 0xdda9b9a6, 0x5ed49596, 0x00000018, 0xa679438e, 17, 0xe396856b);
    Turn(v, x, 0, 15, 0x5ed49596, 0xe396856b, 0xa1051895, 0xdda9b9a6, 0, 0x49b40821, 22, 0x72aff2e0);
  }

  lemma Rows2a(x: seq<Word>)
    requires AbcBlock(x)
    ensures x[WordIndex(1, 0)] == 0 && Sine(1, 0) == 0xf61e2562 && Shift(1, 0) == 5
    ensures x[WordIndex(1, 1)] == 0 && Sine(1, 1) == 0xc040b340 && Shift(1, 1) == 9
    ensures x[WordIndex(1, 2)] == 0 && Sine(1, 2) == 0x265e5a51 && Shift(1, 2) == 14
    ensures x[WordIndex(1, 3)] == 0x80636261 && Sine(1, 3) == 0xe9b6c7aa && Shift(1, 3) == 20
  {
  }

  lemma FirstOf2(x: seq<Word>)
    requires AbcBlock(x)
    ensures Steps(Regs(0xdda9b9a6, 0x72aff2e0, 0xe396856b, 0xa1051895), x, 1, 4) ==
      Regs(0x3e9e9126, 0xb5b204e4, 0xe25e1652, 0x4a1d804e)
  {
    var v := Regs(0xdda9b9a6, 0x72aff2e0, 0xe396856b, 0xa1051895);
    assert Steps(v, x, 1, 0) == v;
    Rows2a(x);
    hide Steps, Sine, Shift, WordIndex;
    Turn(v, x, 1, 0, 0xdda9b9a6, 0x72aff2e0, 0xe396856b, 0xa1051895, 0, 0xf61e2562, 5, 0x3e9e9126);
    Turn(v, x, 1, 1, 0xa1051895, 0x3e9e9126, 0x72aff2e0, 0xe396856b, 0, 0xc040b340, 9, 0x4a1d804e);
    Turn(v, x, 1, 2, 0xe396856b, 0x4a1d804e, 0x3e9e9126, 0x72aff2e0, 0, 0x265e5a51, 14, 0xe25e1652);
    Turn(v, x, 1, 3, 0x72aff2e0, 0xe25e1652, 0x4a1d804e, 0x3e9e9126, 0x80636261, 0xe9b6c7aa, 20, 0xb5b204e4);
  }

  lemma Rows2b(x: seq<Word>)
    requires AbcBlock(x)
    ensures x[WordIndex(1, 4)] == 0 && Sine(1, 4) == 0xd62f105d && Shift(1, 4) == 5
    ensures x[WordIndex(1, 5)] == 0 && Sine(1, 5) == 0x02441453 && Shift(1, 5) == 9
    ensures x[WordIndex(1, 6)] == 0 && Sine(1, 6) == 0xd8a1e681 && Shift(1, 6) == 14
    ensures x[WordIndex(1, 7)] == 0 && Sine(1, 7) == 0xe7d3fbc8 && Shift(1, 7) == 20
  {
  }

  lemma SecondOf2(x: seq<Word>)
    requires AbcBlock(x)
    ensures Steps(Regs(0xdda9b9a6, 0x72aff2e0, 0xe396856b, 0xa1051895), x, 1, 8) ==
      Regs(0x59a8ffda, 0x47092c07, 0xabfc7920, 0x6d002f1e)
  {
    var v := Regs(0xdda9b9a6, 0x72aff2e0, 0xe396856b, 0xa1051895);
    FirstOf2(x);
    Rows2b(x);
    hide Steps, Sine, Shift, WordIndex;
    Turn(v, x, 1, 4, 0x3e9e9126, 0xb5b204e4, 0xe25e1652, 0x4a1d804e, 0, 0xd62f105d, 5, 0x59a8ffda);
    Turn(v, x, 1, 5, 0x4a1d804e, 0x59a8ffda, 0xb5b204e4, 0xe25e1652, 0, 0x02441453, 9, 0x6d002f1e);
    Turn(v, x, 1, 6, 0xe25e1652, 0x6d002f1e, 0x59a8ffda, 0xb5b204e4, 0, 0xd8a1e681, 14, 0xabfc7920);
    Turn(v, x, 1, 7, 0xb5b204e4, 0xabfc7920, 0x6d002f1e, 0x59a8ffda, 0, 0xe7d3fbc8, 20, 0x47092c07);
  }

  lemma Rows2c(x: seq<Word>)
    requires AbcBlock(x)
    ensures x[WordIndex(1, 8)] == 0 && Sine(1, 8) == 0x21e1cde6 && Shift(1, 8) == 5
    ensures x[WordIndex(1, 9)] == 0x00000018 && Sine(1, 9) == 0xc33707d6 && Shift(1, 9) == 9
    ensures x[WordIndex(1, 10)] == 0 && Sine(1, 10) == 0xf4d50d87 && Shift(1, 10) == 14
    ensures x[WordIndex(1, 11)] == 0 && Sine(1, 11) == 0x455a14ed && Shift(1, 11) == 20
  {
  }

  lemma ThirdOf2(x: seq<Word>)
    requires AbcBlock(x)
    ensures Steps(Regs(0xdda9b9a6, 0x72aff2e0, 0xe396856b, 0xa1051895), x, 1, 12) ==
      Regs(0xb7f268cf, 0x786acb8f, 0xfe1623b1, 0x09388eff)
  {
    var v := Regs(0xdda9b9a6, 0x72aff2e0, 0xe396856b, 0xa1051895);
    SecondOf2(x);
    Rows2c(x);
    hide Steps, Sine, Shift, WordIndex;
    Turn(v, x, 1, 8, 0x59a8ffda, 0x47092c07, 0xabfc7920, 0x6d002f1e, 0, 0x21e1cde6, 5, 0xb7f268cf);
    Turn(v, x, 1, 9, 0x6d002f1e, 0xb7f268cf, 0x47092c07, 0xabfc7920, 0x00000018, 0xc33707d6, 9, 0x09388eff);
    Turn(v, x, 1, 10, 0xabfc7920, 0x09388eff, 0xb7f268cf, 0x47092c07, 0, 0xf4d50d87, 14, 0xfe1623b1);
    Turn(v, x, 1, 11, 0x47092c07, 0xfe1623b1, 0x09388eff, 0xb7f268cf, 0, 0x455a14ed, 20, 0x786acb8f);
  }

  lemma Rows2d(x: seq<Word>)
    requires AbcBlock(x)
    ensures x[WordIndex(1, 12)] == 0 && Sine(1, 12) == 0xa9e3e905 && Shift(1, 12) == 5
    ensures x[WordIndex(1, 13)] == 0 && Sine(1, 13) == 0xfcefa3f8 && Shift(1, 13) == 9
    ensures x[WordIndex(1, 14)] == 0 && Sine(1, 14) == 0x676f02d9 && Shift(1, 14) == 14
    ensures x[WordIndex(1, 15)] == 0 && Sine(1, 15) == 0x8d2a4c8a && Shift(1, 15) == 20
  {
  }

  lemma Round2(x: seq<Word>)
    requires AbcBlock(x)
    ensures Round(Regs(0xdda9b9a6, 0x72aff2e0, 0xe396856b, 0xa1051895), x, 1) ==
      Regs(0x790a77fb, 0x726342d3, 0xa62884aa, 0x9f47e4f8)
  {
    var v := Regs(0xdda9b9a6, 0x72aff2e0, 0xe396856b, 0xa1051895);
    ThirdOf2(x);
    Rows2d(x);
    hide Steps, Sine, Shift, WordIndex;
    Turn(v, x, 1, 12, 0xb7f268cf, 0x786acb8f, 0xfe1623b1, 0x09388eff, 0, 0xa9e3e905, 5, 0x790a77fb);
    Turn(v, x, 1, 13, 0x09388eff, 0x790a77fb, 0x786acb8f, 0xfe1623b1, 0, 0xfcefa3f8, 9, 0x9f47e4f8);
    Turn(v, x, 1, 14, 0xfe1623b1, 0x9f47e4f8, 0x790a77fb, 0x786acb8f, 0, 0x676f02d9, 14, 0xa62884aa);
    Turn(v, x, 1, 15, 0x786acb8f, 0xa62884aa, 0x9f47e4f8, 0x790a77fb, 0, 0x8d2a4c8a, 20, 0x726342d3);
  }

  lemma Rows3a(x: seq<Word>)
    requires AbcBlock(x)
    ensures x[WordIndex(2, 0)] == 0 && Sine(2, 0) == 0xfffa3942 && Shift(2, 0) == 4
    ensures x[WordIndex(2, 1)] == 0 && Sine(2, 1) == 0x8771f681 && Shift(2, 1) == 11
    ensures x[WordIndex(2, 2)] == 0 && Sine(2, 2) == 0x6d9d6122 && Shift(2, 2) == 16
    ensures x[WordIndex(2, 3)] == 0x00000018 && Sine(2, 3) == 0xfde5380c && Shift(2, 3) == 23
  {
  }

  lemma FirstOf3(x: seq<Word>)
    requires AbcBlock(x)
    ensures Steps(Regs(0x790a77fb, 0x726342d3, 0xa62884aa, 0x9f47e4f8), x, 2, 4) ==
      Regs(0xb3707ebf, 0x3b0875c7, 0x8d212ff5, 0x60127b2e)
  {
    var v := Regs(0x790a77fb, 0x726342d3, 0xa62884aa, 0x9f47e4f8);
    assert Steps(v, x, 2, 0) == v;
    Rows3a(x);
    hide Steps, Sine, Shift, WordIndex;
    Turn(v, x, 2, 0, 0x790a77fb, 0x726342d3, 0xa62884aa, 0x9f47e4f8, 0, 0xfffa3942, 4, 0xb3707ebf);
    Turn(v, x, 2, 1, 0x9f47e4f8, 0xb3707ebf, 0x726342d3, 0xa62884aa, 0, 0x8771f681, 11, 0x60127b2e);
    Turn(v, x, 2, 2, 0xa62884aa, 0x60127b2e, 0xb3707ebf, 0x726342d3, 0, 0x6d9d6122, 16, 0x8d212ff5);
    Turn(v, x, 2, 3, 0x726342d3, 0x8d212ff5, 0x60127b2e, 0xb3707ebf, 0x00000018, 0xfde5380c, 23, 0x3b0875c7);
  }

  lemma Rows3b(x: seq<Word>)
    requires AbcBlock(x)
    ensures x[WordIndex(2, 4)] == 0 && Sine(2, 4) == 0xa4beea44 && Shift(2, 4) == 4
    ensures x[WordIndex(2, 5)] == 0 && Sine(2, 5) == 0x4bdecfa9 && Shift(2, 5) == 11
    ensures x[WordIndex(2, 6)] == 0 && Sine(2, 6) == 0xf6bb4b60 && Shift(2, 6) == 16
    ensures x[WordIndex(2, 7)] == 0 && Sine(2, 7) == 0xbebfbc70 && Shift(2, 7) == 23
  {
  }

  lemma SecondOf3(x: seq<Word>)
    requires AbcBlock(x)
    ensures Steps(Regs(0x790a77fb, 0x726342d3, 0xa62884aa, 0x9f47e4f8), x, 2, 8) ==
      Regs(0x21b117b9, 0x5a2f5ea5, 0x3575227e, 0x6e7429d5)
  {
    var v := Regs(0x790a77fb, 0x726342d3, 0xa62884aa, 0x9f47e4f8);
    FirstOf3(x);
    Rows3b(x);
    hide Steps, Sine, Shift, WordIndex;
    Turn(v, x, 2, 4, 0xb3707ebf, 0x3b0875c7, 0x8d212ff5, 0x60127b2e, 0, 0xa4beea44, 4, 0x21b117b9);
    Turn(v, x, 2, 5, 0x60127b2e, 0x21b117b9, 0x3b0875c7, 0x8d212ff5, 0, 0x4bdecfa9, 11, 0x6e7429d5);
    Turn(v, x, 2, 6, 0x8d212ff5, 0x6e7429d5, 0x21b117b9, 0x3b0875c7, 0, 0xf6bb4b60, 16, 0x3575227e);
    Turn(v, x, 2, 7, 0x3b0875c7, 0x3575227e, 0x6e7429d5, 0x21b117b9, 0, 0xbebfbc70, 23, 0x5a2f5ea5);
  }

  lemma Rows3c(x: seq<Word>)
    requires AbcBlock(x)
    ensures x[WordIndex(2, 8)] == 0 && Sine(2, 8) == 0x289b7ec6 && Shift(2, 8) == 4
    ensures x[WordIndex(2, 9)] == 0x80636261 && Sine(2, 9) == 0xeaa127fa && Shift(2, 9) == 11
    ensures x[WordIndex(2, 10)] == 0 && Sine(2, 10) == 0xd4ef3085 && Shift(2, 10) == 16
    ensures x[WordIndex(2, 11)] == 0 && Sine(2, 11) == 0x04881d05 && Shift(2, 11) == 23
  {
  }

  lemma ThirdOf3(x: seq<Word>)
    requires AbcBlock(x)
    ensures Steps(Regs(0x790a77fb, 0x726342d3, 0xa62884aa, 0x9f47e4f8), x, 2, 12) ==
      Regs(0x11de1779, 0x4c6124f4, 0x31c465ca, 0xfadcaa38)
  {
    var v := Regs(0x790a77fb, 0x726342d3, 0xa62884aa, 0x9f47e4f8);
    SecondOf3(x);
    Rows3c(x);
    hide Steps, Sine, Shift, WordIndex;
    Turn(v, x, 2, 8, 0x21b117b9, 0x5a2f5ea5, 0x3575227e, 0x6e7429d5, 0, 0x289b7ec6, 4, 0x11de1779);
    Turn(v, x, 2, 9, 0x6e7429d5, 0x11de1779, 0x5a2f5ea5, 0x3575227e, 0x80636261, 0xeaa127fa, 11, 0xfadcaa38);
    Turn(v, x, 2, 10, 0x3575227e, 0xfadcaa38, 0x11de1779, 0x5a2f5ea5, 0, 0xd4ef3085, 16, 0x31c465ca);
    Turn(v, x, 2, 11, 0x5a2f5ea5, 0x31c465ca, 0xfadcaa38, 0x11de1779, 0, 0x04881d05, 23, 0x4c6124f4);
  }

  lemma Rows3d(x: seq<Word>)
    requires AbcBlock(x)
    ensures x[WordIndex(2, 12)] == 0 && Sine(2, 12) == 0xd9d4d039 && Shift(2, 12) == 4
    ensures x[WordIndex(2, 13)] == 0 && Sine(2, 13) == 0xe6db99e5 && Shift(2, 13) == 11
    ensures x[WordIndex(2, 14)] == 0 && Sine(2, 14) == 0x1fa27cf8 && Shift(2, 14) == 16
    ensures x[WordIndex(2, 15)] == 0 && Sine(2, 15) == 0xc4ac5665 && Shift(2, 15) == 23
  {
  }

  lemma Round3(x: seq<Word>)
    requires AbcBlock(x)
    ensures Round(Regs(0x790a77fb, 0x726342d3, 0xa62884aa, 0x9f47e4f8), x, 2) ==
      Regs(0x7f2e507b, 0x7beb9700, 0x8fae6399, 0x99d9679d)
  {
    var v := Regs(0x790a77fb, 0x726342d3, 0xa62884aa, 0x9f47e4f8);
    ThirdOf3(x);
    Rows3d(x);
    hide Steps, Sine, Shift, WordIndex;
    Turn(v, x, 2, 12, 0x11de1779, 0x4c6124f4, 0x31c465ca, 0xfadcaa38, 0, 0xd9d4d039, 4, 0x7f2e507b);
    Turn(v, x, 2, 13, 0xfadcaa38, 0x7f2e507b, 0x4c6124f4, 0x31c465ca, 0, 0xe6db99e5, 11, 0x99d9679d);
    Turn(v, x, 2, 14, 0x31c465ca, 0x99d9679d, 0x7f2e507b, 0x4c6124f4, 0, 0x1fa27cf8, 16, 0x8fae6399);
    Turn(v, x, 2, 15, 0x4c6124f4, 0x8fae6399, 0x99d9679d, 0x7f2e507b, 0, 0xc4ac5665, 23, 0x7beb9700);
  }

  lemma Rows4a(x: seq<Word>)
    requires AbcBlock(x)
    ensures x[WordIndex(3, 0)] == 0x80636261 && Sine(3, 0) == 0xf4292244 && Shift(3, 0) == 6
    ensures x[WordIndex(3, 1)] == 0 && Sine(3, 1) == 0x432aff97 && Shift(3, 1) == 10
    ensures x[WordIndex(3, 2)] == 0x00000018 && Sine(3, 2) == 0xab9423a7 && Shift(3, 2) == 15
    ensures x[WordIndex(3, 3)] == 0 && Sine(3, 3) == 0xfc93a039 && Shift(3, 3) == 21
  {
  }

  lemma FirstOf4(x: seq<Word>)
    requires AbcBlock(x)
    ensures Steps(Regs(0x7f2e507b, 0x7beb9700, 0x8fae6399, 0x99d9679d), x, 3, 4) ==
      Regs(0x7b201df8, 0x8bf025c4, 0xb298cefd, 0xf4e8e96e)
  {
    var v := Regs(0x7f2e507b, 0x7beb9700, 0x8fae6399, 0x99d9679d);
    assert Steps(v, x, 3, 0) == v;
    Rows4a(x);
    hide Steps, Sine, Shift, WordIndex;
    Turn(v, x, 3, 0, 0x7f2e507b, 0x7beb9700, 0x8fae6399, 0x99d9679d, 0x80636261, 0xf4292244, 6, 0x7b201df8);
    Turn(v, x, 3, 1, 0x99d9679d, 0x7b201df8, 0x7beb9700, 0x8fae6399, 0, 0x432aff97, 10, 0xf4e8e96e);
    Turn(v, x, 3, 2, 0x8fae6399, 0xf4e8e96e, 0x7b201df8, 0x7beb9700, 0x00000018, 0xab9423a7, 15, 0xb298cefd);
    Turn(v, x, 3, 3, 0x7beb9700, 0xb298cefd, 0xf4e8e96e, 0x7b201df8, 0, 0xfc93a039, 21, 0x8bf025c4);
  }

  lemma Rows4b(x: seq<Word>)
    requires AbcBlock(x)
    ensures x[WordIndex(3, 4)] == 0 && Sine(3, 4) == 0x655b59c3 && Shift(3, 4) == 6
    ensures x[WordIndex(3, 5)] == 0 && Sine(3, 5) == 0x8f0ccc92 && Shift(3, 5) == 10
    ensures x[WordIndex(3, 6)] == 0 && Sine(3, 6) == 0xffeff47d && Shift(3, 6) == 15
    ensures x[WordIndex(3, 7)] == 0 && Sine(3, 7) == 0x85845dd1 && Shift(3, 7) == 21
  {
  }

  lemma SecondOf4(x: seq<Word>)
    requires AbcBlock(x)
    ensures Steps(Regs(0x7f2e507b, 0x7beb9700, 0x8fae6399, 0x99d9679d), x, 3, 8) ==
      Regs(0x06cc5e8a, 0x3bfa2c27, 0x7d632dd0, 0x5b0d97aa)
  {
    var v := Regs(0x7f2e507b, 0x7beb9700, 0x8fae6399, 0x99d9679d);
    FirstOf4(x);
    Rows4b(x);
    hide Steps, Sine, Shift, WordIndex;
    Turn(v, x, 3, 4, 0x7b201df8, 0x8bf025c4, 0xb298cefd, 0xf4e8e96e, 0, 0x655b59c3, 6, 0x06cc5e8a);
    Turn(v, x, 3, 5, 0xf4e8e96e, 0x06cc5e8a, 0x8bf025c4, 0xb298cefd, 0, 0x8f0ccc92, 10, 0x5b0d97aa);
    Turn(v, x, 3, 6, 0xb298cefd, 0x5b0d97aa, 0x06cc5e8a, 0x8bf025c4, 0, 0xffeff47d, 15, 0x7d632dd0);
    Turn(v, x, 3, 7, 0x8bf025c4, 0x7d632dd0, 0x5b0d97aa, 0x06cc5e8a, 0, 0x85845dd1, 21, 0x3bfa2c27);
  }

  lemma Rows4c(x: seq<Word>)
    requires AbcBlock(x)
    ensures x[WordIndex(3, 8)] == 0 && Sine(3, 8) == 0x6fa87e4f && Shift(3, 8) == 6
    ensures x[WordIndex(3, 9)] == 0 && Sine(3, 9) == 0xfe2ce6e0 && Shift(3, 9) == 10
    ensures x[WordIndex(3, 10)] == 0 && Sine(3, 10) == 0xa3014314 && Shift(3, 10) == 15
    ensures x[WordIndex(3, 11)] == 0 && Sine(3, 11) == 0x4e0811a1 && Shift(3, 11) == 21
  {
  }

  lemma ThirdOf4(x: seq<Word>)
    requires AbcBlock(x)
    ensures Steps(Regs(0x7f2e507b, 0x7beb9700, 0x8fae6399, 0x99d9679d), x, 3, 12) ==
      Regs(0x7f81cc35, 0x7327d604, 0x4f9dbe3f, 0x094454ab)
  {
    var v := Regs(0x7f2e507b, 0x7beb9700, 0x8fae6399, 0x99d9679d);
    SecondOf4(x);
    Rows4c(x);
    hide Steps, Sine, Shift, WordIndex;
    Turn(v, x, 3, 8, 0x06cc5e8a, 0x3bfa2c27, 0x7d632dd0, 0x5b0d97aa, 0, 0x6fa87e4f, 6, 0x7f81cc35);
    Turn(v, x, 3, 9, 0x5b0d97aa, 0x7f81cc35, 0x3bfa2c27, 0x7d632dd0, 0, 0xfe2ce6e0, 10, 0x094454ab);
    Turn(v, x, 3, 10, 0x7d632dd0, 0x094454ab, 0x7f81cc35, 0x3bfa2c27, 0, 0xa3014314, 15, 0x4f9dbe3f);
    Turn(v, x, 3, 11, 0x3bfa2c27, 0x4f9dbe3f, 0x094454ab, 0x7f81cc35, 0, 0x4e0811a1, 21, 0x7327d604);
  }

  lemma Rows4d(x: seq<Word>)
    requires AbcBlock(x)
    ensures x[WordIndex(3, 12)] == 0 && Sine(3, 12) == 0xf7537e82 && Shift(3, 12) == 6
    ensures x[WordIndex(3, 13)] == 0 && Sine(3, 13) == 0xbd3af235 && Shift(3, 13) == 10
    ensures x[WordIndex(3, 14)] == 0 && Sine(3, 14) == 0x2ad7d2bb && Shift(3, 14) == 15
    ensures x[WordIndex(3, 15)] == 0 && Sine(3, 15) == 0xeb86d391 && Shift(3, 15) == 21
  {
  }

  lemma Round4(x: seq<Word>)
    requires AbcBlock(x)
    ensures Round(Regs(0x7f2e507b, 0x7beb9700, 0x8fae6399, 0x99d9679d), x, 3) ==
      Regs(0x310ade8f, 0xc08226b3, 0xe484b9d8, 0x624d8cb2)
  {
    var v := Regs(0x7f2e507b, 0x7beb9700, 0x8fae6399, 0x99d9679d);
    ThirdOf4(x);
    Rows4d(x);
    hide Steps, Sine, Shift, WordIndex;
    Turn(v, x, 3, 12, 0x7f81cc35, 0x7327d604, 0x4f9dbe3f, 0x094454ab, 0, 0xf7537e82, 6, 0x310ade8f);
    Turn(v, x, 3, 13, 0x094454ab, 0x310ade8f, 0x7327d604, 0x4f9dbe3f, 0, 0xbd3af235, 10, 0x624d8cb2);
    Turn(v, x, 3, 14, 0x4f9dbe3f, 0x624d8cb2, 0x310ade8f, 0x7327d604, 0, 0x2ad7d2bb, 15, 0xe484b9d8);
    Turn(v, x, 3, 15, 0x7327d604, 0xe484b9d8, 0x624d8cb2, 0x310ade8f, 0, 0xeb86d391, 21, 0xc08226b3);
  }

  // ----- the digest -----

  lemma LengthOfAbc()
    ensures LittleEndian(24, 8) == [0x18, 0, 0, 0, 0, 0, 0, 0]
  {
    assert LittleEndian(0, 3) == [0, 0, 0];
    assert LittleEndian(0, 5) == [0, 0] + LittleEndian(0, 3);
    assert LittleEndian(0, 7) == [0, 0] + LittleEndian(0, 5);
  }

  lemma AbcPadded()
    ensures |Padded(ABC)| == 64 && AbcBlock(Words(Padded(ABC)))
  {
    hide LittleEndian;
    LengthOfAbc();
    var p := Padded(ABC);
    assert p[0] == 0x61 && p[1] == 0x62 && p[2] == 0x63 && p[3] == 0x80;
    assert forall i :: 4 <= i < 64 && i != 56 ==> p[i] == 0;
    assert p[56] == 0x18;
    PaddedWords(p);
  }

  lemma PaddedWords(p: seq<Byte>)
    requires |p| == 64 && p[0] == 0x61 && p[1] == 0x62 && p[2] == 0x63 && p[3] == 0x80 && p[56] == 0x18
    requires forall i :: 4 <= i < 64 && i != 56 ==> p[i] == 0
    ensures AbcBlock(Words(p))
  {
    assert WordOf(0x61, 0x62, 0x63, 0x80) == 0x80636261;
    assert WordOf(0, 0, 0, 0) == 0 && WordOf(0x18, 0, 0, 0) == 0x18;
    hide WordOf;
    assert forall j :: 1 <= j < 16 && j != 14 ==> Words(p)[j] == WordOf(0, 0, 0, 0);
  }

  lemma AbcState(p: seq<Byte>)
    requires |p| == 64 && AbcBlock(Words(p))
    ensures Compress(Initial(), p) == Regs(0x98500190, 0xb04fd23c, 0x7d3f96d6, 0x727fe128)
  {
    hide Round, Words;
    Round1(Words(p));
    Round2(Words(p));
    Round3(Words(p));
    Round4(Words(p));
  }

  lemma OneBlock(v: Regs, p: seq<Byte>)
    requires |p| == 64
    ensures Absorb(v, p) == Compress(v, p)
  {
    hide Compress;
    assert p[..0] == [] && p[0..] == p;
    assert Absorb(v, p[..0]) == v;
  }

  lemma DigestBytes()
    ensures BytesOf(0x98500190) == [0x90, 0x01, 0x50, 0x98]
    ensures BytesOf(0xb04fd23c) == [0x3c, 0xd2, 0x4f, 0xb0]
    ensures BytesOf(0x7d3f96d6) == [0xd6, 0x96, 0x3f, 0x7d]
    ensures BytesOf(0x727fe128) == [0x28, 0xe1, 0x7f, 0x72]
  {
  }

  /** The digest of "abc" is the published one. */
  lemma DigestOfAbc()
    ensures Digest(ABC) ==
      [0x90, 0x01, 0x50, 0x98, 0x3c, 0xd2, 0x4f, 0xb0, 0xd6, 0x96, 0x3f, 0x7d, 0x28, 0xe1, 0x7f, 0x72]
  {
    hide Padded, Words, Absorb, Initial, Compress, BytesOf;
    AbcPadded();
    OneBlock(Initial(), Padded(ABC));
    AbcState(Padded(ABC));
    DigestBytes();
  }
}
