/** SHA-256 as FIPS 180-4 defines it. */
module Fips180 {
  import opened Bytes

  // ----- functions, section 4.1.2 of FIPS 180-4 -----

  function Sum5(h: Word, s1: Word, ch: Word, k: Word, w: Word): Word {
    h + s1 + ch + k + w
  }

  function Rotr(x: Word, n: Word): Word
    requires 0 < n < 32
  {
    (x >> n) | (x << (32 - n))
  }

  function Ch(x: Word, y: Word, z: Word): Word {
    (x & y) ^ (!x & z)
  }

  function Maj(x: Word, y: Word, z: Word): Word {
    (x & y) ^ (x & z) ^ (y & z)
  }

  function BigSigma0(x: Word): Word {
    Rotr(x, 2) ^ Rotr(x, 13) ^ Rotr(x, 22)
  }

  function BigSigma1(x: Word): Word {
    Rotr(x, 6) ^ Rotr(x, 11) ^ Rotr(x, 25)
  }

  function SmallSigma0(x: Word): Word {
    Rotr(x, 7) ^ Rotr(x, 18) ^ (x >> 3)
  }

  function SmallSigma1(x: Word): Word {
    Rotr(x, 17) ^ Rotr(x, 19) ^ (x >> 10)
  }

  // ----- constants, sections 4.2.2 and 5.3.3 -----

  function K(t: nat): Word
    requires t < 64
  {
    if t < 16 then Keys1(t) else if t < 32 then Keys2(t - 16) else if t < 48 then Keys3(t - 32) else Keys4(t - 48)
  }

  function Keys1(i: nat): Word
    requires i < 16
  {
    match i
    case 0 => 0x428a2f98 case 1 => 0x71374491 case 2 => 0xb5c0fbcf case 3 => 0xe9b5dba5
    case 4 => 0x3956c25b case 5 => 0x59f111f1 case 6 => 0x923f82a4 case 7 => 0xab1c5ed5
    case 8 => 0xd807aa98 case 9 => 0x12835b01 case 10 => 0x243185be case 11 => 0x550c7dc3
    case 12 => 0x72be5d74 case 13 => 0x80deb1fe case 14 => 0x9bdc06a7 case _ => 0xc19bf174
  }

  function Keys2(i: nat): Word
    requires i < 16
  {
    match i
    case 0 => 0xe49b69c1 case 1 => 0xefbe4786 case 2 => 0x0fc19dc6 case 3 => 0x240ca1cc
    case 4 => 0x2de92c6f case 5 => 0x4a7484aa case 6 => 0x5cb0a9dc case 7 => 0x76f988da
    case 8 => 0x983e5152 case 9 => 0xa831c66d case 10 => 0xb00327c8 case 11 => 0xbf597fc7
    case 12 => 0xc6e00bf3 case 13 => 0xd5a79147 case 14 => 0x06ca6351 case _ => 0x14292967
  }

  function Keys3(i: nat): Word
    requires i < 16
  {
    match i
    case 0 => 0x27b70a85 case 1 => 0x2e1b2138 case 2 => 0x4d2c6dfc case 3 => 0x53380d13
    case 4 => 0x650a7354 case 5 => 0x766a0abb case 6 => 0x81c2c92e case 7 => 0x92722c85
    case 8 => 0xa2bfe8a1 case 9 => 0xa81a664b case 10 => 0xc24b8b70 case 11 => 0xc76c51a3
    case 12 => 0xd192e819 case 13 => 0xd6990624 case 14 => 0xf40e3585 case _ => 0x106aa070
  }

  function Keys4(i: nat): Word
    requires i < 16
  {
    match i
    case 0 => 0x19a4c116 case 1 => 0x1e376c08 case 2 => 0x2748774c case 3 => 0x34b0bcb5
    case 4 => 0x391c0cb3 case 5 => 0x4ed8aa4a case 6 => 0x5b9cca4f case 7 => 0x682e6ff3
    case 8 => 0x748f82ee case 9 => 0x78a5636f case 10 => 0x84c87814 case 11 => 0x8cc70208
    case 12 => 0x90befffa case 13 => 0xa4506ceb case 14 => 0xbef9a3f7 case _ => 0xc67178f2
  }

  /** A round constant as a number. */
  function Constant(t: nat): nat
    requires t < 64
  {
    K(t) as nat
  }

  /** The first 64 prime numbers. */
  function Prime(t: nat): nat
    requires t < 64
  {
    match t
    case 0 => 2 case 1 => 3 case 2 => 5 case 3 => 7 case 4 => 11 case 5 => 13 case 6 => 17
    case 7 => 19 case 8 => 23 case 9 => 29 case 10 => 31 case 11 => 37 case 12 => 41 case 13 => 43
    case 14 => 47 case 15 => 53 case 16 => 59 case 17 => 61 case 18 => 67 case 19 => 71 case 20 => 73
    case 21 => 79 case 22 => 83 case 23 => 89 case 24 => 97 case 25 => 101 case 26 => 103 case 27 => 107
    case 28 => 109 case 29 => 113 case 30 => 127 case 31 => 131 case 32 => 137 case 33 => 139 case 34 => 149
    case 35 => 151 case 36 => 157 case 37 => 163 case 38 => 167 case 39 => 173 case 40 => 179 case 41 => 181
    case 42 => 191 case 43 => 193 case 44 => 197 case 45 => 199 case 46 => 211 case 47 => 223 case 48 => 227
    case 49 => 229 case 50 => 233 case 51 => 239 case 52 => 241 case 53 => 251 case 54 => 257 case 55 => 263
    case 56 => 269 case 57 => 271 case 58 => 277 case 59 => 281 case 60 => 283 case 61 => 293 case 62 => 307
    case _ => 311
  }

  function Initial(): (h: seq<Word>)
    ensures |h| == 8
  {
    [0x6a09e667, 0xbb67ae85, 0x3c6ef372, 0xa54ff53a, 0x510e527f, 0x9b05688c, 0x1f83d9ab, 0x5be0cd19]
  }

  // ----- bytes and words, section 3.1 -----

  function WordOf(b0: Byte, b1: Byte, b2: Byte, b3: Byte): Word {
    ((b0 as Word) << 24) | ((b1 as Word) << 16) | ((b2 as Word) << 8) | (b3 as Word)
  }

  function Words(block: seq<Byte>): (m: seq<Word>)
    requires |block| == 64
    ensures |m| == 16
  {
    seq(16, j requires 0 <= j < 16 => WordOf(block[4 * j], block[4 * j + 1], block[4 * j + 2], block[4 * j + 3]))
  }

  function BytesOf(u: Word): (b: seq<Byte>)
    ensures |b| == 4
  {
    [((u >> 24) & 0xff) as Byte, ((u >> 16) & 0xff) as Byte, ((u >> 8) & 0xff) as Byte, (u & 0xff) as Byte]
  }

  function Encode(h: seq<Word>): (b: seq<Byte>)
    ensures |b| == 4 * |h|
  {
    if h == [] then [] else Encode(h[..|h| - 1]) + BytesOf(h[|h| - 1])
  }

  /** A length as a 64-bit big-endian block. */
  function LengthBlock(n: nat): (b: seq<Byte>)
    requires n < 0x1_0000_0000_0000_0000
    ensures |b| == 8
  {
    BytesOf((n / 0x1_0000_0000) as Word) + BytesOf((n % 0x1_0000_0000) as Word)
  }

  // ----- the hash computation, section 6.2.2 -----

  function Schedule(m: seq<Word>, t: nat): Word
    requires |m| == 16
  {
    if t < 16 then m[t]
    else ScheduleStep(Schedule(m, t - 2), Schedule(m, t - 7), Schedule(m, t - 15), Schedule(m, t - 16))
  }

  function ScheduleStep(w2: Word, w7: Word, w15: Word, w16: Word): Word {
    SmallSigma1(w2) + w7 + SmallSigma0(w15) + w16
  }

  datatype Vars = Vars(a: Word, b: Word, c: Word, d: Word, e: Word, f: Word, g: Word, h: Word)

  function Round(v: Vars, k: Word, w: Word): Vars {
    var t1 := Sum5(v.h, BigSigma1(v.e), Ch(v.e, v.f, v.g), k, w);
    var t2 := Plus(BigSigma0(v.a), Maj(v.a, v.b, v.c));
    Vars(Plus(t1, t2), v.a, v.b, v.c, Plus(v.d, t1), v.e, v.f, v.g)
  }

  function Rounds(v: Vars, m: seq<Word>, t: nat): Vars
    requires |m| == 16 && t <= 64
  {
    if t == 0 then v else Round(Rounds(v, m, t - 1), K(t - 1), Schedule(m, t - 1))
  }

  function Load(h: seq<Word>): Vars
    requires |h| == 8
  {
    Vars(h[0], h[1], h[2], h[3], h[4], h[5], h[6], h[7])
  }

  function Add(h: seq<Word>, v: Vars): (r: seq<Word>)
    requires |h| == 8
    ensures |r| == 8
  {
    [Plus(h[0], v.a), Plus(h[1], v.b), Plus(h[2], v.c), Plus(h[3], v.d),
     Plus(h[4], v.e), Plus(h[5], v.f), Plus(h[6], v.g), Plus(h[7], v.h)]
  }

  function Compress(h: seq<Word>, block: seq<Byte>): (r: seq<Word>)
    requires |h| == 8 && |block| == 64
    ensures |r| == 8
  {
    Add(h, Rounds(Load(h), Words(block), 64))
  }

  /** All blocks of the data, one after the other. */
  function Absorb(h: seq<Word>, data: seq<Byte>): (r: seq<Word>)
    requires |h| == 8 && |data| % 64 == 0
    ensures |r| == 8
  {
    if |data| == 0 then h
    else Compress(Absorb(h, data[..|data| - 64]), data[|data| - 64..])
  }

  // ----- padding, section 5.1.1 -----

  /** The message, a one bit, zero bits, and its length in bits; the standard
      defines this for lengths below 2^64, where BitLength is the length itself. */
  function Padded(msg: seq<Byte>): (p: seq<Byte>)
    ensures |p| % 64 == 0
  {
    msg + [0x80] + Zeros(ZeroCount(|msg|)) + LengthBlock(BitLength(|msg|))
  }

  function Digest(msg: seq<Byte>): (d: seq<Byte>)
    ensures |d| == 32
  {
    Encode(Absorb(Initial(), Padded(msg)))
  }

  // ----- properties of the definitions -----

  /** Decoding the four bytes of a word gives the word. */
  lemma WordRoundTrip(u: Word)
    ensures var b := BytesOf(u); WordOf(b[0], b[1], b[2], b[3]) == u
  {
  }

  /** Section 4.2.2: k is the first 32 bits of the fractional part of the cube
      root of n, whose integer part is `whole`. */
  ghost predicate CubeRootFraction(n: nat, whole: nat, k: nat) {
    var root := whole * 0x1_0000_0000 + k;
    root * root * root <= n * 0x1_0000_0000_0000_0000_0000_0000 < (root + 1) * (root + 1) * (root + 1)
  }

  function Whole(n: nat): nat {
    if n < 8 then 1 else if n < 27 then 2 else if n < 64 then 3 else if n < 125 then 4 else if n < 216 then 5 else 6
  }

  lemma Known(t: nat, k: Word, n: nat)
    requires t < 64 && K(t) == k && k as nat == n
    ensures Constant(t) == n
  {
  }

  lemma Constants1(t: nat)
    requires 0 <= t < 8
    ensures CubeRootFraction(Prime(t), Whole(Prime(t)), Constant(t))
  {
    hide Constant;
    match t
    case 0 => Known(t, 0x428a2f98, 0x428a2f98);
    case 1 => Known(t, 0x71374491, 0x71374491);
    case 2 => Known(t, 0xb5c0fbcf, 0xb5c0fbcf);
    case 3 => Known(t, 0xe9b5dba5, 0xe9b5dba5);
    case 4 => Known(t, 0x3956c25b, 0x3956c25b);
    case 5 => Known(t, 0x59f111f1, 0x59f111f1);
    case 6 => Known(t, 0x923f82a4, 0x923f82a4);
    case _ => Known(t, 0xab1c5ed5, 0xab1c5ed5);
  }

  lemma Constants2(t: nat)
    requires 8 <= t < 16
    ensures CubeRootFraction(Prime(t), Whole(Prime(t)), Constant(t))
  {
    hide Constant;
    match t
    case 8 => Known(t, 0xd807aa98, 0xd807aa98);
    case 9 => Known(t, 0x12835b01, 0x12835b01);
    case 10 => Known(t, 0x243185be, 0x243185be);
    case 11 => Known(t, 0x550c7dc3, 0x550c7dc3);
    case 12 => Known(t, 0x72be5d74, 0x72be5d74);
    case 13 => Known(t, 0x80deb1fe, 0x80deb1fe);
    case 14 => Known(t, 0x9bdc06a7, 0x9bdc06a7);
    case _ => Known(t, 0xc19bf174, 0xc19bf174);
  }

  lemma Constants3(t: nat)
    requires 16 <= t < 24
    ensures CubeRootFraction(Prime(t), Whole(Prime(t)), Constant(t))
  {
    hide Constant;
    match t
    case 16 => Known(t, 0xe49b69c1, 0xe49b69c1);
    case 17 => Known(t, 0xefbe4786, 0xefbe4786);
    case 18 => Known(t, 0x0fc19dc6, 0x0fc19dc6);
    case 19 => Known(t, 0x240ca1cc, 0x240ca1cc);
    case 20 => Known(t, 0x2de92c6f, 0x2de92c6f);
    case 21 => Known(t, 0x4a7484aa, 0x4a7484aa);
    case 22 => Known(t, 0x5cb0a9dc, 0x5cb0a9dc);
    case _ => Known(t, 0x76f988da, 0x76f988da);
  }

  lemma Constants4(t: nat)
    requires 24 <= t < 32
    ensures CubeRootFraction(Prime(t), Whole(Prime(t)), Constant(t))
  {
    hide Constant;
    match t
    case 24 => Known(t, 0x983e5152, 0x983e5152);
    case 25 => Known(t, 0xa831c66d, 0xa831c66d);
    case 26 => Known(t, 0xb00327c8, 0xb00327c8);
    case 27 => Known(t, 0xbf597fc7, 0xbf597fc7);
    case 28 => Known(t, 0xc6e00bf3, 0xc6e00bf3);
    case 29 => Known(t, 0xd5a79147, 0xd5a79147);
    case 30 => Known(t, 0x06ca6351, 0x06ca6351);
    case _ => Known(t, 0x14292967, 0x14292967);
  }

  lemma Constants5(t: nat)
    requires 32 <= t < 40
    ensures CubeRootFraction(Prime(t), Whole(Prime(t)), Constant(t))
  {
    hide Constant;
    match t
    case 32 => Known(t, 0x27b70a85, 0x27b70a85);
    case 33 => Known(t, 0x2e1b2138, 0x2e1b2138);
    case 34 => Known(t, 0x4d2c6dfc, 0x4d2c6dfc);
    case 35 => Known(t, 0x53380d13, 0x53380d13);
    case 36 => Known(t, 0x650a7354, 0x650a7354);
    case 37 => Known(t, 0x766a0abb, 0x766a0abb);
    case 38 => Known(t, 0x81c2c92e, 0x81c2c92e);
    case _ => Known(t, 0x92722c85, 0x92722c85);
  }

  lemma Constants6(t: nat)
    requires 40 <= t < 48
    ensures CubeRootFraction(Prime(t), Whole(Prime(t)), Constant(t))
  {
    hide Constant;
    match t
    case 40 => Known(t, 0xa2bfe8a1, 0xa2bfe8a1);
    case 41 => Known(t, 0xa81a664b, 0xa81a664b);
    case 42 => Known(t, 0xc24b8b70, 0xc24b8b70);
    case 43 => Known(t, 0xc76c51a3, 0xc76c51a3);
    case 44 => Known(t, 0xd192e819, 0xd192e819);
    case 45 => Known(t, 0xd6990624, 0xd6990624);
    case 46 => Known(t, 0xf40e3585, 0xf40e3585);
    case _ => Known(t, 0x106aa070, 0x106aa070);
  }

  lemma Constants7(t: nat)
    requires 48 <= t < 56
    ensures CubeRootFraction(Prime(t), Whole(Prime(t)), Constant(t))
  {
    hide Constant;
    match t
    case 48 => Known(t, 0x19a4c116, 0x19a4c116);
    case 49 => Known(t, 0x1e376c08, 0x1e376c08);
    case 50 => Known(t, 0x2748774c, 0x2748774c);
    case 51 => Known(t, 0x34b0bcb5, 0x34b0bcb5);
    case 52 => Known(t, 0x391c0cb3, 0x391c0cb3);
    case 53 => Known(t, 0x4ed8aa4a, 0x4ed8aa4a);
    case 54 => Known(t, 0x5b9cca4f, 0x5b9cca4f);
    case _ => Known(t, 0x682e6ff3, 0x682e6ff3);
  }

  lemma Constants8(t: nat)
    requires 56 <= t < 64
    ensures CubeRootFraction(Prime(t), Whole(Prime(t)), Constant(t))
  {
    hide Constant;
    match t
    case 56 => Known(t, 0x748f82ee, 0x748f82ee);
    case 57 => Known(t, 0x78a5636f, 0x78a5636f);
    case 58 => Known(t, 0x84c87814, 0x84c87814);
    case 59 => Known(t, 0x8cc70208, 0x8cc70208);
    case 60 => Known(t, 0x90befffa, 0x90befffa);
    case 61 => Known(t, 0xa4506ceb, 0xa4506ceb);
    case 62 => Known(t, 0xbef9a3f7, 0xbef9a3f7);
    case _ => Known(t, 0xc67178f2, 0xc67178f2);
  }

  /** The round constants come from the cube roots of the first 64 primes. */
  lemma ConstantsAreCubeRoots(t: nat)
    requires t < 64
    ensures CubeRootFraction(Prime(t), Whole(Prime(t)), Constant(t))
  {
    hide CubeRootFraction, Prime, Constant, Whole;
    if t < 8 {
      Constants1(t);
    } else if t < 16 {
      Constants2(t);
    } else if t < 24 {
      Constants3(t);
    } else if t < 32 {
      Constants4(t);
    } else if t < 40 {
      Constants5(t);
    } else if t < 48 {
      Constants6(t);
    } else if t < 56 {
      Constants7(t);
    } else {
      Constants8(t);
    }
  }
}
