/** MD5 as RFC 1321 defines it. */
module Rfc1321 {
  import opened Bytes

  // ----- auxiliary functions, section 3.4 of RFC 1321 -----

  function F(x: Word, y: Word, z: Word): Word {
    (x & y) | (!x & z)
  }

  function G(x: Word, y: Word, z: Word): Word {
    (x & z) | (y & !z)
  }

  function H(x: Word, y: Word, z: Word): Word {
    x ^ y ^ z
  }

  function I(x: Word, y: Word, z: Word): Word {
    y ^ (x | !z)
  }

  function Auxiliary(r: nat, x: Word, y: Word, z: Word): Word
    requires r < 4
  {
    if r == 0 then F(x, y, z) else if r == 1 then G(x, y, z) else if r == 2 then H(x, y, z) else I(x, y, z)
  }

  // ----- the 64 operations [abcd k s i] -----

  /** Which word of the block the i-th operation of a round uses. */
  function WordIndex(r: nat, i: nat): (k: nat)
    requires r < 4 && i < 16
    ensures k < 16
  {
    if r == 0 then i else if r == 1 then (1 + 5 * i) % 16 else if r == 2 then (5 + 3 * i) % 16 else 7 * i % 16
  }

  function Shift(r: nat, i: nat): (s: Word)
    requires r < 4
    ensures 0 < s < 32
  {
    var j := i % 4;
    if r == 0 then (if j == 0 then 7 else if j == 1 then 12 else if j == 2 then 17 else 22)
    else if r == 1 then (if j == 0 then 5 else if j == 1 then 9 else if j == 2 then 14 else 20)
    else if r == 2 then (if j == 0 then 4 else if j == 1 then 11 else if j == 2 then 16 else 23)
    else (if j == 0 then 6 else if j == 1 then 10 else if j == 2 then 15 else 21)
  }

  function Sines1(i: nat): Word
    requires i < 16
  {
    match i
    case 0 => 0xd76aa478
    case 1 => 0xe8c7b756
    case 2 => 0x242070db
    case 3 => 0xc1bdceee
    case 4 => 0xf57c0faf
    case 5 => 0x4787c62a
    case 6 => 0xa8304613
    case 7 => 0xfd469501
    case 8 => 0x698098d8
    case 9 => 0x8b44f7af
    case 10 => 0xffff5bb1
    case 11 => 0x895cd7be
    case 12 => 0x6b901122
    case 13 => 0xfd987193
    case 14 => 0xa679438e
    case _ => 0x49b40821
  }

  function Sines2(i: nat): Word
    requires i < 16
  {
    match i
    case 0 => 0xf61e2562
    case 1 => 0xc040b340
    case 2 => 0x265e5a51
    case 3 => 0xe9b6c7aa
    case 4 => 0xd62f105d
    case 5 => 0x02441453
    case 6 => 0xd8a1e681
    case 7 => 0xe7d3fbc8
    case 8 => 0x21e1cde6
    case 9 => 0xc33707d6
    case 10 => 0xf4d50d87
    case 11 => 0x455a14ed
    case 12 => 0xa9e3e905
    case 13 => 0xfcefa3f8
    case 14 => 0x676f02d9
    case _ => 0x8d2a4c8a
  }

  function Sines3(i: nat): Word
    requires i < 16
  {
    match i
    case 0 => 0xfffa3942
    case 1 => 0x8771f681
    case 2 => 0x6d9d6122
    case 3 => 0xfde5380c
    case 4 => 0xa4beea44
    case 5 => 0x4bdecfa9
    case 6 => 0xf6bb4b60
    case 7 => 0xbebfbc70
    case 8 => 0x289b7ec6
    case 9 => 0xeaa127fa
    case 10 => 0xd4ef3085
    case 11 => 0x04881d05
    case 12 => 0xd9d4d039
    case 13 => 0xe6db99e5
    case 14 => 0x1fa27cf8
    case _ => 0xc4ac5665
  }

  function Sines4(i: nat): Word
    requires i < 16
  {
    match i
    case 0 => 0xf4292244
    case 1 => 0x432aff97
    case 2 => 0xab9423a7
    case 3 => 0xfc93a039
    case 4 => 0x655b59c3
    case 5 => 0x8f0ccc92
    case 6 => 0xffeff47d
    case 7 => 0x85845dd1
    case 8 => 0x6fa87e4f
    case 9 => 0xfe2ce6e0
    case 10 => 0xa3014314
    case 11 => 0x4e0811a1
    case 12 => 0xf7537e82
    case 13 => 0xbd3af235
    case 14 => 0x2ad7d2bb
    case _ => 0xeb86d391
  }

  /** The table T, built from the sine function. */
  function Sine(r: nat, i: nat): Word
    requires r < 4 && i < 16
  {
    if r == 0 then Sines1(i) else if r == 1 then Sines2(i) else if r == 2 then Sines3(i) else Sines4(i)
  }

  function RotateLeft(x: Word, s: Word): Word
    requires 0 < s < 32
  {
    (x << s) | (x >> (32 - s))
  }

  datatype Regs = Regs(a: Word, b: Word, c: Word, d: Word)

  function Sum4(a: Word, f: Word, x: Word, t: Word): Word {
    a + f + x + t
  }

  /** a = b + ((a + f(b,c,d) + X[k] + T[i]) <<< s) */
  function Operation(f: Word, a: Word, b: Word, x: Word, t: Word, s: Word): Word
    requires 0 < s < 32
  {
    Plus(b, RotateLeft(Sum4(a, f, x, t), s))
  }

  /** The operation [abcd k s i]. */
  function Written(a: Word, b: Word, c: Word, d: Word, x: seq<Word>, r: nat, i: nat): Word
    requires |x| == 16 && r < 4 && i < 16
  {
    Operation(Auxiliary(r, b, c, d), a, b, x[WordIndex(r, i)], Sine(r, i), Shift(r, i))
  }

  /** One operation, after which the registers change their roles: the register
      that was written is the next b. */
  function Step(v: Regs, x: seq<Word>, r: nat, i: nat): Regs
    requires |x| == 16 && r < 4 && i < 16
  {
    Regs(v.d, Written(v.a, v.b, v.c, v.d, x, r, i), v.b, v.c)
  }

  /** The first i operations of a round. */
  function Steps(v: Regs, x: seq<Word>, r: nat, i: nat): Regs
    requires |x| == 16 && r < 4 && i <= 16
  {
    if i == 0 then v else Step(Steps(v, x, r, i - 1), x, r, i - 1)
  }

  function Round(v: Regs, x: seq<Word>, r: nat): Regs
    requires |x| == 16 && r < 4
  {
    Steps(v, x, r, 16)
  }

  function AddRegs(v: Regs, w: Regs): Regs {
    Regs(Plus(v.a, w.a), Plus(v.b, w.b), Plus(v.c, w.c), Plus(v.d, w.d))
  }

  // ----- bytes and words, section 2: low-order byte first -----

  function WordOf(b0: Byte, b1: Byte, b2: Byte, b3: Byte): Word {
    (b0 as Word) | ((b1 as Word) << 8) | ((b2 as Word) << 16) | ((b3 as Word) << 24)
  }

  function Words(block: seq<Byte>): (x: seq<Word>)
    requires |block| == 64
    ensures |x| == 16
  {
    seq(16, j requires 0 <= j < 16 => WordOf(block[4 * j], block[4 * j + 1], block[4 * j + 2], block[4 * j + 3]))
  }

  function BytesOf(u: Word): (b: seq<Byte>)
    ensures |b| == 4
  {
    [(u & 0xff) as Byte, ((u >> 8) & 0xff) as Byte, ((u >> 16) & 0xff) as Byte, ((u >> 24) & 0xff) as Byte]
  }

  lemma WordRoundTrip(u: Word)
    ensures var b := BytesOf(u); WordOf(b[0], b[1], b[2], b[3]) == u
  {
  }

  /** The k low-order bytes of a number, the lowest first. */
  function LittleEndian(n: nat, k: nat): (b: seq<Byte>)
    ensures |b| == k
  {
    if k == 0 then [] else [(n % 256) as Byte] + LittleEndian(n / 256, k - 1)
  }

  // ----- blocks and padding, sections 3.1, 3.2, 3.3 and 3.5 -----

  function Initial(): Regs {
    Regs(0x67452301, 0xefcdab89, 0x98badcfe, 0x10325476)
  }

  function Compress(v: Regs, block: seq<Byte>): Regs
    requires |block| == 64
  {
    var x := Words(block);
    AddRegs(Round(Round(Round(Round(v, x, 0), x, 1), x, 2), x, 3), v)
  }

  function Absorb(v: Regs, data: seq<Byte>): Regs
    requires |data| % 64 == 0
  {
    if |data| == 0 then v else Compress(Absorb(v, data[..|data| - 64]), data[|data| - 64..])
  }

  /** The message, a one bit, zero bits, and its length in bits modulo 2^64. */
  function Padded(msg: seq<Byte>): (p: seq<Byte>)
    ensures |p| % 64 == 0
  {
    msg + [0x80] + Zeros(ZeroCount(|msg|)) + LittleEndian(BitLength(|msg|), 8)
  }

  function Digest(msg: seq<Byte>): (d: seq<Byte>)
    ensures |d| == 16
  {
    var v := Absorb(Initial(), Padded(msg));
    BytesOf(v.a) + BytesOf(v.b) + BytesOf(v.c) + BytesOf(v.d)
  }
}
