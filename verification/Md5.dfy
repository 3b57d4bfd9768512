/** The streaming MD5 of mkhash.c: a context that is updated in place. */
module Md5 {
  import opened Bytes
  import opened Rfc1321

  // ----- the auxiliary functions as the code writes them -----

  function CodeF(x: Word, y: Word, z: Word): (r: Word)
    ensures r == F(x, y, z)
  {
    FBits(x, y, z);
    z ^ (x & (y ^ z))
  }

  lemma FBits(x: bv32, y: bv32, z: bv32)
    ensures z ^ (x & (y ^ z)) == (x & y) | (!x & z)
  {
  }

  function CodeG(x: Word, y: Word, z: Word): (r: Word)
    ensures r == G(x, y, z)
  {
    GBits(x, y, z);
    y ^ (z & (x ^ y))
  }

  lemma GBits(x: bv32, y: bv32, z: bv32)
    ensures y ^ (z & (x ^ y)) == (x & z) | (y & !z)
  {
  }

  function CodeH(x: Word, y: Word, z: Word): (r: Word)
    ensures r == H(x, y, z)
  {
    (x ^ y) ^ z
  }

  function CodeH2(x: Word, y: Word, z: Word): (r: Word)
    ensures r == H(x, y, z)
  {
    H2Bits(x, y, z);
    x ^ (y ^ z)
  }

  lemma H2Bits(x: bv32, y: bv32, z: bv32)
    ensures x ^ (y ^ z) == x ^ y ^ z
  {
  }

  function CodeI(x: Word, y: Word, z: Word): (r: Word)
    ensures r == I(x, y, z)
  {
    y ^ (x | !z)
  }

  /** STEP: three assignments to `a`. */
  function Apply(f: Word, a: Word, b: Word, x: Word, t: Word, s: Word): (r: Word)
    requires 0 < s < 32
    ensures r == Operation(f, a, b, x, t, s)
  {
    hide Sum4, RotateLeft, Plus;
    Regroup(a, f, x, t);
    Masked(Raised(a, f, x, t), s);
    Commute(Rotated(Raised(a, f, x, t), s), b);
    Plus(Rotated(Raised(a, f, x, t), s), b)
  }

  function Raised(a: Word, f: Word, x: Word, t: Word): Word {
    a + (f + x + t)
  }

  function Rotated(a: Word, s: Word): Word
    requires 0 < s < 32
  {
    (a << s) | ((a & 0xffffffff) >> (32 - s))
  }

  lemma Regroup(a: Word, f: Word, x: Word, t: Word)
    ensures Raised(a, f, x, t) == Sum4(a, f, x, t)
  {
  }

  lemma Masked(a: Word, s: Word)
    requires 0 < s < 32
    ensures Rotated(a, s) == RotateLeft(a, s)
  {
    assert a & 0xffffffff == a;
  }

  lemma Commute(x: Word, y: Word)
    ensures Plus(x, y) == Plus(y, x)
  {
  }

  // ----- the four rounds -----

  lemma NoSteps(v: Regs, x: seq<Word>, r: nat)
    requires |x| == 16 && r < 4
    ensures Steps(v, x, r, 0) == v
  {
  }

  /** Four operations write all four registers once. */
  lemma FourSteps(v: Regs, x: seq<Word>, r: nat, i: nat, g: Regs, w: Regs)
    requires |x| == 16 && r < 4 && i <= 12 && g == Steps(v, x, r, i)
    requires w.a == Written(g.a, g.b, g.c, g.d, x, r, i)
    requires w.d == Written(g.d, w.a, g.b, g.c, x, r, i + 1)
    requires w.c == Written(g.c, w.d, w.a, g.b, x, r, i + 2)
    requires w.b == Written(g.b, w.c, w.d, w.a, x, r, i + 3)
    ensures Steps(v, x, r, i + 4) == w
  {
    hide Written;
    assert Steps(v, x, r, i + 1) == Regs(g.d, w.a, g.b, g.c);
    assert Steps(v, x, r, i + 2) == Regs(g.c, w.d, w.a, g.b);
    assert Steps(v, x, r, i + 3) == Regs(g.b, w.c, w.d, w.a);
  }

  /** What a use of STEP passes besides the registers: which word, the constant
      and the shift. */
  datatype Arg = Arg(k: nat, t: Word, s: Word)

  predicate Fits(g: Arg, r: nat, i: nat)
    requires r < 4 && i < 16
  {
    g.k == WordIndex(r, i) && g.t == Sine(r, i) && g.s == Shift(r, i)
  }

  /** The auxiliary function of a round; round 3 alternates between H and H2. */
  function CodeAux(r: nat, second: bool, x: Word, y: Word, z: Word): (f: Word)
    requires r < 4
    ensures f == Auxiliary(r, x, y, z)
  {
    if r == 0 then CodeF(x, y, z) else if r == 1 then CodeG(x, y, z)
    else if r == 2 then (if second then CodeH2(x, y, z) else CodeH(x, y, z))
    else CodeI(x, y, z)
  }

  lemma FitsWritten(g: Arg, r: nat, i: nat, a: Word, b: Word, c: Word, d: Word, x: seq<Word>)
    requires |x| == 16 && r < 4 && i < 16 && Fits(g, r, i)
    ensures Operation(Auxiliary(r, b, c, d), a, b, x[g.k], g.t, g.s) == Written(a, b, c, d, x, r, i)
  {
    hide Operation, Auxiliary;
  }

  /** Four consecutive uses of STEP. */
  method Four(r: nat, ghost i: nat, g: Regs, x: seq<Word>, g0: Arg, g1: Arg, g2: Arg, g3: Arg, ghost v: Regs,
      ghost j: nat := i + 1, ghost k: nat := i + 2, ghost l: nat := i + 3) returns (w: Regs)
    requires |x| == 16 && r < 4 && i <= 12 && g == Steps(v, x, r, i) && j == i + 1 && k == i + 2 && l == i + 3
    requires Fits(g0, r, i) && Fits(g1, r, j) && Fits(g2, r, k) && Fits(g3, r, l)
    ensures w == Steps(v, x, r, i + 4)
  {
    hide Operation, Written, Auxiliary, Steps, Sine;
    var a, b, c, d := g.a, g.b, g.c, g.d;
    FitsWritten(g0, r, i, a, b, c, d, x);
    a := Apply(CodeAux(r, false, b, c, d), a, b, x[g0.k], g0.t, g0.s);
    FitsWritten(g1, r, i + 1, d, a, b, c, x);
    d := Apply(CodeAux(r, true, a, b, c), d, a, x[g1.k], g1.t, g1.s);
    FitsWritten(g2, r, i + 2, c, d, a, b, x);
    c := Apply(CodeAux(r, false, d, a, b), c, d, x[g2.k], g2.t, g2.s);
    FitsWritten(g3, r, i + 3, b, c, d, a, x);
    b := Apply(CodeAux(r, true, c, d, a), b, c, x[g3.k], g3.t, g3.s);
    w := Regs(a, b, c, d);
    FourSteps(v, x, r, i, g, w);
  }

  method Round1(v: Regs, x: seq<Word>) returns (w: Regs)
    requires |x| == 16
    ensures w == Round(v, x, 0)
  {
    hide Steps;
    NoSteps(v, x, 0);
    w := v;
    w := Four(0, 0, w, x, Arg(0, 0xd76aa478, 7), Arg(1, 0xe8c7b756, 12), Arg(2, 0x242070db, 17),
        Arg(3, 0xc1bdceee, 22), v);
    w := Four(0, 4, w, x, Arg(4, 0xf57c0faf, 7), Arg(5, 0x4787c62a, 12), Arg(6, 0xa8304613, 17),
        Arg(7, 0xfd469501, 22), v);
    w := Four(0, 8, w, x, Arg(8, 0x698098d8, 7), Arg(9, 0x8b44f7af, 12), Arg(10, 0xffff5bb1, 17),
        Arg(11, 0x895cd7be, 22), v);
    w := Four(0, 12, w, x, Arg(12, 0x6b901122, 7), Arg(13, 0xfd987193, 12), Arg(14, 0xa679438e, 17),
        Arg(15, 0x49b40821, 22), v);
  }

  method Round2(v: Regs, x: seq<Word>) returns (w: Regs)
    requires |x| == 16
    ensures w == Round(v, x, 1)
  {
    hide Steps;
    NoSteps(v, x, 1);
    w := v;
    w := Four(1, 0, w, x, Arg(1, 0xf61e2562, 5), Arg(6, 0xc040b340, 9), Arg(11, 0x265e5a51, 14),
        Arg(0, 0xe9b6c7aa, 20), v);
    w := Four(1, 4, w, x, Arg(5, 0xd62f105d, 5), Arg(10, 0x02441453, 9), Arg(15, 0xd8a1e681, 14),
        Arg(4, 0xe7d3fbc8, 20), v);
    w := Four(1, 8, w, x, Arg(9, 0x21e1cde6, 5), Arg(14, 0xc33707d6, 9), Arg(3, 0xf4d50d87, 14),
        Arg(8, 0x455a14ed, 20), v);
    w := Four(1, 12, w, x, Arg(13, 0xa9e3e905, 5), Arg(2, 0xfcefa3f8, 9), Arg(7, 0x676f02d9, 14),
        Arg(12, 0x8d2a4c8a, 20), v);
  }

  method Round3(v: Regs, x: seq<Word>) returns (w: Regs)
    requires |x| == 16
    ensures w == Round(v, x, 2)
  {
    hide Steps;
    NoSteps(v, x, 2);
    w := v;
    w := Four(2, 0, w, x, Arg(5, 0xfffa3942, 4), Arg(8, 0x8771f681, 11), Arg(11, 0x6d9d6122, 16),
        Arg(14, 0xfde5380c, 23), v);
    w := Four(2, 4, w, x, Arg(1, 0xa4beea44, 4), Arg(4, 0x4bdecfa9, 11), Arg(7, 0xf6bb4b60, 16),
        Arg(10, 0xbebfbc70, 23), v);
    w := Four(2, 8, w, x, Arg(13, 0x289b7ec6, 4), Arg(0, 0xeaa127fa, 11), Arg(3, 0xd4ef3085, 16),
        Arg(6, 0x04881d05, 23), v);
    w := Four(2, 12, w, x, Arg(9, 0xd9d4d039, 4), Arg(12, 0xe6db99e5, 11), Arg(15, 0x1fa27cf8, 16),
        Arg(2, 0xc4ac5665, 23), v);
  }

  method Round4(v: Regs, x: seq<Word>) returns (w: Regs)
    requires |x| == 16
    ensures w == Round(v, x, 3)
  {
    hide Steps;
    NoSteps(v, x, 3);
    w := v;
    w := Four(3, 0, w, x, Arg(0, 0xf4292244, 6), Arg(7, 0x432aff97, 10), Arg(14, 0xab9423a7, 15),
        Arg(5, 0xfc93a039, 21), v);
    w := Four(3, 4, w, x, Arg(12, 0x655b59c3, 6), Arg(3, 0x8f0ccc92, 10), Arg(10, 0xffeff47d, 15),
        Arg(1, 0x85845dd1, 21), v);
    w := Four(3, 8, w, x, Arg(8, 0x6fa87e4f, 6), Arg(15, 0xfe2ce6e0, 10), Arg(6, 0xa3014314, 15),
        Arg(13, 0x4e0811a1, 21), v);
    w := Four(3, 12, w, x, Arg(4, 0xf7537e82, 6), Arg(11, 0xbd3af235, 10), Arg(2, 0x2ad7d2bb, 15),
        Arg(9, 0xeb86d391, 21), v);
  }

  // ----- the context -----

  const TWO29: nat := 0x2000_0000
  const TWO32: nat := 0x1_0000_0000

  /** The number of bytes that lo and hi stand for. */
  function Counted(lo: nat, hi: nat): nat {
    hi * 0x2000_0000 + lo
  }

  function ByteCount(n: nat): nat {
    n % 0x2000_0000_0000_0000
  }

  /** The new counters of MD5_hash: the low 29 bits in lo, the rest in hi, which
      wraps around at 2^32. */
  function NewLo(lo: nat, size: nat): nat {
    (lo + size) % TWO29
  }

  function NewHi(lo: nat, hi: nat, size: nat): nat {
    ((if NewLo(lo, size) < lo then (hi + 1) % TWO32 else hi) + size / TWO29) % TWO32
  }

  /** hi * 2^29 + lo is the byte count modulo 2^61 after every call. */
  lemma CountersAdd(lo: nat, hi: nat, n: nat, size: nat)
    requires lo < TWO29 && hi < TWO32 && Counted(lo, hi) == ByteCount(n)
    ensures var lo', hi' := NewLo(lo, size), NewHi(lo, hi, size);
            lo' < TWO29 && hi' < TWO32 && Counted(lo', hi') == ByteCount(n + size)
  {
    var q, rest := size / TWO29, size % TWO29;
    assert size == q * TWO29 + rest;
    Carry(lo, size, q, rest);
    var carry := if NewLo(lo, size) < lo then 1 else 0;
    var wide := hi + carry + q;
    assert NewHi(lo, hi, size) == wide % TWO32 by {
      ModOnce(hi + carry, q);
    }
    assert wide * TWO29 + NewLo(lo, size) == Counted(lo, hi) + size;
    SplitMod(wide, NewLo(lo, size));
    SumMod(n, size);
  }

  /** The comparison with the old value finds the carry out of 29 bits. */
  lemma Carry(lo: nat, size: nat, q: nat, rest: nat)
    requires lo < TWO29 && rest < TWO29 && size == q * TWO29 + rest
    ensures NewLo(lo, size) == (if lo + rest < TWO29 then lo + rest else lo + rest - TWO29)
    ensures NewLo(lo, size) < lo <==> lo + rest >= TWO29
  {
  }

  lemma ModOnce(x: nat, q: nat)
    ensures (x % TWO32 + q) % TWO32 == (x + q) % TWO32
  {
  }

  lemma SplitMod(hi: nat, lo: nat)
    requires lo < TWO29
    ensures hi % TWO32 * TWO29 + lo == ByteCount(hi * TWO29 + lo)
  {
    var k := hi / TWO32;
    assert hi == k * TWO32 + hi % TWO32;
    assert hi * TWO29 + lo == k * 0x2000_0000_0000_0000 + (hi % TWO32 * TWO29 + lo);
  }

  lemma SumMod(n: nat, size: nat)
    ensures ByteCount(ByteCount(n) + size) == ByteCount(n + size)
  {
    var q := n / 0x2000_0000_0000_0000;
    assert n == q * 0x2000_0000_0000_0000 + ByteCount(n);
    Multiples(ByteCount(n) + size, q, 0x2000_0000_0000_0000);
  }

  lemma BitsOfCount(lo: nat, hi: nat, n: nat)
    requires Counted(lo, hi) == ByteCount(n)
    ensures BitLength(n) == lo * 8 + hi * TWO32
  {
  }

  /** The eight length bytes written by MD5_end are the bit count modulo 2^64. */
  lemma LengthBytes(lo: nat, hi: nat, n: nat)
    requires lo < TWO29 && hi < TWO32 && Counted(lo, hi) == ByteCount(n)
    ensures LittleEndian(lo * 8, 4) + LittleEndian(hi, 4) == LittleEndian(BitLength(n), 8)
  {
    assert Power256(4) == TWO32 by {
      assert Power256(2) == 0x1_0000;
    }
    BitsOfCount(lo, hi, n);
    LittleEndianSplits(lo * 8, hi, 4, 4);
  }

  function Power256(j: nat): (p: nat)
    ensures p > 0
  {
    if j == 0 then 1 else 256 * Power256(j - 1)
  }

  lemma LittleEndianStep(low: nat, p: nat, k: nat)
    requires k > 0
    ensures LittleEndian(low + 256 * p, k) == [(low % 256) as Byte] + LittleEndian(low / 256 + p, k - 1)
  {
    assert (low + 256 * p) % 256 == low % 256 && (low + 256 * p) / 256 == low / 256 + p;
  }

  lemma Shifted(high: nat, q: nat)
    ensures high * (256 * q) == 256 * (high * q)
  {
  }

  lemma Quotient(low: nat, q: nat)
    requires low < 256 * q
    ensures low / 256 < q
  {
  }

  /** The low j bytes and the bytes above them. */
  lemma {:induction false} LittleEndianSplits(low: nat, high: nat, j: nat, k: nat)
    requires low < Power256(j)
    ensures LittleEndian(low + high * Power256(j), j + k) == LittleEndian(low, j) + LittleEndian(high, k)
  {
    if j > 0 {
      var q := Power256(j - 1);
      var p := high * q;
      Shifted(high, q);
      Quotient(low, q);
      assert low + high * Power256(j) == low + 256 * p;
      LittleEndianStep(low, p, j + k);
      LittleEndianSplits(low / 256, high, j - 1, k);
    }
  }

  lemma AbsorbBlock(data: seq<Byte>, block: seq<Byte>)
    requires |data| % 64 == 0 && |block| == 64
    ensures Absorb(Initial(), data + block) == Compress(Absorb(Initial(), data), block)
  {
    hide Compress;
    var all := data + block;
    assert all[..|all| - 64] == data && all[|all| - 64..] == block;
  }

  /** The registers hold the absorbed data. */
  ghost predicate Holds(v: Regs, data: seq<Byte>) {
    |data| % 64 == 0 && v == Absorb(Initial(), data)
  }

  lemma HoldsMore(v: Regs, data: seq<Byte>, block: seq<Byte>)
    requires Holds(v, data) && |block| == 64
    ensures Holds(Compress(v, block), data + block)
  {
    hide Compress;
    AbsorbBlock(data, block);
  }

  class Context {
    var lo: nat
    var hi: nat
    var regs: Regs
    const buffer: array<Byte>
    ghost var msg: seq<Byte>

    ghost predicate Loaded()
      reads this, buffer
    {
      && buffer.Length == 64 && Holds(regs, msg[..Full(|msg|)])
      && buffer[..|msg| % 64] == msg[Full(|msg|)..]
    }

    ghost predicate CountedRight()
      reads this
    {
      lo < TWO29 && hi < TWO32 && Counted(lo, hi) == ByteCount(|msg|)
    }

    /** The registers have absorbed the full blocks of the message, the buffer
        holds the rest, and the counters hold its length. */
    ghost predicate Valid()
      reads this, buffer
    {
      Loaded() && CountedRight()
    }

    /** MD5_begin. */
    constructor ()
      ensures Valid() && fresh(buffer) && msg == []
    {
      lo, hi := 0, 0;
      regs := Regs(0x67452301, 0xefcdab89, 0x98badcfe, 0x10325476);
      buffer := new Byte[64];
      msg := [];
    }

    /** One turn of the loop of MD5_body: the words are read when first used. */
    method Block(block: seq<Byte>)
      requires |block| == 64
      modifies this`regs
      ensures regs == Compress(old(regs), block)
    {
      hide Words, Round, AddRegs;
      var x := Words(block);
      var v := regs;
      v := Round1(v, x);
      v := Round2(v, x);
      v := Round3(v, x);
      v := Round4(v, x);
      regs := AddRegs(v, regs);
    }

    /** MD5_body: one or more blocks. */
    method Body(data: seq<Byte>, ghost done: seq<Byte>)
      requires |data| >= 64 && |data| % 64 == 0 && Holds(regs, done)
      modifies this`regs
      ensures Holds(regs, done + data)
    {
      hide Holds, Compress;
      var pos := 0;
      assert done + data[..0] == done;
      while true
        invariant pos <= |data| - 64 && pos % 64 == 0
        invariant Holds(regs, done + data[..pos])
        decreases |data| - pos
      {
        HoldsMore(regs, done + data[..pos], data[pos..pos + 64]);
        Block(data[pos..pos + 64]);
        assert done + data[..pos + 64] == done + data[..pos] + data[pos..pos + 64];
        pos := pos + 64;
        if |data| - pos == 0 {
          break;
        }
      }
      assert data[..pos] == data;
    }

    /** MD5_hash. */
    method Hash(data: seq<Byte>)
      requires Valid()
      modifies this, buffer
      ensures Valid() && msg == old(msg) + data
    {
      hide Holds, Counted, ByteCount, NewLo, NewHi;
      var saved := lo;
      UsedBytes(lo, hi, |msg|);
      CountersAdd(lo, hi, |msg|, |data|);
      lo, hi := NewLo(saved, |data|), NewHi(saved, hi, |data|);
      var used := saved % 64;
      if used != 0 && |data| < 64 - used {
        Keep(data, used);
      } else {
        Consume(data, used);
      }
    }

    static lemma UsedBytes(lo: nat, hi: nat, n: nat)
      requires lo < TWO29 && hi < TWO32 && Counted(lo, hi) == ByteCount(n)
      ensures lo % 64 == n % 64
    {
    }

    /** MD5_hash when a started buffer does not get full. */
    method Keep(data: seq<Byte>, used: nat)
      requires Loaded() && used == |msg| % 64 && |data| < 64 - used
      modifies this`msg, buffer
      ensures Loaded() && msg == old(msg) + data
    {
      hide Holds;
      ghost var was := msg;
      CopyIn(buffer, used, data);
      msg := msg + data;
      assert Full(|msg|) == Full(|was|);
      assert msg[..Full(|was|)] == was[..Full(|was|)] && msg[Full(|was|)..] == was[Full(|was|)..] + data;
    }

    /** A started buffer is filled and absorbed. */
    method Fill(part: seq<Byte>, used: nat)
      requires Loaded() && used == |msg| % 64 && used + |part| == 64
      modifies this`regs, buffer
      ensures buffer.Length == 64 && Holds(regs, msg + part)
    {
      hide Holds;
      CopyIn(buffer, used, part);
      ghost var first := msg[Full(|msg|)..] + part;
      assert buffer[..] == first;
      Body(buffer[..], msg[..Full(|msg|)]);
      assert msg + part == msg[..Full(|msg|)] + first;
    }

    /** MD5_hash otherwise: fill and absorb a started buffer, absorb complete
        blocks, keep the rest. */
    method Consume(data: seq<Byte>, used: nat)
      requires Loaded() && used == |msg| % 64 && (used == 0 || |data| >= 64 - used)
      modifies this`msg, this`regs, buffer
      ensures Loaded() && msg == old(msg) + data
    {
      hide Holds;
      ghost var was := msg;
      var pos := 0;
      if used != 0 {
        pos := 64 - used;
        Fill(data[..pos], used);
      }
      ghost var done := was + data[..pos];
      assert pos == 0 ==> done == was[..Full(|was|)];
      var size := |data| - pos;
      if size >= 64 {
        Body(data[pos..pos + Full(size)], done);
        done := done + data[pos..pos + Full(size)];
        pos := pos + Full(size);
      }
      CopyIn(buffer, 0, data[pos..]);
      Reached(regs, was, data, done, pos);
      msg := msg + data;
    }

    static lemma Reached(v: Regs, was: seq<Byte>, data: seq<Byte>, done: seq<Byte>, pos: nat)
      requires pos <= |data| < pos + 64 && Holds(v, done) && done == was + data[..pos]
      ensures var all := was + data;
              Full(|all|) == |done| && all[..|done|] == done && all[|done|..] == data[pos..] &&
                  |all| % 64 == |data| - pos
    {
      hide Absorb;
    }

    /** The end of MD5_end before the digest is written: padding and length. */
    method PadMessage()
      requires Valid()
      modifies this`regs, buffer
      ensures Holds(regs, Padded(msg))
    {
      hide Holds, Padded, Counted, ByteCount, LittleEndian;
      UsedBytes(lo, hi, |msg|);
      LengthBytes(lo, hi, |msg|);
      var length := LittleEndian(lo * 8, 4) + LittleEndian(hi, 4);
      var used := lo % 64;
      if 64 - (used + 1) < 8 {
        FinishTwo(used, length);
      } else {
        FinishOne(used, length);
      }
    }

    method FinishOne(used: nat, length: seq<Byte>)
      requires Loaded() && used == |msg| % 64 && used < 56 && length == LittleEndian(BitLength(|msg|), 8)
      modifies this`regs, buffer
      ensures Holds(regs, Padded(msg))
    {
      hide Holds, BitLength, LittleEndian, Padded;
      ghost var done := msg[..Full(|msg|)];
      CopyIn(buffer, used, [0x80]);
      CopyIn(buffer, used + 1, Zeros(55 - used));
      ghost var rest := msg[Full(|msg|)..];
      assert buffer[..56] == rest + Pad(56 - used);
      CopyIn(buffer, 56, length);
      assert buffer[..] == rest + Pad(56 - used) + length;
      Body(buffer[..], done);
      PaddedOne(msg, used);
    }

    static lemma PaddedOne(m: seq<Byte>, used: nat)
      requires used == |m| % 64 && used < 56
      ensures var n := |m| - used;
              Padded(m) == m[..n] + (m[n..] + Pad(56 - used) + LittleEndian(BitLength(|m|), 8))
    {
      hide BitLength, LittleEndian;
    }

    method FinishTwo(used: nat, length: seq<Byte>)
      requires Loaded() && used == |msg| % 64 && used >= 56 && length == LittleEndian(BitLength(|msg|), 8)
      modifies this`regs, buffer
      ensures Holds(regs, Padded(msg))
    {
      hide Holds, BitLength, LittleEndian, Padded;
      ghost var done := msg[..Full(|msg|)];
      CopyIn(buffer, used, [0x80]);
      CopyIn(buffer, used + 1, Zeros(63 - used));
      ghost var first := msg[Full(|msg|)..] + Pad(64 - used);
      assert buffer[..] == first;
      Body(buffer[..], done);
      CopyIn(buffer, 0, Zeros(56));
      CopyIn(buffer, 56, length);
      ghost var second := Zeros(56) + length;
      assert buffer[..] == second;
      Body(buffer[..], done + first);
      PaddedTwo(msg, used);
    }

    static lemma PaddedTwo(m: seq<Byte>, used: nat)
      requires used == |m| % 64 && used >= 56
      ensures var n := |m| - used;
              Padded(m) == m[..n] + (m[n..] + Pad(64 - used)) + (Zeros(56) + LittleEndian(BitLength(|m|), 8))
    {
      hide BitLength, LittleEndian;
    }

    /** MD5_end: the digest of all bytes so far; the context is cleared. */
    method End() returns (digest: seq<Byte>)
      requires Valid()
      modifies this, buffer
      ensures digest == Digest(old(msg))
      ensures lo == 0 && hi == 0 && regs == Regs(0, 0, 0, 0) && buffer[..] == Zeros(64)
    {
      hide Absorb, Padded, BytesOf;
      PadMessage();
      digest := BytesOf(regs.a) + BytesOf(regs.b) + BytesOf(regs.c) + BytesOf(regs.d);
      lo, hi, regs := 0, 0, Regs(0, 0, 0, 0);
      forall i | 0 <= i < buffer.Length {
        buffer[i] := 0;
      }
    }
  }

  /** However the input is cut into chunks, the digest is that of the whole. */
  method HashChunks(chunks: seq<seq<Byte>>) returns (digest: seq<Byte>)
    ensures digest == Digest(Concat(chunks))
  {
    hide Digest, Context.Valid;
    var ctx := new Context();
    var i := 0;
    while i < |chunks|
      invariant 0 <= i <= |chunks| && ctx.Valid() && fresh(ctx) && fresh(ctx.buffer)
      invariant ctx.msg == Concat(chunks[..i])
    {
      ctx.Hash(chunks[i]);
      assert chunks[..i + 1][..i] == chunks[..i];
      i := i + 1;
    }
    assert chunks[..i] == chunks;
    digest := ctx.End();
  }
}
