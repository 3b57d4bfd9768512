/** Bytes, 32-bit words and 64-byte blocks. */
module Bytes {
  type Byte = bv8
  type Word = bv32

  /** Addition modulo 2^32. */
  function Plus(x: Word, y: Word): Word {
    x + y
  }

  function Zeros(n: nat): (z: seq<Byte>)
    ensures |z| == n
  {
    seq(n, _ => 0)
  }

  /** A one bit followed by zero bits. */
  function Pad(n: nat): (p: seq<Byte>)
    requires 0 < n
    ensures |p| == n && p == [0x80] + Zeros(n - 1)
  {
    [0x80] + Zeros(n - 1)
  }

  /** How many of n bytes fill whole blocks. */
  function Full(n: nat): (m: nat)
    ensures m <= n && m % 64 == 0 && n - m < 64
  {
    n - n % 64
  }

  function Concat(chunks: seq<seq<Byte>>): seq<Byte> {
    if chunks == [] then [] else Concat(chunks[..|chunks| - 1]) + chunks[|chunks| - 1]
  }

  /** The smallest number of zero bytes that leaves room for the length. */
  function ZeroCount(len: nat): (k: nat)
    ensures k < 64 && (len + 1 + k + 8) % 64 == 0
  {
    (119 - len % 64) % 64
  }

  lemma ZeroCountSmallest(len: nat, k: nat)
    requires (len + 1 + k + 8) % 64 == 0
    ensures ZeroCount(len) <= k
  {
  }

  /** The length in bits, modulo 2^64. */
  function BitLength(len: nat): (n: nat)
    ensures n < 0x1_0000_0000_0000_0000
  {
    (8 * len) % 0x1_0000_0000_0000_0000
  }

  lemma {:induction false} Multiples(x: nat, q: nat, m: nat)
    requires m > 0
    ensures (x + q * m) % m == x % m
  {
    if q > 0 {
      Multiples(x, q - 1, m);
      OneMore(x + (q - 1) * m, m);
      assert x + q * m == x + (q - 1) * m + m;
    }
  }

  lemma OneMore(x: nat, m: nat)
    requires m > 0
    ensures (x + m) % m == x % m
  {
    var q := x / m;
    assert x + m == (q + 1) * m + x % m;
    Remainder(q + 1, x % m, m);
  }

  lemma Remainder(q: nat, r: nat, m: nat)
    requires r < m
    ensures (q * m + r) % m == r
  {
    var x := q * m + r;
    assert x == (x / m) * m + x % m;
    SameQuotient(q, r, x / m, x % m, m);
  }

  lemma SameQuotient(q: nat, r: nat, q': nat, r': nat, m: nat)
    requires q * m + r == q' * m + r' && r < m && r' < m
    ensures r == r'
  {
    if q < q' {
      Larger(q, r, q', m);
    } else if q' < q {
      Larger(q', r', q, m);
    }
  }

  lemma Larger(q: nat, r: nat, q': nat, m: nat)
    requires q < q' && r < m
    ensures q * m + r < q' * m
  {
    assert q' * m >= (q + 1) * m;
  }

  /** Counting bits modulo 2^64 in steps. */
  lemma BitLengthAdds(len: nat, more: nat)
    ensures (BitLength(len) + BitLength(more)) % 0x1_0000_0000_0000_0000 == BitLength(len + more)
  {
    var q, r := 8 * len / 0x1_0000_0000_0000_0000, 8 * more / 0x1_0000_0000_0000_0000;
    assert 8 * (len + more) == BitLength(len) + BitLength(more) + (q + r) * 0x1_0000_0000_0000_0000;
    Multiples(BitLength(len) + BitLength(more), q + r, 0x1_0000_0000_0000_0000);
  }

  lemma BitLengthRest(len: nat)
    ensures BitLength(len) / 8 % 64 == len % 64
  {
    var q := 8 * len / 0x1_0000_0000_0000_0000;
    assert 8 * len == BitLength(len) + q * 0x1_0000_0000_0000_0000;
    WholeBytes(BitLength(len), len, q);
    Multiples(BitLength(len) / 8, q * 0x80_0000_0000_0000, 64);
  }

  lemma WholeBytes(bits: nat, len: nat, q: nat)
    requires 8 * len == bits + q * 0x1_0000_0000_0000_0000
    ensures len == bits / 8 + q * 0x80_0000_0000_0000 * 64
  {
  }

  /** memcpy into a block buffer. */
  method CopyIn(buf: array<Byte>, at: nat, data: seq<Byte>)
    requires buf.Length == 64 && at + |data| <= 64
    modifies buf
    ensures buf[..] == old(buf[..at]) + data + old(buf[at + |data|..])
  {
    var i := 0;
    while i < |data|
      invariant 0 <= i <= |data|
      invariant forall j :: 0 <= j < i ==> buf[at + j] == data[j]
      invariant forall j :: 0 <= j < 64 && !(at <= j < at + i) ==> buf[j] == old(buf[j])
    {
      buf[at + i] := data[i];
      i := i + 1;
    }
  }
}
