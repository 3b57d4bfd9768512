/** The streaming SHA-256 of mkhash.c: a context that is updated in place. */
module Sha256 {
  import opened Bytes
  import opened Fips180

  // ----- the elementary functions as the code writes them -----

  function CodeCh(x: Word, y: Word, z: Word): Word {
    (x & (y ^ z)) ^ z
  }

  function CodeMaj(x: Word, y: Word, z: Word): Word {
    (x & (y | z)) | (y & z)
  }

  lemma ChBits(x: bv32, y: bv32, z: bv32)
    ensures (x & (y ^ z)) ^ z == (x & y) ^ (!x & z)
  {
  }

  lemma ChAgrees(x: Word, y: Word, z: Word)
    ensures CodeCh(x, y, z) == Ch(x, y, z)
  {
    ChBits(x, y, z);
  }

  lemma MajBits(x: bv32, y: bv32, z: bv32)
    ensures (x & (y | z)) | (y & z) == (x & y) ^ (x & z) ^ (y & z)
  {
  }

  lemma MajAgrees(x: Word, y: Word, z: Word)
    ensures CodeMaj(x, y, z) == Maj(x, y, z)
  {
    MajBits(x, y, z);
  }

  /** be16dec and be32dec. */
  function Decode16(b0: Byte, b1: Byte): bv16 {
    ((b0 as bv16) << 8) | (b1 as bv16)
  }

  function Decode32(b0: Byte, b1: Byte, b2: Byte, b3: Byte): Word {
    ((Decode16(b0, b1) as Word) << 16) | (Decode16(b2, b3) as Word)
  }

  lemma DecodeAgrees(b0: Byte, b1: Byte, b2: Byte, b3: Byte)
    ensures Decode32(b0, b1, b2, b3) == WordOf(b0, b1, b2, b3)
  {
  }

  // ----- rounds on rotating indices -----

  /** Where the k-th working variable lives after i rounds. */
  function Slot(i: nat, k: nat): (p: nat)
    requires i <= 64 && k < 8
    ensures p < 8
  {
    (64 + k - i) % 8
  }

  lemma SlotMoves(i: nat, k: nat)
    requires i < 64 && k < 8
    ensures Slot(i + 1, (k + 1) % 8) == Slot(i, k)
  {
  }

  lemma SlotsDiffer(i: nat, k: nat, l: nat)
    requires i <= 64 && k < 8 && l < 8 && k != l
    ensures Slot(i, k) != Slot(i, l)
  {
  }

  lemma SlotTurns(i: nat, ii: nat, k: nat)
    requires i <= 16 && ii <= 48 && ii % 16 == 0 && k < 8
    ensures Slot(i + ii, k) == Slot(i, k)
  {
  }

  /** The working variables after i rounds, read from the rotated array. */
  function View(s: seq<Word>, i: nat): Vars
    requires |s| == 8 && i <= 64
  {
    Vars(s[Slot(i, 0)], s[Slot(i, 1)], s[Slot(i, 2)], s[Slot(i, 3)], s[Slot(i, 4)], s[Slot(i, 5)], s[Slot(i, 6)],
        s[Slot(i, 7)])
  }

  lemma ViewTurned(s: seq<Word>, s': seq<Word>, i: nat, d: Word, h: Word)
    requires |s| == 8 && i < 64 && s' == s[Slot(i, 3) := d][Slot(i, 7) := h]
    ensures var v := View(s, i);
            View(s', i + 1) == Vars(h, v.a, v.b, v.c, d, v.e, v.f, v.g)
  {
    hide Slot;
    forall k: nat | k < 8
      ensures Slot(i + 1, (k + 1) % 8) == Slot(i, k)
    {
      SlotMoves(i, k);
    }
    forall k: nat, l: nat | k < 8 && l < 8 && k != l
      ensures Slot(i, k) != Slot(i, l)
    {
      SlotsDiffer(i, k, l);
    }
    assert Slot(i + 1, 0) == Slot(i, 7) && Slot(i + 1, 1) == Slot(i, 0) && Slot(i + 1, 2) == Slot(i, 1) &&
      Slot(i + 1, 3) == Slot(i, 2);
    assert Slot(i + 1, 4) == Slot(i, 3) && Slot(i + 1, 5) == Slot(i, 4) && Slot(i + 1, 6) == Slot(i, 5) &&
      Slot(i + 1, 7) == Slot(i, 6);
  }

  lemma ViewRepeats(s: seq<Word>, i: nat, ii: nat)
    requires |s| == 8 && i <= 16 && ii <= 48 && ii % 16 == 0
    ensures View(s, i + ii) == View(s, i)
  {
    hide Slot;
    forall k: nat | k < 8
      ensures Slot(i + ii, k) == Slot(i, k)
    {
      SlotTurns(i, ii, k);
    }
  }

  /** `h += S1(e) + Ch(e, f, g) + k` with k the sum of a schedule word and a constant. */
  function Raised(h: Word, s1: Word, ch: Word, w: Word, k: Word): Word {
    h + (s1 + ch + (w + k))
  }

  lemma Regroup(h: Word, s1: Word, ch: Word, k: Word, w: Word)
    ensures Raised(h, s1, ch, w, k) == Sum5(h, s1, ch, k, w)
  {
  }

  /** The new h and d cells of the round function make one round of the standard. */
  lemma RoundAgrees(v: Vars, k: Word, w: Word)
    ensures var h := Raised(v.h, BigSigma1(v.e), CodeCh(v.e, v.f, v.g), w, k);
            var d := Plus(v.d, h);
            var h' := Plus(h, Plus(BigSigma0(v.a), CodeMaj(v.a, v.b, v.c)));
            Round(v, k, w) == Vars(h', v.a, v.b, v.c, d, v.e, v.f, v.g)
  {
    hide BigSigma0, BigSigma1, CodeCh, CodeMaj, Ch, Maj, Plus, Raised, Sum5;
    ChAgrees(v.e, v.f, v.g);
    MajAgrees(v.a, v.b, v.c);
    Regroup(v.h, BigSigma1(v.e), Ch(v.e, v.f, v.g), k, w);
  }

  class Context {
    const state: array<Word>
    const buf: array<Byte>
    var count: nat
    ghost var msg: seq<Byte>

    ghost predicate Shaped()
      reads this
    {
      state.Length == 8 && buf.Length == 64
    }

    /** The state has absorbed the full blocks of the message, the buffer holds
        the rest, and the counter is the length in bits. */
    ghost predicate Valid()
      reads this, state, buf
    {
      Loaded() && count == BitLength(|msg|)
    }

    ghost predicate Loaded()
      reads this, state, buf
    {
      && Shaped() && state[..] == Absorb(Initial(), msg[..Full(|msg|)])
      && buf[..|msg| % 64] == msg[Full(|msg|)..]
    }

    /** SHA256_Init. */
    constructor ()
      ensures Valid() && fresh(state) && fresh(buf) && msg == []
    {
      state := new Word[8];
      buf := new Byte[64];
      count := 0;
      msg := [];
      new;
      state[0], state[1], state[2], state[3] := 0x6A09E667, 0xBB67AE85, 0x3C6EF372, 0xA54FF53A;
      state[4], state[5], state[6], state[7] := 0x510E527F, 0x9B05688C, 0x1F83D9AB, 0x5BE0CD19;
      assert state[..] == Initial();
    }

    /** be32dec_vect of one block. */
    static method Decode(w: array<Word>, block: seq<Byte>)
      requires w.Length == 64 && |block| == 64
      modifies w
      ensures w[..16] == Words(block)
    {
      hide WordOf, Decode32;
      var i := 0;
      while i < 16
        invariant 0 <= i <= 16
        invariant forall j :: 0 <= j < i ==> w[j] == Words(block)[j]
      {
        DecodeAgrees(block[4 * i], block[4 * i + 1], block[4 * i + 2], block[4 * i + 3]);
        w[i] := Decode32(block[4 * i], block[4 * i + 1], block[4 * i + 2], block[4 * i + 3]);
        i := i + 1;
      }
    }

    /** RNDr: one round on the rotated working variables. */
    static method Rnd(s: array<Word>, w: array<Word>, i: nat, ii: nat)
      requires s.Length == 8 && w.Length == 64 && s != w && i < 16 && ii <= 48 && ii % 16 == 0
      modifies s
      ensures View(s[..], i + ii + 1) == Round(old(View(s[..], i + ii)), K(i + ii), w[i + ii])
    {
      hide BigSigma0, BigSigma1, CodeCh, CodeMaj, Round, K, Plus, Raised, Slot;
      ghost var s0 := s[..];
      var a, b, c, d := s[Slot(i, 0)], s[Slot(i, 1)], s[Slot(i, 2)], s[Slot(i, 3)];
      var e, f, g, h := s[Slot(i, 4)], s[Slot(i, 5)], s[Slot(i, 6)], s[Slot(i, 7)];
      h := Raised(h, BigSigma1(e), CodeCh(e, f, g), w[i + ii], K(i + ii));
      d := Plus(d, h);
      h := Plus(h, Plus(BigSigma0(a), CodeMaj(a, b, c)));
      s[Slot(i, 3)] := d;
      s[Slot(i, 7)] := h;
      assert s[..] == s0[Slot(i, 3) := d][Slot(i, 7) := h];
      ViewRepeats(s0, i, ii);
      ViewRepeats(s[..], i + 1, ii);
      ViewTurned(s0, s[..], i, d, h);
      RoundAgrees(View(s0, i), K(i + ii), w[i + ii]);
    }

    /** MSCH: one more word of the message schedule. */
    static method Msch(w: array<Word>, ii: nat, i: nat, ghost m: seq<Word>)
      requires w.Length == 64 && i + ii < 48 && |m| == 16
      requires forall j :: 0 <= j < i + ii + 16 ==> w[j] == Schedule(m, j)
      modifies w
      ensures forall j :: 0 <= j < i + ii + 17 ==> w[j] == Schedule(m, j)
    {
      hide ScheduleStep;
      w[i + ii + 16] := ScheduleStep(w[i + ii + 14], w[i + ii + 9], w[i + ii + 1], w[i + ii]);
      ScheduleNext(m, i + ii + 16);
    }

    static lemma ScheduleNext(m: seq<Word>, t: nat)
      requires |m| == 16 && t >= 16
      ensures Schedule(m, t) ==
          ScheduleStep(Schedule(m, t - 2), Schedule(m, t - 7), Schedule(m, t - 15), Schedule(m, t - 16))
    {
      hide ScheduleStep;
    }

    /** The sixteen uses of RNDr in one turn of the main loop. */
    static method Mix16(s: array<Word>, w: array<Word>, i: nat, ghost v: Vars, ghost m: seq<Word>)
      requires s.Length == 8 && w.Length == 64 && s != w && i <= 48 && i % 16 == 0 && |m| == 16
      requires View(s[..], i) == Rounds(v, m, i)
      requires forall j :: 0 <= j < i + 16 ==> w[j] == Schedule(m, j)
      modifies s
      ensures View(s[..], i + 16) == Rounds(v, m, i + 16)
    {
      hide Round, K, Schedule, View, Rounds;
      for r := 0 to 16
        invariant View(s[..], i + r) == Rounds(v, m, i + r)
      {
        Rnd(s, w, r, i);
        RoundsNext(v, m, i + r);
      }
    }

    /** The sixteen uses of MSCH. */
    static method Extend16(w: array<Word>, i: nat, ghost m: seq<Word>)
      requires w.Length == 64 && i < 48 && i % 16 == 0 && |m| == 16
      requires forall j :: 0 <= j < i + 16 ==> w[j] == Schedule(m, j)
      modifies w
      ensures forall j :: 0 <= j < i + 32 ==> w[j] == Schedule(m, j)
    {
      hide Schedule;
      for r := 0 to 16
        invariant forall j :: 0 <= j < i + r + 16 ==> w[j] == Schedule(m, j)
      {
        Msch(w, r, i, m);
      }
    }

    /** SHA256_Transform. */
    method Transform(block: seq<Byte>)
      requires Shaped() && |block| == 64
      modifies state
      ensures state[..] == Compress(old(state[..]), block)
    {
      hide Round, K, Schedule, Words, View, Rounds, Add;
      ghost var h := state[..];
      ghost var m := Words(block);
      var w := new Word[64];
      var s := new Word[8];
      Decode(w, block);
      FirstWords(w[..16], m);
      forall i | 0 <= i < 8 {
        s[i] := state[i];
      }
      assert s[..] == h;
      ViewStart(h, m);
      var i := 0;
      while true
        invariant 0 <= i <= 48 && i % 16 == 0
        invariant View(s[..], i) == Rounds(Load(h), m, i)
        invariant forall j :: 0 <= j < i + 16 ==> w[j] == Schedule(m, j)
        invariant state[..] == h
        decreases 48 - i
      {
        Mix16(s, w, i, Load(h), m);
        if i == 48 {
          break;
        }
        Extend16(w, i, m);
        i := i + 16;
      }
      ViewEnd(s[..]);
      MixIn(s, h);
    }

    /** The last step of SHA256_Transform. */
    method MixIn(s: array<Word>, ghost h: seq<Word>)
      requires Shaped() && s.Length == 8 && s != state && state[..] == h
      modifies state
      ensures state[..] == Add(h, Load(s[..]))
    {
      hide Plus;
      var i := 0;
      while i < 8
        invariant 0 <= i <= 8
        invariant forall j :: 0 <= j < i ==> state[j] == Plus(h[j], s[j])
        invariant forall j :: i <= j < 8 ==> state[j] == h[j]
      {
        state[i] := Plus(state[i], s[i]);
        i := i + 1;
      }
      AddEach(h, s[..], state[..]);
    }

    static lemma AddEach(h: seq<Word>, v: seq<Word>, r: seq<Word>)
      requires |h| == |v| == |r| == 8
      requires forall j :: 0 <= j < 8 ==> r[j] == Plus(h[j], v[j])
      ensures r == Add(h, Load(v))
    {
      hide Plus;
      var e := Add(h, Load(v));
      assert r[0] == e[0] && r[1] == e[1] && r[2] == e[2] && r[3] == e[3];
      assert r[4] == e[4] && r[5] == e[5] && r[6] == e[6] && r[7] == e[7];
      assert r == e;
    }

    static lemma FirstWords(w: seq<Word>, m: seq<Word>)
      requires |m| == 16 && w == m
      ensures forall j :: 0 <= j < 16 ==> w[j] == Schedule(m, j)
    {
    }

    static lemma ViewStart(h: seq<Word>, m: seq<Word>)
      requires |h| == 8 && |m| == 16
      ensures View(h, 0) == Rounds(Load(h), m, 0)
    {
    }

    static lemma ViewEnd(s: seq<Word>)
      requires |s| == 8
      ensures View(s, 64) == Load(s)
    {
    }

    static lemma RoundsNext(v: Vars, m: seq<Word>, t: nat)
      requires |m| == 16 && t < 64
      ensures Rounds(v, m, t + 1) == Round(Rounds(v, m, t), K(t), Schedule(m, t))
    {
    }

    /** Absorbing one more block of the data. */
    static lemma AbsorbBlock(data: seq<Byte>, block: seq<Byte>)
      requires |data| % 64 == 0 && |block| == 64
      ensures Absorb(Initial(), data + block) == Compress(Absorb(Initial(), data), block)
    {
      hide Compress;
      var all := data + block;
      assert all[..|all| - 64] == data && all[|all| - 64..] == block;
    }

    /** The state has absorbed the data. */
    static ghost predicate Holds(h: seq<Word>, data: seq<Byte>) {
      |data| % 64 == 0 && h == Absorb(Initial(), data)
    }

    static lemma HoldsMore(h: seq<Word>, data: seq<Byte>, block: seq<Byte>)
      requires Holds(h, data) && |h| == 8 && |block| == 64
      ensures Holds(Compress(h, block), data + block)
    {
      hide Compress;
      AbsorbBlock(data, block);
    }

    /** The loop of SHA256_Update over complete blocks, from position `start` on. */
    method AbsorbBlocks(src: seq<Byte>, start: nat, ghost done: seq<Byte>) returns (pos: nat)
      requires Shaped() && start <= |src| && Holds(state[..], done)
      modifies state
      ensures start <= pos <= |src| < pos + 64 && (pos - start) % 64 == 0
      ensures Holds(state[..], done + src[start..pos])
    {
      hide Holds, Compress;
      pos := start;
      assert done + src[start..pos] == done;
      while |src| - pos >= 64
        invariant start <= pos <= |src| && (pos - start) % 64 == 0
        invariant Holds(state[..], done + src[start..pos])
      {
        HoldsMore(state[..], done + src[start..pos], src[pos..pos + 64]);
        Transform(src[pos..pos + 64]);
        assert done + src[start..pos + 64] == done + src[start..pos] + src[pos..pos + 64];
        pos := pos + 64;
      }
    }

    /** SHA256_Update when the buffer does not get full. */
    method Keep(src: seq<Byte>, r: nat)
      requires Loaded() && r == |msg| % 64 && |src| < 64 - r
      modifies this`msg, buf
      ensures Loaded() && msg == old(msg) + src
    {
      hide Absorb;
      ghost var was := msg;
      CopyIn(buf, r, src);
      msg := msg + src;
      assert Full(|msg|) == Full(|was|);
      assert msg[..Full(|was|)] == was[..Full(|was|)] && msg[Full(|was|)..] == was[Full(|was|)..] + src;
    }

    /** SHA256_Update when it does: the buffer is absorbed, then complete blocks. */
    method Consume(src: seq<Byte>, r: nat)
      requires Loaded() && r == |msg| % 64 && |src| >= 64 - r
      modifies this`msg, state, buf
      ensures Loaded() && msg == old(msg) + src
    {
      hide Absorb, Compress;
      ghost var was := msg;
      CopyIn(buf, r, src[..64 - r]);
      ghost var first := was[Full(|was|)..] + src[..64 - r];
      assert buf[..] == first;
      Transform(buf[..]);
      AbsorbBlock(was[..Full(|was|)], first);
      var pos := AbsorbBlocks(src, 64 - r, was[..Full(|was|)] + first);
      CopyIn(buf, 0, src[pos..]);
      Reached(was, src, r, pos);
      msg := msg + src;
    }

    /** SHA256_Update. */
    method Update(src: seq<Byte>)
      requires Valid()
      modifies this, state, buf
      ensures Valid() && msg == old(msg) + src
    {
      hide Absorb, BitLength;
      BitLengthAdds(|msg|, |src|);
      BitLengthRest(|msg|);
      var r := count / 8 % 64;
      count := (count + BitLength(|src|)) % 0x1_0000_0000_0000_0000;
      if |src| < 64 - r {
        Keep(src, r);
      } else {
        Consume(src, r);
      }
    }

    /** How the bytes of the message are spread over state and buffer. */
    lemma Reached(was: seq<Byte>, src: seq<Byte>, r: nat, pos: nat)
      requires r == |was| % 64 && 64 - r <= pos <= |src| < pos + 64 && (pos - (64 - r)) % 64 == 0
      ensures var all := was + src;
              Full(|all|) == |was| + pos && all[Full(|all|)..] == src[pos..] && |all| % 64 == |src| - pos &&
              all[..Full(|all|)] == was[..Full(|was|)] + (was[Full(|was|)..] + src[..64 - r]) + src[64 - r..pos]
    {
    }

    /** SHA256_Pad: afterwards the state has absorbed the padded message. */
    method PadMessage()
      requires Valid()
      modifies state, buf
      ensures Shaped() && state[..] == Absorb(Initial(), Padded(msg)) && count == old(count) && msg == old(msg)
    {
      hide Absorb, Compress, BitLength, LengthBlock, Padded;
      BitLengthRest(|msg|);
      var r := count / 8 % 64;
      if r < 56 {
        FinishOne(r);
      } else {
        FinishTwo(r);
      }
    }

    /** The last block when the length still fits into it. */
    method FinishOne(r: nat)
      requires Valid() && r == |msg| % 64 && r < 56
      modifies state, buf
      ensures state[..] == Absorb(Initial(), Padded(msg))
    {
      hide Absorb, Compress, BitLength, LengthBlock;
      ghost var full := msg[..Full(|msg|)];
      CopyIn(buf, r, Pad(56 - r));
      CopyIn(buf, 56, LengthBlock(count));
      assert buf[..] == msg[Full(|msg|)..] + Pad(56 - r) + LengthBlock(count);
      ghost var last := buf[..];
      Transform(buf[..]);
      AbsorbBlock(full, last);
      assert Padded(msg) == full + last;
    }

    /** The last two blocks when it does not. */
    method FinishTwo(r: nat)
      requires Valid() && r == |msg| % 64 && r >= 56
      modifies state, buf
      ensures state[..] == Absorb(Initial(), Padded(msg))
    {
      hide Absorb, Compress, BitLength, LengthBlock, Padded;
      ghost var full := msg[..Full(|msg|)];
      CopyIn(buf, r, Pad(64 - r));
      ghost var first := msg[Full(|msg|)..] + Pad(64 - r);
      assert buf[..] == first;
      Transform(buf[..]);
      AbsorbBlock(full, first);
      CopyIn(buf, 0, Zeros(56));
      CopyIn(buf, 56, LengthBlock(count));
      ghost var second := Zeros(56) + LengthBlock(count);
      assert buf[..] == second;
      Transform(buf[..]);
      AbsorbBlock(full + first, second);
      PaddedTwo(msg, r);
    }

    static lemma PaddedTwo(m: seq<Byte>, r: nat)
      requires r == |m| % 64 && r >= 56
      ensures var n := |m| - r;
              Padded(m) == m[..n] + (m[n..] + Pad(64 - r)) + (Zeros(56) + LengthBlock(BitLength(|m|)))
    {
      hide BitLength, LengthBlock;
    }

    /** be32enc_vect of the state. */
    method EncodeState() returns (digest: seq<Byte>)
      requires Shaped()
      ensures digest == Encode(state[..])
    {
      digest := [];
      var i := 0;
      while i < 8
        invariant 0 <= i <= 8 && digest == Encode(state[..i])
      {
        digest := digest + BytesOf(state[i]);
        assert state[..i + 1][..i] == state[..i];
        i := i + 1;
      }
      assert state[..8] == state[..];
    }

    /** SHA256_Final: the digest of all bytes so far; the context is cleared. */
    method Final() returns (digest: seq<Byte>)
      requires Valid()
      modifies this, state, buf
      ensures digest == Digest(old(msg))
      ensures Shaped() && count == 0 && state[..] == seq(8, _ => 0) && buf[..] == Zeros(64)
    {
      hide Absorb, Padded;
      PadMessage();
      digest := EncodeState();
      count := 0;
      forall i | 0 <= i < 8 {
        state[i] := 0;
      }
      forall i | 0 <= i < 64 {
        buf[i] := 0;
      }
    }
  }

  /** However the input is cut into chunks, the digest is that of the whole. */
  method HashChunks(chunks: seq<seq<Byte>>) returns (digest: seq<Byte>)
    ensures digest == Digest(Concat(chunks))
  {
    hide Digest, Context.Valid;
    var ctx := new Context();
    var i := 0;
    while i < |chunks|
      invariant 0 <= i <= |chunks| && ctx.Valid() && fresh(ctx) && fresh(ctx.state) && fresh(ctx.buf)
      invariant ctx.msg == Concat(chunks[..i])
    {
      ctx.Update(chunks[i]);
      assert chunks[..i + 1][..i] == chunks[..i];
      i := i + 1;
    }
    assert chunks[..i] == chunks;
    digest := ctx.Final();
  }
}
