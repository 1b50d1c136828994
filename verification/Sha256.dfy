/** SHA-256 (crypto/src/sha256.cpp) against FIPS 180-4: the definition on a whole message (sections
    5.1.1, 5.2.1, 5.3.3 and 6.2.2), and the class that takes the message in any pieces. */
module Sha256 {
  import opened Bytes
  import opened Crc

  const BLOCK := 64

  // ---- words (sections 3.2 and 4.1.2) ----------------------------------------------------------------------

  function And(a: Word, b: Word): Word { Word(a.v & b.v) }

  /** Addition modulo 2^32. */
  function Plus(a: Word, b: Word): Word { Word(a.v + b.v) }

  function Shr(x: Word, n: bv32): Word
    requires n < 32
  {
    Word(x.v >> n)
  }

  function Rotr(x: Word, n: bv32): Word
    requires 0 < n < 32
  {
    Word((x.v >> n) | (x.v << (32 - n)))
  }

  function Ch(x: Word, y: Word, z: Word): Word { Xor(And(x, y), And(Not(x), z)) }

  function Maj(x: Word, y: Word, z: Word): Word { Xor(Xor(And(x, y), And(x, z)), And(y, z)) }

  function BigSigma0(x: Word): Word { Xor(Xor(Rotr(x, 2), Rotr(x, 13)), Rotr(x, 22)) }

  function BigSigma1(x: Word): Word { Xor(Xor(Rotr(x, 6), Rotr(x, 11)), Rotr(x, 25)) }

  function SmallSigma0(x: Word): Word { Xor(Xor(Rotr(x, 7), Rotr(x, 18)), Shr(x, 3)) }

  function SmallSigma1(x: Word): Word { Xor(Xor(Rotr(x, 17), Rotr(x, 19)), Shr(x, 10)) }

  /** Constants of section 4.2.2, sixteen at a time. */
  const K_0: seq<bv32> := [
    0x428a2f98, 0x71374491, 0xb5c0fbcf, 0xe9b5dba5, 0x3956c25b, 0x59f111f1, 0x923f82a4, 0xab1c5ed5,
    0xd807aa98, 0x12835b01, 0x243185be, 0x550c7dc3, 0x72be5d74, 0x80deb1fe, 0x9bdc06a7, 0xc19bf174]

  const K_1: seq<bv32> := [
    0xe49b69c1, 0xefbe4786, 0x0fc19dc6, 0x240ca1cc, 0x2de92c6f, 0x4a7484aa, 0x5cb0a9dc, 0x76f988da,
    0x983e5152, 0xa831c66d, 0xb00327c8, 0xbf597fc7, 0xc6e00bf3, 0xd5a79147, 0x06ca6351, 0x14292967]

  const K_2: seq<bv32> := [
    0x27b70a85, 0x2e1b2138, 0x4d2c6dfc, 0x53380d13, 0x650a7354, 0x766a0abb, 0x81c2c92e, 0x92722c85,
    0xa2bfe8a1, 0xa81a664b, 0xc24b8b70, 0xc76c51a3, 0xd192e819, 0xd6990624, 0xf40e3585, 0x106aa070]

  const K_3: seq<bv32> := [
    0x19a4c116, 0x1e376c08, 0x2748774c, 0x34b0bcb5, 0x391c0cb3, 0x4ed8aa4a, 0x5b9cca4f, 0x682e6ff3,
    0x748f82ee, 0x78a5636f, 0x84c87814, 0x8cc70208, 0x90befffa, 0xa4506ceb, 0xbef9a3f7, 0xc67178f2]

  function Constant(t: nat): Word
    requires t < 64
  {
    Word(if t < 16 then K_0[t] else if t < 32 then K_1[t - 16] else if t < 48 then K_2[t - 32] else K_3[t - 48])
  }

  /** The eight working variables, and the hash value between blocks. */
  datatype State = State(a: Word, b: Word, c: Word, d: Word, e: Word, f: Word, g: Word, h: Word)

  /** Section 5.3.3. */
  const INITIAL := State(Word(0x6a09e667), Word(0xbb67ae85), Word(0x3c6ef372), Word(0xa54ff53a),
                         Word(0x510e527f), Word(0x9b05688c), Word(0x1f83d9ab), Word(0x5be0cd19))

  /** Big-endian. */
  function Load(p: seq<u8>): Word
    requires |p| == 4
  {
    Join(Widen(p[3]), Widen(p[2]), Widen(p[1]), Widen(p[0]))
  }

  function Store(w: Word): (r: seq<u8>)
    ensures |r| == 4
  {
    [LowByte(Shr(w, 24)), LowByte(Shr(w, 16)), LowByte(Shr(w, 8)), LowByte(w)]
  }

  // ---- the definition ------------------------------------------------------------------------------------------

  /** The message schedule, step 1. */
  function W(block: seq<u8>, t: nat): Word
    requires |block| == BLOCK && t < 64
  {
    if t < 16 then Load(block[4 * t..4 * t + 4])
    else Plus(Plus(Plus(SmallSigma1(W(block, t - 2)), W(block, t - 7)), SmallSigma0(W(block, t - 15))),
      W(block, t - 16))
  }

  /** One round, step 3. */
  function Round(s: State, k: Word, w: Word): State {
    var t1 := Plus(Plus(Plus(Plus(s.h, BigSigma1(s.e)), Ch(s.e, s.f, s.g)), k), w);
    var t2 := Plus(BigSigma0(s.a), Maj(s.a, s.b, s.c));
    State(Plus(t1, t2), s.a, s.b, s.c, Plus(s.d, t1), s.e, s.f, s.g)
  }

  /** The working variables after `t` rounds. */
  function Rounds(block: seq<u8>, s: State, t: nat): State
    requires |block| == BLOCK && t <= 64
  {
    if t == 0 then s else Round(Rounds(block, s, t - 1), Constant(t - 1), W(block, t - 1))
  }

  /** Steps 2 and 4. */
  function Compressed(h: State, block: seq<u8>): State
    requires |block| == BLOCK
  {
    var s := Rounds(block, h, 64);
    State(Plus(h.a, s.a), Plus(h.b, s.b), Plus(h.c, s.c), Plus(h.d, s.d), Plus(h.e, s.e), Plus(h.f, s.f),
      Plus(h.g, s.g), Plus(h.h, s.h))
  }

  /** The hash value after all blocks of `m`. */
  function Hash(m: seq<u8>): State
    requires |m| % BLOCK == 0
  {
    if |m| == 0 then INITIAL else Compressed(Hash(m[..|m| - BLOCK]), m[|m| - BLOCK..])
  }

  /** How many zero bytes the padding needs. */
  function ZeroCount(n: nat): (k: nat)
    ensures (n + 1 + k) % BLOCK == BLOCK - 8 && k < BLOCK
  {
    (BLOCK - 9 - n) % BLOCK
  }

  /** It is the smallest number that works, as section 5.1.1 asks. */
  lemma ZeroCountSmallest(n: nat, k: nat)
    requires (n + 1 + k) % BLOCK == BLOCK - 8
    ensures ZeroCount(n) <= k
  {
  }

  /** The low `k` bytes of `n`, most significant first. */
  function BigEndian(n: nat, k: nat): (r: seq<u8>)
    ensures |r| == k
  {
    if k == 0 then [] else BigEndian(n / 256, k - 1) + [n % 256]
  }

  /** What is appended to a message of `n` bytes: a one bit, zeros, and the length in bits. */
  function Tail(n: nat, bits: nat): (t: seq<u8>)
    ensures (n + |t|) % BLOCK == 0
  {
    [0x80] + Zeros(ZeroCount(n)) + BigEndian(bits, 8)
  }

  function Bytes8(s: State): (r: seq<u8>)
    ensures |r| == 32
  {
    Store(s.a) + Store(s.b) + Store(s.c) + Store(s.d) + Store(s.e) + Store(s.f) + Store(s.g) + Store(s.h)
  }

  /** The digest for a stated length in bits. */
  function DigestOf(m: seq<u8>, bits: nat): seq<u8> {
    Bytes8(Hash(m + Tail(|m|, bits)))
  }

  /** Longest message, in bytes, whose length in bits fits 64 bits. */
  const LIMIT := 0x2000_0000_0000_0000

  /** SHA-256 of a message. */
  function Digest(m: seq<u8>): seq<u8>
    requires |m| < LIMIT
  {
    DigestOf(m, 8 * |m|)
  }

  /** The same with the length counted modulo 2^64 bits, as the class counts it. */
  function WrappedDigest(m: seq<u8>): seq<u8> {
    DigestOf(m, 8 * |m| % 0x1_0000_0000_0000_0000)
  }

  lemma ShortEnough(m: seq<u8>)
    requires |m| < LIMIT
    ensures WrappedDigest(m) == Digest(m)
  {
    hide DigestOf;
  }

  // ---- feeding in pieces ----------------------------------------------------------------------------------------

  lemma HashMore(m: seq<u8>, block: seq<u8>)
    requires |m| % BLOCK == 0 && |block| == BLOCK
    ensures Hash(m + block) == Compressed(Hash(m), block)
  {
    hide Compressed;
    assert (m + block)[..|m|] == m && (m + block)[|m|..] == block;
  }

  lemma EmptyHash()
    ensures Hash([]) == INITIAL
  {
  }

  class Sha256 {
    const h: array<Word>
    const buf: array<u8>
    var bufLen: nat
    var total: u64
    var finished: bool
    var digest: seq<u8>
    /** The message so far. */
    ghost var fed: seq<u8>

    function Value(): State
      reads h
      requires h.Length == 8
    {
      State(h[0], h[1], h[2], h[3], h[4], h[5], h[6], h[7])
    }

    /** Whole blocks are in the hash value, the rest is in the buffer. */
    ghost predicate Absorbed()
      reads this, h, buf
    {
      && h.Length == 8 && buf.Length == BLOCK && bufLen < BLOCK && bufLen <= |fed|
      && (|fed| - bufLen) % BLOCK == 0
      && Value() == Hash(fed[..|fed| - bufLen]) && buf[..bufLen] == fed[|fed| - bufLen..]
    }

    ghost predicate Valid()
      reads this, h, buf
    {
      && h.Length == 8 && buf.Length == BLOCK
      && (if finished then digest == WrappedDigest(fed)
          else Absorbed() && total == |fed| % 0x1_0000_0000_0000_0000)
    }

    constructor ()
      ensures Valid() && fresh(h) && fresh(buf) && !finished && fed == []
    {
      h := new Word[8];
      buf := new u8[BLOCK];
      new;
      Reset();
    }

    method SetValue(s: State)
      requires h.Length == 8
      modifies h
      ensures Value() == s
    {
      h[0], h[1], h[2], h[3] := s.a, s.b, s.c, s.d;
      h[4], h[5], h[6], h[7] := s.e, s.f, s.g, s.h;
    }

    method Reset()
      requires h.Length == 8 && buf.Length == BLOCK
      modifies this, h, buf
      ensures Valid() && !finished && fed == []
    {
      hide DigestOf, Hash, Value;
      EmptyHash();
      SetValue(INITIAL);
      bufLen, total, finished, digest := 0, 0, false, Zeros(32);
      fed := [];
      assert buf[..0] == [] && fed[..0] == [];
    }

    method Schedule(block: seq<u8>) returns (w: array<Word>)
      requires |block| == BLOCK
      ensures fresh(w) && w.Length == 64 && forall t :: 0 <= t < 64 ==> w[t] == W(block, t)
    {
      hide Load, SmallSigma0, SmallSigma1, Plus;
      w := new Word[64];
      var t := 0;
      while t < 16
        invariant 0 <= t <= 16 && forall k :: 0 <= k < t ==> w[k] == W(block, k)
      {
        w[t] := Load(block[4 * t..4 * t + 4]);
        t := t + 1;
      }
      while t < 64
        invariant 16 <= t <= 64 && forall k :: 0 <= k < t ==> w[k] == W(block, k)
      {
        w[t] := Plus(Plus(Plus(SmallSigma1(w[t - 2]), w[t - 7]), SmallSigma0(w[t - 15])), w[t - 16]);
        t := t + 1;
      }
    }

    method Compress(block: seq<u8>)
      requires |block| == BLOCK && h.Length == 8
      modifies h
      ensures Value() == Compressed(old(Value()), block)
    {
      hide W, Plus, BigSigma0, BigSigma1, Ch, Maj, Constant;
      var w := Schedule(block);
      ghost var start := Value();
      var a, b, c, d, e, f, g, hh := h[0], h[1], h[2], h[3], h[4], h[5], h[6], h[7];
      var t := 0;
      while t < 64
        invariant 0 <= t <= 64 && State(a, b, c, d, e, f, g, hh) == Rounds(block, start, t)
      {
        var t1 := Plus(Plus(Plus(Plus(hh, BigSigma1(e)), Ch(e, f, g)), Constant(t)), w[t]);
        var t2 := Plus(BigSigma0(a), Maj(a, b, c));
        hh := g;
        g := f;
        f := e;
        e := Plus(d, t1);
        d := c;
        c := b;
        b := a;
        a := Plus(t1, t2);
        t := t + 1;
      }
      h[0], h[1], h[2], h[3] := Plus(h[0], a), Plus(h[1], b), Plus(h[2], c), Plus(h[3], d);
      h[4], h[5], h[6], h[7] := Plus(h[4], e), Plus(h[5], f), Plus(h[6], g), Plus(h[7], hh);
    }

    method CopyIn(p: seq<u8>)
      requires h.Length == 8 && buf.Length == BLOCK && bufLen + |p| <= BLOCK
      modifies this`bufLen, buf
      ensures bufLen == old(bufLen) + |p| && buf[..bufLen] == old(buf[..bufLen]) + p
    {
      var i := 0;
      while i < |p|
        invariant 0 <= i <= |p| && bufLen == old(bufLen) && buf[..bufLen + i] == old(buf[..bufLen]) + p[..i]
      {
        buf[bufLen + i] := p[i];
        i := i + 1;
      }
      bufLen := bufLen + |p|;
    }

    /** First the buffered tail is filled up, then whole blocks go in where they stand, then what is
        left is kept. */
    method Absorb(data: seq<u8>)
      requires Absorbed() && |data| > 0
      modifies this`bufLen, this`fed, h, buf
      ensures Absorbed() && fed == old(fed) + data
    {
      hide Hash, Compressed, Value;
      var p := data;
      ghost var done := fed[..|fed| - bufLen];
      assert fed == done + buf[..bufLen];
      ghost var m := fed + data;
      if bufLen > 0 {
        var need := BLOCK - bufLen;
        var take := if |p| < need then |p| else need;
        CopyIn(p[..take]);
        assert m == done + buf[..bufLen] + p[take..];
        p := p[take..];
        if bufLen < BLOCK {
          fed := m;
          assert fed[..|fed| - bufLen] == done && fed[|fed| - bufLen..] == buf[..bufLen];
          return;
        }
        HashMore(done, buf[..]);
        assert buf[..bufLen] == buf[..];
        Compress(buf[..]);
        done := done + buf[..];
        bufLen := 0;
      }
      assert m == done + p;
      p, done := WholeBlocks(p, done);
      CopyIn(p);
      fed := m;
      assert fed[..|fed| - bufLen] == done && fed[|fed| - bufLen..] == p == buf[..bufLen];
    }

    method WholeBlocks(data: seq<u8>, ghost before: seq<u8>) returns (p: seq<u8>, ghost done: seq<u8>)
      requires h.Length == 8 && |before| % BLOCK == 0 && Value() == Hash(before)
      modifies h
      ensures |p| < BLOCK && |done| % BLOCK == 0 && Value() == Hash(done) && done + p == before + data
    {
      hide Hash, Compressed, Value;
      p, done := data, before;
      while |p| >= BLOCK
        invariant |done| % BLOCK == 0 && Value() == Hash(done) && done + p == before + data
      {
        HashMore(done, p[..BLOCK]);
        Compress(p[..BLOCK]);
        assert (done + p[..BLOCK]) + p[BLOCK..] == done + p;
        done := done + p[..BLOCK];
        p := p[BLOCK..];
      }
    }

    /** `update`. After `finish` it does nothing. */
    method Update(data: seq<u8>)
      requires Valid()
      modifies this`bufLen, this`total, this`fed, h, buf
      ensures Valid() && fed == if finished then old(fed) else old(fed) + data
      ensures finished ==> digest == old(digest)
    {
      hide DigestOf, Hash, Value, WrappedDigest;
      if finished || |data| == 0 { return; }
      Counted(total, |fed|, |data|);
      total := (total + |data|) % 0x1_0000_0000_0000_0000;
      Absorb(data);
    }

    /** The padding is fed like any data; its length is fixed before. Finishing again gives the same
        digest. While the message is shorter than 2^61 bytes, that digest is SHA-256 of everything fed,
        however it was split. */
    method Finish() returns (r: seq<u8>)
      requires Valid()
      modifies this, h, buf
      ensures Valid() && finished && r == digest && fed == old(fed)
      ensures old(finished) ==> r == old(digest)
      ensures r == WrappedDigest(fed) && (|fed| < LIMIT ==> r == Digest(fed))
    {
      hide Hash, Value, DigestOf, Tail, Bytes8;
      ghost var m := fed;
      if finished {
        if |m| < LIMIT { ShortEnough(m); }
        return digest;
      }
      var pad := Padding();
      var saved := total;
      Update(pad);
      total := saved;
      if |m| < LIMIT { ShortEnough(m); }
      NothingLeft(|fed|, bufLen);
      assert fed[..|fed|] == fed;
      digest := Bytes8(Value());
      DigestIs(m, 8 * |m| % 0x1_0000_0000_0000_0000);
      finished := true;
      fed := m;
      r := digest;
    }

    /** The bytes that close the message. */
    method Padding() returns (pad: seq<u8>)
      requires Valid() && !finished
      ensures pad == Tail(|fed|, 8 * |fed| % 0x1_0000_0000_0000_0000)
    {
      hide Hash, Value, BigEndian, ZeroCount;
      var bits := total * 8 % 0x1_0000_0000_0000_0000;
      var rem := bufLen + 1;
      var padZeros := if rem <= BLOCK - 8 then BLOCK - 8 - rem else 2 * BLOCK - 8 - rem;
      BitCount(|fed|, total, bits);
      PadIs(|fed|, bufLen, padZeros);
      pad := [0x80] + Zeros(padZeros) + BigEndian(bits, 8);
    }
  }

  /** The counter of bytes wraps at 2^64. */
  lemma Counted(total: u64, n: nat, more: nat)
    requires total == n % 0x1_0000_0000_0000_0000
    ensures (total + more) % 0x1_0000_0000_0000_0000 == (n + more) % 0x1_0000_0000_0000_0000
  {
  }

  lemma NothingLeft(n: nat, bufLen: nat)
    requires bufLen < BLOCK && bufLen <= n && (n - bufLen) % BLOCK == 0 && n % BLOCK == 0
    ensures bufLen == 0
  {
  }

  lemma DigestIs(m: seq<u8>, bits: nat)
    ensures DigestOf(m, bits) == Bytes8(Hash(m + Tail(|m|, bits)))
  {
  }

  lemma PadIs(n: nat, bufLen: nat, padZeros: nat)
    requires bufLen < BLOCK && bufLen <= n && (n - bufLen) % BLOCK == 0
    requires padZeros == if bufLen + 1 <= BLOCK - 8 then BLOCK - 8 - (bufLen + 1) else 2 * BLOCK - 8 - (bufLen + 1)
    ensures padZeros == ZeroCount(n)
  {
  }

  /** The counter may have wrapped; the number of bits modulo 2^64 has not noticed. */
  lemma BitCount(n: nat, total: u64, bits: u64)
    requires total == n % 0x1_0000_0000_0000_0000 && bits == total * 8 % 0x1_0000_0000_0000_0000
    ensures bits == 8 * n % 0x1_0000_0000_0000_0000
  {
    var q := n / 0x1_0000_0000_0000_0000;
    Wraps(8 * total, 8 * q);
    assert 8 * n == 8 * total + 8 * q * 0x1_0000_0000_0000_0000;
  }

  lemma Wraps(a: nat, k: nat)
    ensures (a + k * 0x1_0000_0000_0000_0000) % 0x1_0000_0000_0000_0000 == a % 0x1_0000_0000_0000_0000
  {
  }

  /** `sha256`. */
  method Sha256Of(data: seq<u8>) returns (r: seq<u8>)
    ensures r == WrappedDigest(data) && (|data| < LIMIT ==> r == Digest(data))
  {
    hide DigestOf, Hash;
    var s := new Sha256();
    s.Update(data);
    assert [] + data == data;
    r := s.Finish();
  }
}
