/** One message worked through: the schedule, all rounds and the digest of "abc", as FIPS 180-4 defines them.
    A wrong rotation, order of bytes or order of variables would change the words below. */
module Sha256Example {
  import opened Bytes
  import opened Crc
  import opened Sha256

  /** The letters a, b and c. */
  const MESSAGE: seq<u8> := [0x61, 0x62, 0x63]

  /** Their one block: the message, a one bit, zeros and the length in bits. */
  const PADDED: seq<u8> := MESSAGE + [0x80] + Zeros(52) + [0, 0, 0, 0, 0, 0, 0, 24]

  // ---- the schedule -------------------------------------------------------------------------------------------

  predicate WordIs(t: nat, w: bv32)
    requires t < 64
  {
    W(PADDED, t) == Word(w)
  }

  /** The recurrence of the schedule. */
  function Recurrence(w2: bv32, w7: bv32, w15: bv32, w16: bv32): Word {
    Plus(Plus(Plus(SmallSigma1(Word(w2)), Word(w7)), SmallSigma0(Word(w15))), Word(w16))
  }

  lemma NextWord(t: nat, w2: bv32, w7: bv32, w15: bv32, w16: bv32, w: bv32)
    requires 16 <= t < 64 && WordIs(t - 2, w2) && WordIs(t - 7, w7) && WordIs(t - 15, w15) && WordIs(t - 16, w16)
    requires Recurrence(w2, w7, w15, w16) == Word(w)
    ensures WordIs(t, w)
  {
    hide Plus, SmallSigma0, SmallSigma1;
  }

  lemma ByteWords()
    ensures Widen(0) == Word(0) && Widen(0x18) == Word(0x18) && Widen(0x61) == Word(0x61)
    ensures Widen(0x62) == Word(0x62) && Widen(0x63) == Word(0x63) && Widen(0x80) == Word(0x80)
  {
  }

  /** Four bytes make a word, the first one highest. */
  lemma FirstWords()
    ensures Load([0x61, 0x62, 0x63, 0x80]) == Word(0x61626380)
    ensures Load([0, 0, 0, 0]) == Word(0)
    ensures Load([0, 0, 0, 0x18]) == Word(0x00000018)
  {
    hide Widen;
    ByteWords();
  }

  lemma MiddleWord(t: nat)
    requires 0 < t < 15
    ensures WordIs(t, 0)
  {
    hide Load;
    FirstWords();
    assert PADDED[4 * t..4 * t + 4] == [0, 0, 0, 0];
  }

  lemma Words0()
    ensures WordIs(0, 0x61626380) && WordIs(1, 0x00000000) && WordIs(2, 0x00000000) && WordIs(3, 0x00000000)
    ensures WordIs(4, 0x00000000) && WordIs(5, 0x00000000) && WordIs(6, 0x00000000) && WordIs(7, 0x00000000)
  {
    hide Load;
    FirstWords();
    assert PADDED[0..4] == [0x61, 0x62, 0x63, 0x80];
    forall t | 0 < t < 8
      ensures WordIs(t, 0)
    {
      MiddleWord(t);
    }
  }

  lemma Words1()
    ensures WordIs(8, 0x00000000) && WordIs(9, 0x00000000) && WordIs(10, 0x00000000) && WordIs(11, 0x00000000)
    ensures WordIs(12, 0x00000000) && WordIs(13, 0x00000000) && WordIs(14, 0x00000000) && WordIs(15, 0x00000018)
  {
    hide Load;
    FirstWords();
    assert PADDED[60..64] == [0, 0, 0, 0x18];
    forall t | 8 <= t < 15
      ensures WordIs(t, 0)
    {
      MiddleWord(t);
    }
  }

  lemma Words2()
    ensures WordIs(16, 0x61626380) && WordIs(17, 0x000f0000) && WordIs(18, 0x7da86405) && WordIs(19, 0x600003c6)
    ensures WordIs(20, 0x3e9d7b78) && WordIs(21, 0x0183fc00) && WordIs(22, 0x12dcbfdb) && WordIs(23, 0xe2e2c38e)
  {
    hide WordIs;
    Words0();
    Words1();
    NextWord(16, 0x00000000, 0x00000000, 0x00000000, 0x61626380, 0x61626380);
    NextWord(17, 0x00000018, 0x00000000, 0x00000000, 0x00000000, 0x000f0000);
    NextWord(18, 0x61626380, 0x00000000, 0x00000000, 0x00000000, 0x7da86405);
    NextWord(19, 0x000f0000, 0x00000000, 0x00000000, 0x00000000, 0x600003c6);
    NextWord(20, 0x7da86405, 0x00000000, 0x00000000, 0x00000000, 0x3e9d7b78);
    NextWord(21, 0x600003c6, 0x00000000, 0x00000000, 0x00000000, 0x0183fc00);
    NextWord(22, 0x3e9d7b78, 0x00000018, 0x00000000, 0x00000000, 0x12dcbfdb);
    NextWord(23, 0x0183fc00, 0x61626380, 0x00000000, 0x00000000, 0xe2e2c38e);
  }

  lemma Words3()
    ensures WordIs(24, 0xc8215c1a) && WordIs(25, 0xb73679a2) && WordIs(26, 0xe5bc3909) && WordIs(27, 0x32663c5b)
    ensures WordIs(28, 0x9d209d67) && WordIs(29, 0xec8726cb) && WordIs(30, 0x702138a4) && WordIs(31, 0xd3b7973b)
  {
    hide WordIs;
    Words1();
    Words2();
    NextWord(24, 0x12dcbfdb, 0x000f0000, 0x00000000, 0x00000000, 0xc8215c1a);
    NextWord(25, 0xe2e2c38e, 0x7da86405, 0x00000000, 0x00000000, 0xb73679a2);
    NextWord(26, 0xc8215c1a, 0x600003c6, 0x00000000, 0x00000000, 0xe5bc3909);
    NextWord(27, 0xb73679a2, 0x3e9d7b78, 0x00000000, 0x00000000, 0x32663c5b);
    NextWord(28, 0xe5bc3909, 0x0183fc00, 0x00000000, 0x00000000, 0x9d209d67);
    NextWord(29, 0x32663c5b, 0x12dcbfdb, 0x00000000, 0x00000000, 0xec8726cb);
    NextWord(30, 0x9d209d67, 0xe2e2c38e, 0x00000018, 0x00000000, 0x702138a4);
    NextWord(31, 0xec8726cb, 0xc8215c1a, 0x61626380, 0x00000018, 0xd3b7973b);
  }

  lemma Words4()
    ensures WordIs(32, 0x93f5997f) && WordIs(33, 0x3b68ba73) && WordIs(34, 0xaff4ffc1) && WordIs(35, 0xf10a5c62)
    ensures WordIs(36, 0x0a8b3996) && WordIs(37, 0x72af830a) && WordIs(38, 0x9409e33e) && WordIs(39, 0x24641522)
  {
    hide WordIs;
    Words2();
    Words3();
    NextWord(32, 0x702138a4, 0xb73679a2, 0x000f0000, 0x61626380, 0x93f5997f);
    NextWord(33, 0xd3b7973b, 0xe5bc3909, 0x7da86405, 0x000f0000, 0x3b68ba73);
    NextWord(34, 0x93f5997f, 0x32663c5b, 0x600003c6, 0x7da86405, 0xaff4ffc1);
    NextWord(35, 0x3b68ba73, 0x9d209d67, 0x3e9d7b78, 0x600003c6, 0xf10a5c62);
    NextWord(36, 0xaff4ffc1, 0xec8726cb, 0x0183fc00, 0x3e9d7b78, 0x0a8b3996);
    NextWord(37, 0xf10a5c62, 0x702138a4, 0x12dcbfdb, 0x0183fc00, 0x72af830a);
    NextWord(38, 0x0a8b3996, 0xd3b7973b, 0xe2e2c38e, 0x12dcbfdb, 0x9409e33e);
    NextWord(39, 0x72af830a, 0x93f5997f, 0xc8215c1a, 0xe2e2c38e, 0x24641522);
  }

  lemma Words5()
    ensures WordIs(40, 0x9f47bf94) && WordIs(41, 0xf0a64f5a) && WordIs(42, 0x3e246a79) && WordIs(43, 0x27333ba3)
    ensures WordIs(44, 0x0c4763f2) && WordIs(45, 0x840abf27) && WordIs(46, 0x7a290d5d) && WordIs(47, 0x065c43da)
  {
    hide WordIs;
    Words3();
    Words4();
    NextWord(40, 0x9409e33e, 0x3b68ba73, 0xb73679a2, 0xc8215c1a, 0x9f47bf94);
    NextWord(41, 0x24641522, 0xaff4ffc1, 0xe5bc3909, 0xb73679a2, 0xf0a64f5a);
    NextWord(42, 0x9f47bf94, 0xf10a5c62, 0x32663c5b, 0xe5bc3909, 0x3e246a79);
    NextWord(43, 0xf0a64f5a, 0x0a8b3996, 0x9d209d67, 0x32663c5b, 0x27333ba3);
    NextWord(44, 0x3e246a79, 0x72af830a, 0xec8726cb, 0x9d209d67, 0x0c4763f2);
    NextWord(45, 0x27333ba3, 0x9409e33e, 0x702138a4, 0xec8726cb, 0x840abf27);
    NextWord(46, 0x0c4763f2, 0x24641522, 0xd3b7973b, 0x702138a4, 0x7a290d5d);
    NextWord(47, 0x840abf27, 0x9f47bf94, 0x93f5997f, 0xd3b7973b, 0x065c43da);
  }

  lemma Words6()
    ensures WordIs(48, 0xfb3e89cb) && WordIs(49, 0xcc7617db) && WordIs(50, 0xb9e66c34) && WordIs(51, 0xa9993667)
    ensures WordIs(52, 0x84badedd) && WordIs(53, 0xc21462bc) && WordIs(54, 0x1487472c) && WordIs(55, 0xb20f7a99)
  {
    hide WordIs;
    Words4();
    Words5();
    NextWord(48, 0x7a290d5d, 0xf0a64f5a, 0x3b68ba73, 0x93f5997f, 0xfb3e89cb);
    NextWord(49, 0x065c43da, 0x3e246a79, 0xaff4ffc1, 0x3b68ba73, 0xcc7617db);
    NextWord(50, 0xfb3e89cb, 0x27333ba3, 0xf10a5c62, 0xaff4ffc1, 0xb9e66c34);
    NextWord(51, 0xcc7617db, 0x0c4763f2, 0x0a8b3996, 0xf10a5c62, 0xa9993667);
    NextWord(52, 0xb9e66c34, 0x840abf27, 0x72af830a, 0x0a8b3996, 0x84badedd);
    NextWord(53, 0xa9993667, 0x7a290d5d, 0x9409e33e, 0x72af830a, 0xc21462bc);
    NextWord(54, 0x84badedd, 0x065c43da, 0x24641522, 0x9409e33e, 0x1487472c);
    NextWord(55, 0xc21462bc, 0xfb3e89cb, 0x9f47bf94, 0x24641522, 0xb20f7a99);
  }

  lemma Words7()
    ensures WordIs(56, 0xef57b9cd) && WordIs(57, 0xebe6b238) && WordIs(58, 0x9fe3095e) && WordIs(59, 0x78bc8d4b)
    ensures WordIs(60, 0xa43fcf15) && WordIs(61, 0x668b2ff8) && WordIs(62, 0xeeaba2cc) && WordIs(63, 0x12b1edeb)
  {
    hide WordIs;
    Words5();
    Words6();
    NextWord(56, 0x1487472c, 0xcc7617db, 0xf0a64f5a, 0x9f47bf94, 0xef57b9cd);
    NextWord(57, 0xb20f7a99, 0xb9e66c34, 0x3e246a79, 0xf0a64f5a, 0xebe6b238);
    NextWord(58, 0xef57b9cd, 0xa9993667, 0x27333ba3, 0x3e246a79, 0x9fe3095e);
    NextWord(59, 0xebe6b238, 0x84badedd, 0x0c4763f2, 0x27333ba3, 0x78bc8d4b);
    NextWord(60, 0x9fe3095e, 0xc21462bc, 0x840abf27, 0x0c4763f2, 0xa43fcf15);
    NextWord(61, 0x78bc8d4b, 0x1487472c, 0x7a290d5d, 0x840abf27, 0x668b2ff8);
    NextWord(62, 0xa43fcf15, 0xb20f7a99, 0x065c43da, 0x7a290d5d, 0xeeaba2cc);
    NextWord(63, 0x668b2ff8, 0xef57b9cd, 0xfb3e89cb, 0x065c43da, 0x12b1edeb);
  }

  // ---- the rounds ---------------------------------------------------------------------------------------------

  predicate ConstantIs(t: nat, k: bv32)
    requires t < 64
  {
    Constant(t) == Word(k)
  }

  /** Round `t` makes new variables `a` and `e`; the others move on by one. */
  lemma NextState(t: nat, s: State, k: bv32, w: bv32, a: bv32, e: bv32) returns (r: State)
    requires t < 64 && Rounds(PADDED, INITIAL, t) == s && ConstantIs(t, k) && WordIs(t, w)
    requires Round(s, Word(k), Word(w)) == State(Word(a), s.a, s.b, s.c, Word(e), s.e, s.f, s.g)
    ensures r == State(Word(a), s.a, s.b, s.c, Word(e), s.e, s.f, s.g) && Rounds(PADDED, INITIAL, t + 1) == r
  {
    hide Round, W;
    r := State(Word(a), s.a, s.b, s.c, Word(e), s.e, s.f, s.g);
  }

  lemma Constants0()
    ensures ConstantIs(0, 0x428a2f98) && ConstantIs(1, 0x71374491) && ConstantIs(2, 0xb5c0fbcf)
    ensures ConstantIs(3, 0xe9b5dba5)
    ensures ConstantIs(4, 0x3956c25b) && ConstantIs(5, 0x59f111f1) && ConstantIs(6, 0x923f82a4)
    ensures ConstantIs(7, 0xab1c5ed5)
  {
  }

  lemma Constants1()
    ensures ConstantIs(8, 0xd807aa98) && ConstantIs(9, 0x12835b01) && ConstantIs(10, 0x243185be)
    ensures ConstantIs(11, 0x550c7dc3)
    ensures ConstantIs(12, 0x72be5d74) && ConstantIs(13, 0x80deb1fe) && ConstantIs(14, 0x9bdc06a7)
    ensures ConstantIs(15, 0xc19bf174)
  {
  }

  lemma Constants2()
    ensures ConstantIs(16, 0xe49b69c1) && ConstantIs(17, 0xefbe4786) && ConstantIs(18, 0x0fc19dc6)
    ensures ConstantIs(19, 0x240ca1cc)
    ensures ConstantIs(20, 0x2de92c6f) && ConstantIs(21, 0x4a7484aa) && ConstantIs(22, 0x5cb0a9dc)
    ensures ConstantIs(23, 0x76f988da)
  {
  }

  lemma Constants3()
    ensures ConstantIs(24, 0x983e5152) && ConstantIs(25, 0xa831c66d) && ConstantIs(26, 0xb00327c8)
    ensures ConstantIs(27, 0xbf597fc7)
    ensures ConstantIs(28, 0xc6e00bf3) && ConstantIs(29, 0xd5a79147) && ConstantIs(30, 0x06ca6351)
    ensures ConstantIs(31, 0x14292967)
  {
  }

  lemma Constants4()
    ensures ConstantIs(32, 0x27b70a85) && ConstantIs(33, 0x2e1b2138) && ConstantIs(34, 0x4d2c6dfc)
    ensures ConstantIs(35, 0x53380d13)
    ensures ConstantIs(36, 0x650a7354) && ConstantIs(37, 0x766a0abb) && ConstantIs(38, 0x81c2c92e)
    ensures ConstantIs(39, 0x92722c85)
  {
  }

  lemma Constants5()
    ensures ConstantIs(40, 0xa2bfe8a1) && ConstantIs(41, 0xa81a664b) && ConstantIs(42, 0xc24b8b70)
    ensures ConstantIs(43, 0xc76c51a3)
    ensures ConstantIs(44, 0xd192e819) && ConstantIs(45, 0xd6990624) && ConstantIs(46, 0xf40e3585)
    ensures ConstantIs(47, 0x106aa070)
  {
  }

  lemma Constants6()
    ensures ConstantIs(48, 0x19a4c116) && ConstantIs(49, 0x1e376c08) && ConstantIs(50, 0x2748774c)
    ensures ConstantIs(51, 0x34b0bcb5)
    ensures ConstantIs(52, 0x391c0cb3) && ConstantIs(53, 0x4ed8aa4a) && ConstantIs(54, 0x5b9cca4f)
    ensures ConstantIs(55, 0x682e6ff3)
  {
  }

  lemma Constants7()
    ensures ConstantIs(56, 0x748f82ee) && ConstantIs(57, 0x78a5636f) && ConstantIs(58, 0x84c87814)
    ensures ConstantIs(59, 0x8cc70208)
    ensures ConstantIs(60, 0x90befffa) && ConstantIs(61, 0xa4506ceb) && ConstantIs(62, 0xbef9a3f7)
    ensures ConstantIs(63, 0xc67178f2)
  {
  }

  lemma NoRounds()
    ensures Rounds(PADDED, INITIAL, 0) == INITIAL
  {
  }

  lemma Rounds0() returns (s: State)
    ensures s == State(Word(0xd550f666), Word(0xc8c347a7), Word(0x5a6ad9ad), Word(0x5d6aebcd),
                 Word(0x24e00850), Word(0xf92939eb), Word(0x78ce7989), Word(0xfa2a4622))
    ensures Rounds(PADDED, INITIAL, 4) == s
  {
    hide WordIs, ConstantIs, Rounds;
    Words0();
    Constants0();
    NoRounds();
    s := INITIAL;
    s := NextState(0, s, 0x428a2f98, 0x61626380, 0x5d6aebcd, 0xfa2a4622);
    s := NextState(1, s, 0x71374491, 0x00000000, 0x5a6ad9ad, 0x78ce7989);
    s := NextState(2, s, 0xb5c0fbcf, 0x00000000, 0xc8c347a7, 0xf92939eb);
    s := NextState(3, s, 0xe9b5dba5, 0x00000000, 0xd550f666, 0x24e00850);
  }

  lemma Rounds1() returns (s: State)
    ensures s == State(Word(0x85a07b5f), Word(0xe5030380), Word(0x2b4209f5), Word(0x04409a6a),
                 Word(0x0c657a79), Word(0x9b27a401), Word(0x714260ad), Word(0x43ada245))
    ensures Rounds(PADDED, INITIAL, 8) == s
  {
    hide WordIs, ConstantIs, Rounds;
    Words0();
    Constants0();
    s := Rounds0();
    s := NextState(4, s, 0x3956c25b, 0x00000000, 0x04409a6a, 0x43ada245);
    s := NextState(5, s, 0x59f111f1, 0x00000000, 0x2b4209f5, 0x714260ad);
    s := NextState(6, s, 0x923f82a4, 0x00000000, 0xe5030380, 0x9b27a401);
    s := NextState(7, s, 0xab1c5ed5, 0x00000000, 0x85a07b5f, 0x0c657a79);
  }

  lemma Rounds2() returns (s: State)
    ensures s == State(Word(0xf71fc5a9), Word(0x4798a3f4), Word(0x8c87346b), Word(0x8e04ecb9),
                 Word(0x816fd6e9), Word(0x436b23e8), Word(0x1cc92596), Word(0x32ca2d8c))
    ensures Rounds(PADDED, INITIAL, 12) == s
  {
    hide WordIs, ConstantIs, Rounds;
    Words1();
    Constants1();
    s := Rounds1();
    s := NextState(8, s, 0xd807aa98, 0x00000000, 0x8e04ecb9, 0x32ca2d8c);
    s := NextState(9, s, 0x12835b01, 0x00000000, 0x8c87346b, 0x1cc92596);
    s := NextState(10, s, 0x243185be, 0x00000000, 0x4798a3f4, 0x436b23e8);
    s := NextState(11, s, 0x550c7dc3, 0x00000000, 0xf71fc5a9, 0x816fd6e9);
  }

  lemma Rounds3() returns (s: State)
    ensures s == State(Word(0xb0fa238e), Word(0xc0645fde), Word(0xd932eb16), Word(0x87912990),
                 Word(0x07590dcd), Word(0x0b92f20c), Word(0x745a48de), Word(0x1e578218))
    ensures Rounds(PADDED, INITIAL, 16) == s
  {
    hide WordIs, ConstantIs, Rounds;
    Words1();
    Constants1();
    s := Rounds2();
    s := NextState(12, s, 0x72be5d74, 0x00000000, 0x87912990, 0x1e578218);
    s := NextState(13, s, 0x80deb1fe, 0x00000000, 0xd932eb16, 0x745a48de);
    s := NextState(14, s, 0x9bdc06a7, 0x00000000, 0xc0645fde, 0x0b92f20c);
    s := NextState(15, s, 0xc19bf174, 0x00000018, 0xb0fa238e, 0x07590dcd);
  }

  lemma Rounds4() returns (s: State)
    ensures s == State(Word(0xe1f20c33), Word(0xfe777bbf), Word(0xc2fbd9d1), Word(0x21da9a9b),
                 Word(0xb0638179), Word(0xcc899961), Word(0x846ee454), Word(0x8034229c))
    ensures Rounds(PADDED, INITIAL, 20) == s
  {
    hide WordIs, ConstantIs, Rounds;
    Words2();
    Constants2();
    s := Rounds3();
    s := NextState(16, s, 0xe49b69c1, 0x61626380, 0x21da9a9b, 0x8034229c);
    s := NextState(17, s, 0xefbe4786, 0x000f0000, 0xc2fbd9d1, 0x846ee454);
    s := NextState(18, s, 0x0fc19dc6, 0x7da86405, 0xfe777bbf, 0xcc899961);
    s := NextState(19, s, 0x240ca1cc, 0x600003c6, 0xe1f20c33, 0xb0638179);
  }

  lemma Rounds5() returns (s: State)
    ensures s == State(Word(0xc5d53d8d), Word(0xa7a3623f), Word(0xc2606d6d), Word(0x9dc68b63),
                 Word(0xaa47c347), Word(0x49f5114a), Word(0xe1257970), Word(0x8ada8930))
    ensures Rounds(PADDED, INITIAL, 24) == s
  {
    hide WordIs, ConstantIs, Rounds;
    Words2();
    Constants2();
    s := Rounds4();
    s := NextState(20, s, 0x2de92c6f, 0x3e9d7b78, 0x9dc68b63, 0x8ada8930);
    s := NextState(21, s, 0x4a7484aa, 0x0183fc00, 0xc2606d6d, 0xe1257970);
    s := NextState(22, s, 0x5cb0a9dc, 0x12dcbfdb, 0xa7a3623f, 0x49f5114a);
    s := NextState(23, s, 0x76f988da, 0xe2e2c38e, 0xc5d53d8d, 0xaa47c347);
  }

  lemma Rounds6() returns (s: State)
    ensures s == State(Word(0x77d37528), Word(0xb62ec4bc), Word(0xcde8037d), Word(0x1c2c2838),
                 Word(0xedffbff8), Word(0xc74c6516), Word(0x14383d8e), Word(0x2823ef91))
    ensures Rounds(PADDED, INITIAL, 28) == s
  {
    hide WordIs, ConstantIs, Rounds;
    Words3();
    Constants3();
    s := Rounds5();
    s := NextState(24, s, 0x983e5152, 0xc8215c1a, 0x1c2c2838, 0x2823ef91);
    s := NextState(25, s, 0xa831c66d, 0xb73679a2, 0xcde8037d, 0x14383d8e);
    s := NextState(26, s, 0xb00327c8, 0xe5bc3909, 0xb62ec4bc, 0xc74c6516);
    s := NextState(27, s, 0xbf597fc7, 0x32663c5b, 0x77d37528, 0xedffbff8);
  }

  lemma Rounds7() returns (s: State)
    ensures s == State(Word(0x73b33bf5), Word(0xea992a22), Word(0xa0060b30), Word(0x363482c9),
                 Word(0xba591112), Word(0x0109ab3a), Word(0xade79437), Word(0x6112a3b7))
    ensures Rounds(PADDED, INITIAL, 32) == s
  {
    hide WordIs, ConstantIs, Rounds;
    Words3();
    Constants3();
    s := Rounds6();
    s := NextState(28, s, 0xc6e00bf3, 0x9d209d67, 0x363482c9, 0x6112a3b7);
    s := NextState(29, s, 0xd5a79147, 0xec8726cb, 0xa0060b30, 0xade79437);
    s := NextState(30, s, 0x06ca6351, 0x702138a4, 0xea992a22, 0x0109ab3a);
    s := NextState(31, s, 0x14292967, 0xd3b7973b, 0x73b33bf5, 0xba591112);
  }

  lemma Rounds8() returns (s: State)
    ensures s == State(Word(0x65a0cfe4), Word(0xa9a7738c), Word(0xfe604df5), Word(0x98e12507),
                 Word(0xf4b002d6), Word(0x085f3833), Word(0x59249dd3), Word(0x9cd9f5f6))
    ensures Rounds(PADDED, INITIAL, 36) == s
  {
    hide WordIs, ConstantIs, Rounds;
    Words4();
    Constants4();
    s := Rounds7();
    s := NextState(32, s, 0x27b70a85, 0x93f5997f, 0x98e12507, 0x9cd9f5f6);
    s := NextState(33, s, 0x2e1b2138, 0x3b68ba73, 0xfe604df5, 0x59249dd3);
    s := NextState(34, s, 0x4d2c6dfc, 0xaff4ffc1, 0xa9a7738c, 0x085f3833);
    s := NextState(35, s, 0x53380d13, 0xf10a5c62, 0x65a0cfe4, 0xf4b002d6);
  }

  lemma Rounds9() returns (s: State)
    ensures s == State(Word(0x79ea687a), Word(0x6dc57a8a), Word(0x34df1604), Word(0x41a65cb1),
                 Word(0x1efbc0a0), Word(0xf0781bc8), Word(0xa507a53d), Word(0x0772a26b))
    ensures Rounds(PADDED, INITIAL, 40) == s
  {
    hide WordIs, ConstantIs, Rounds;
    Words4();
    Constants4();
    s := Rounds8();
    s := NextState(36, s, 0x650a7354, 0x0a8b3996, 0x41a65cb1, 0x0772a26b);
    s := NextState(37, s, 0x766a0abb, 0x72af830a, 0x34df1604, 0xa507a53d);
    s := NextState(38, s, 0x81c2c92e, 0x9409e33e, 0x6dc57a8a, 0xf0781bc8);
    s := NextState(39, s, 0x92722c85, 0x24641522, 0x79ea687a, 0x1efbc0a0);
  }

  lemma Rounds10() returns (s: State)
    ensures s == State(Word(0x9d4baf93), Word(0x17aa0dfe), Word(0xdf46652f), Word(0xd6670766),
                 Word(0xfda24c2e), Word(0xdecd4715), Word(0x838b2711), Word(0x26352d63))
    ensures Rounds(PADDED, INITIAL, 44) == s
  {
    hide WordIs, ConstantIs, Rounds;
    Words5();
    Constants5();
    s := Rounds9();
    s := NextState(40, s, 0xa2bfe8a1, 0x9f47bf94, 0xd6670766, 0x26352d63);
    s := NextState(41, s, 0xa81a664b, 0xf0a64f5a, 0xdf46652f, 0x838b2711);
    s := NextState(42, s, 0xc24b8b70, 0x3e246a79, 0x17aa0dfe, 0xdecd4715);
    s := NextState(43, s, 0xc76c51a3, 0x27333ba3, 0x9d4baf93, 0xfda24c2e);
  }

  lemma Rounds11() returns (s: State)
    ensures s == State(Word(0x4172328d), Word(0xa14c14b0), Word(0x72ab4b91), Word(0x26628815),
                 Word(0xfecf0bc6), Word(0xd57b94a9), Word(0xb7755da1), Word(0xa80f11f0))
    ensures Rounds(PADDED, INITIAL, 48) == s
  {
    hide WordIs, ConstantIs, Rounds;
    Words5();
    Constants5();
    s := Rounds10();
    s := NextState(44, s, 0xd192e819, 0x0c4763f2, 0x26628815, 0xa80f11f0);
    s := NextState(45, s, 0xd6990624, 0x840abf27, 0x72ab4b91, 0xb7755da1);
    s := NextState(46, s, 0xf40e3585, 0x7a290d5d, 0xa14c14b0, 0xd57b94a9);
    s := NextState(47, s, 0x106aa070, 0x065c43da, 0x4172328d, 0xfecf0bc6);
  }

  lemma Rounds12() returns (s: State)
    ensures s == State(Word(0x886e7a22), Word(0x7a0508a1), Word(0xf11bfaa8), Word(0x05757ceb),
                 Word(0x49231c1e), Word(0x52f1ccf7), Word(0x6e5c390c), Word(0xbd714038))
    ensures Rounds(PADDED, INITIAL, 52) == s
  {
    hide WordIs, ConstantIs, Rounds;
    Words6();
    Constants6();
    s := Rounds11();
    s := NextState(48, s, 0x19a4c116, 0xfb3e89cb, 0x05757ceb, 0xbd714038);
    s := NextState(49, s, 0x1e376c08, 0xcc7617db, 0xf11bfaa8, 0x6e5c390c);
    s := NextState(50, s, 0x2748774c, 0xb9e66c34, 0x7a0508a1, 0x52f1ccf7);
    s := NextState(51, s, 0x34b0bcb5, 0xa9993667, 0x886e7a22, 0x49231c1e);
  }

  lemma Rounds13() returns (s: State)
    ensures s == State(Word(0x38cc9913), Word(0x3ec45cdb), Word(0xf5702fdb), Word(0x101fd28f),
                 Word(0x54cb266b), Word(0xe50e1b4f), Word(0x9f4787c3), Word(0x529e7d00))
    ensures Rounds(PADDED, INITIAL, 56) == s
  {
    hide WordIs, ConstantIs, Rounds;
    Words6();
    Constants6();
    s := Rounds12();
    s := NextState(52, s, 0x391c0cb3, 0x84badedd, 0x101fd28f, 0x529e7d00);
    s := NextState(53, s, 0x4ed8aa4a, 0xc21462bc, 0xf5702fdb, 0x9f4787c3);
    s := NextState(54, s, 0x5b9cca4f, 0x1487472c, 0x3ec45cdb, 0xe50e1b4f);
    s := NextState(55, s, 0x682e6ff3, 0xb20f7a99, 0x38cc9913, 0x54cb266b);
  }

  lemma Rounds14() returns (s: State)
    ensures s == State(Word(0xb6ae8fff), Word(0xffb70472), Word(0xc062d46f), Word(0xfcd1887b),
                 Word(0xb21bad3d), Word(0x6d83bfc6), Word(0x7e44008e), Word(0x9b5e906c))
    ensures Rounds(PADDED, INITIAL, 60) == s
  {
    hide WordIs, ConstantIs, Rounds;
    Words7();
    Constants7();
    s := Rounds13();
    s := NextState(56, s, 0x748f82ee, 0xef57b9cd, 0xfcd1887b, 0x9b5e906c);
    s := NextState(57, s, 0x78a5636f, 0xebe6b238, 0xc062d46f, 0x7e44008e);
    s := NextState(58, s, 0x84c87814, 0x9fe3095e, 0xffb70472, 0x6d83bfc6);
    s := NextState(59, s, 0x8cc70208, 0x78bc8d4b, 0xb6ae8fff, 0xb21bad3d);
  }

  lemma Rounds15() returns (s: State)
    ensures s == State(Word(0x506e3058), Word(0xd39a2165), Word(0x04d24d6c), Word(0xb85e2ce9),
                 Word(0x5ef50f24), Word(0xfb121210), Word(0x948d25b6), Word(0x961f4894))
    ensures Rounds(PADDED, INITIAL, 64) == s
  {
    hide WordIs, ConstantIs, Rounds;
    Words7();
    Constants7();
    s := Rounds14();
    s := NextState(60, s, 0x90befffa, 0xa43fcf15, 0xb85e2ce9, 0x961f4894);
    s := NextState(61, s, 0xa4506ceb, 0x668b2ff8, 0x04d24d6c, 0x948d25b6);
    s := NextState(62, s, 0xbef9a3f7, 0xeeaba2cc, 0xd39a2165, 0xfb121210);
    s := NextState(63, s, 0xc67178f2, 0x12b1edeb, 0x506e3058, 0x5ef50f24);
  }

  // ---- the digest ---------------------------------------------------------------------------------------------

  const RESULT: State := State(
    Word(0xba7816bf), Word(0x8f01cfea), Word(0x414140de), Word(0x5dae2223),
    Word(0xb00361a3), Word(0x96177a9c), Word(0xb410ff61), Word(0xf20015ad))

  lemma CompressedIs()
    ensures Compressed(INITIAL, PADDED) == RESULT
  {
    hide Rounds;
    var s := Rounds15();
  }

  /** The bytes of a word, highest first, make it again. */
  lemma LoadStore(w: Word)
    ensures Load(Store(w)) == w
  {
    hide Widen, LowByte, Join, Low8, Shr;
    WidenLowByte(w);
    WidenLowByte(Shr(w, 8));
    WidenLowByte(Shr(w, 16));
    WidenLowByte(Shr(w, 24));
    PartsJoin(w);
  }

  lemma PartsJoin(w: Word)
    ensures Join(Low8(w), Low8(Shr(w, 8)), Low8(Shr(w, 16)), Low8(Shr(w, 24))) == w
  {
  }

  lemma PaddedIs()
    ensures MESSAGE + Tail(3, 24) == PADDED && |PADDED| == BLOCK
  {
    assert BigEndian(24, 8) == [0, 0, 0, 0, 0, 0, 0, 24];
  }

  /** The published digest of "abc", word by word. */
  lemma DigestOfAbc()
    ensures Digest(MESSAGE) ==
            Store(Word(0xba7816bf)) + Store(Word(0x8f01cfea)) + Store(Word(0x414140de)) + Store(Word(0x5dae2223)) +
            Store(Word(0xb00361a3)) + Store(Word(0x96177a9c)) + Store(Word(0xb410ff61)) + Store(Word(0xf20015ad))
  {
    hide Store, Compressed, Tail;
    PaddedIs();
    EmptyHash();
    HashMore([], PADDED);
    assert [] + PADDED == PADDED;
    CompressedIs();
  }
}
