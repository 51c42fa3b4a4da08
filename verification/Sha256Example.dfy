/** The digest of the three bytes "abc", eight rounds at a time: the example of FIPS 180-4. */
module Sha256Example {
  import opened Sha256Spec
  import opened Sha256Stream

  // The functions of the standard on plain bits, which are quick to evaluate.

  datatype State = State(a: bv32, b: bv32, c: bv32, d: bv32, e: bv32, f: bv32, g: bv32, h: bv32)

  function VarsOf(s: State): Vars {
    Vars(Word(s.a), Word(s.b), Word(s.c), Word(s.d), Word(s.e), Word(s.f), Word(s.g), Word(s.h))
  }

  function Xor3(x: bv32, y: bv32, z: bv32): bv32 { XorBits(XorBits(x, y), z) }

  function Sum1(s: State, k: bv32, w: bv32): bv32 {
    var sigma := Xor3(Right(s.e, 6), Right(s.e, 11), Right(s.e, 25));
    var ch := XorBits(AndBits(s.e, s.f), AndBits(NotBits(s.e), s.g));
    AddBits(AddBits(AddBits(AddBits(s.h, sigma), ch), k), w)
  }

  function Sum2(s: State): bv32 {
    var sigma := Xor3(Right(s.a, 2), Right(s.a, 13), Right(s.a, 22));
    AddBits(sigma, Xor3(AndBits(s.a, s.b), AndBits(s.a, s.c), AndBits(s.b, s.c)))
  }

  function Next(s: State, k: bv32, w: bv32): State {
    var t1 := Sum1(s, k, w);
    State(AddBits(t1, Sum2(s)), s.a, s.b, s.c, AddBits(s.d, t1), s.e, s.f, s.g)
  }

  function NextBits(x: bv32, y: bv32, z: bv32, u: bv32): bv32 {
    AddBits(AddBits(AddBits(Xor3(Right(x, 17), Right(x, 19), x >> 10), y), Xor3(Right(z, 7), Right(z, 18), z >> 3)), u)
  }

  lemma BigSigmasOnBits(x: bv32)
    ensures BigSigma0(Word(x)) == Word(Xor3(Right(x, 2), Right(x, 13), Right(x, 22)))
    ensures BigSigma1(Word(x)) == Word(Xor3(Right(x, 6), Right(x, 11), Right(x, 25)))
  {
    hide BigSigma0, BigSigma1, Right, XorBits;
    BigSigmasAgree(Word(x));
  }

  lemma SmallSigmasOnBits(x: bv32)
    ensures SmallSigma0(Word(x)) == Word(Xor3(Right(x, 7), Right(x, 18), x >> 3))
    ensures SmallSigma1(Word(x)) == Word(Xor3(Right(x, 17), Right(x, 19), x >> 10))
  {
    hide SmallSigma0, SmallSigma1, Right, XorBits;
    SmallSigmasAgree(Word(x));
  }

  lemma RoundOnBits(s: State, k: bv32, w: bv32)
    ensures Round(VarsOf(s), Word(k), Word(w)) == VarsOf(Next(s, k, w))
  {
    hide BigSigma0, BigSigma1, Right, AddBits, XorBits, AndBits, NotBits;
    BigSigmasOnBits(s.a);
    BigSigmasOnBits(s.e);
  }

  // ------------------------------------------------------------ the schedule

  function Follows(w: seq<Word>, t: nat): Word
    requires 16 <= t < |w|
  {
    SmallSigma1(w[t - 2]).Plus(w[t - 7]).Plus(SmallSigma0(w[t - 15])).Plus(w[t - 16])
  }

  /** The words of a schedule behind the first sixteen follow from those before. */
  ghost predicate Recurs(w: seq<Word>) {
    |w| == 64 && forall t :: 16 <= t < 64 ==> w[t] == Follows(w, t)
  }

  lemma {:induction false} ScheduleExtends(block: seq<Byte>, n: nat, m: nat)
    requires |block| == BLOCK && n <= m <= 64
    ensures Schedule(block, m)[..n] == Schedule(block, n)
  {
    hide NextWord;
    if n < m {
      ScheduleExtends(block, n, m - 1);
      assert Schedule(block, m)[..n] == Schedule(block, m - 1)[..n];
    }
  }

  lemma ScheduleWord(block: seq<Byte>, t: nat)
    requires |block| == BLOCK && t < 64
    ensures Schedule(block, 64)[..t] == Schedule(block, t)
    ensures Schedule(block, 64)[t] == NextWord(block, Schedule(block, 64)[..t])
  {
    hide NextWord;
    ScheduleExtends(block, t, 64);
    ScheduleExtends(block, t + 1, 64);
    assert Schedule(block, t + 1) == Schedule(block, t) + [NextWord(block, Schedule(block, t))];
    assert Schedule(block, 64)[t] == Schedule(block, 64)[..t + 1][t];
  }

  lemma ScheduleRecurs(block: seq<Byte>)
    requires |block| == BLOCK
    ensures Recurs(Schedule(block, 64))
  {
    hide Schedule, SmallSigma0, SmallSigma1;
    var w := Schedule(block, 64);
    forall t | 16 <= t < 64 ensures w[t] == Follows(w, t) { ScheduleWord(block, t); }
  }

  predicate EightAt(w: seq<Word>, t: nat, x0: bv32, x1: bv32, x2: bv32, x3: bv32, x4: bv32, x5: bv32, x6: bv32,
      x7: bv32)
    requires t + 8 <= |w|
  {
    && w[t] == Word(x0) && w[t + 1] == Word(x1) && w[t + 2] == Word(x2) && w[t + 3] == Word(x3)
    && w[t + 4] == Word(x4) && w[t + 5] == Word(x5) && w[t + 6] == Word(x6) && w[t + 7] == Word(x7)
  }

  predicate Words0(w: seq<Word>)
    requires |w| == 64
  {
    EightAt(w, 0, 0x61626380, 0x00000000, 0x00000000, 0x00000000, 0x00000000, 0x00000000, 0x00000000, 0x00000000)
  }

  predicate Words8(w: seq<Word>)
    requires |w| == 64
  {
    EightAt(w, 8, 0x00000000, 0x00000000, 0x00000000, 0x00000000, 0x00000000, 0x00000000, 0x00000000, 0x00000018)
  }

  predicate Words16(w: seq<Word>)
    requires |w| == 64
  {
    EightAt(w, 16, 0x61626380, 0x000f0000, 0x7da86405, 0x600003c6, 0x3e9d7b78, 0x0183fc00, 0x12dcbfdb, 0xe2e2c38e)
  }

  predicate Words24(w: seq<Word>)
    requires |w| == 64
  {
    EightAt(w, 24, 0xc8215c1a, 0xb73679a2, 0xe5bc3909, 0x32663c5b, 0x9d209d67, 0xec8726cb, 0x702138a4, 0xd3b7973b)
  }

  predicate Words32(w: seq<Word>)
    requires |w| == 64
  {
    EightAt(w, 32, 0x93f5997f, 0x3b68ba73, 0xaff4ffc1, 0xf10a5c62, 0x0a8b3996, 0x72af830a, 0x9409e33e, 0x24641522)
  }

  predicate Words40(w: seq<Word>)
    requires |w| == 64
  {
    EightAt(w, 40, 0x9f47bf94, 0xf0a64f5a, 0x3e246a79, 0x27333ba3, 0x0c4763f2, 0x840abf27, 0x7a290d5d, 0x065c43da)
  }

  predicate Words48(w: seq<Word>)
    requires |w| == 64
  {
    EightAt(w, 48, 0xfb3e89cb, 0xcc7617db, 0xb9e66c34, 0xa9993667, 0x84badedd, 0xc21462bc, 0x1487472c, 0xb20f7a99)
  }

  predicate Words56(w: seq<Word>)
    requires |w| == 64
  {
    EightAt(w, 56, 0xef57b9cd, 0xebe6b238, 0x9fe3095e, 0x78bc8d4b, 0xa43fcf15, 0x668b2ff8, 0xeeaba2cc, 0x12b1edeb)
  }

  lemma NextIs(w: seq<Word>, t: nat, x: bv32, y: bv32, z: bv32, u: bv32, r: bv32)
    requires Recurs(w) && 16 <= t < 64 && NextBits(x, y, z, u) == r
    requires w[t - 2] == Word(x) && w[t - 7] == Word(y) && w[t - 15] == Word(z) && w[t - 16] == Word(u)
    ensures w[t] == Word(r)
  {
    hide SmallSigma0, SmallSigma1, Right, AddBits, XorBits;
    SmallSigmasOnBits(x);
    SmallSigmasOnBits(z);
    assert w[t] == Follows(w, t);
  }

  lemma Words16Follow(w: seq<Word>)
    requires Recurs(w) && Words0(w) && Words8(w)
    ensures Words16(w)
  {
    hide Recurs;
    NextIs(w, 16, 0x00000000, 0x00000000, 0x00000000, 0x61626380, 0x61626380);
    NextIs(w, 17, 0x00000018, 0x00000000, 0x00000000, 0x00000000, 0x000f0000);
    NextIs(w, 18, 0x61626380, 0x00000000, 0x00000000, 0x00000000, 0x7da86405);
    NextIs(w, 19, 0x000f0000, 0x00000000, 0x00000000, 0x00000000, 0x600003c6);
    NextIs(w, 20, 0x7da86405, 0x00000000, 0x00000000, 0x00000000, 0x3e9d7b78);
    NextIs(w, 21, 0x600003c6, 0x00000000, 0x00000000, 0x00000000, 0x0183fc00);
    NextIs(w, 22, 0x3e9d7b78, 0x00000018, 0x00000000, 0x00000000, 0x12dcbfdb);
    NextIs(w, 23, 0x0183fc00, 0x61626380, 0x00000000, 0x00000000, 0xe2e2c38e);
  }

  lemma Words24Follow(w: seq<Word>)
    requires Recurs(w) && Words8(w) && Words16(w)
    ensures Words24(w)
  {
    hide Recurs;
    NextIs(w, 24, 0x12dcbfdb, 0x000f0000, 0x00000000, 0x00000000, 0xc8215c1a);
    NextIs(w, 25, 0xe2e2c38e, 0x7da86405, 0x00000000, 0x00000000, 0xb73679a2);
    NextIs(w, 26, 0xc8215c1a, 0x600003c6, 0x00000000, 0x00000000, 0xe5bc3909);
    NextIs(w, 27, 0xb73679a2, 0x3e9d7b78, 0x00000000, 0x00000000, 0x32663c5b);
    NextIs(w, 28, 0xe5bc3909, 0x0183fc00, 0x00000000, 0x00000000, 0x9d209d67);
    NextIs(w, 29, 0x32663c5b, 0x12dcbfdb, 0x00000000, 0x00000000, 0xec8726cb);
    NextIs(w, 30, 0x9d209d67, 0xe2e2c38e, 0x00000018, 0x00000000, 0x702138a4);
    NextIs(w, 31, 0xec8726cb, 0xc8215c1a, 0x61626380, 0x00000018, 0xd3b7973b);
  }

  lemma Words32Follow(w: seq<Word>)
    requires Recurs(w) && Words16(w) && Words24(w)
    ensures Words32(w)
  {
    hide Recurs;
    NextIs(w, 32, 0x702138a4, 0xb73679a2, 0x000f0000, 0x61626380, 0x93f5997f);
    NextIs(w, 33, 0xd3b7973b, 0xe5bc3909, 0x7da86405, 0x000f0000, 0x3b68ba73);
    NextIs(w, 34, 0x93f5997f, 0x32663c5b, 0x600003c6, 0x7da86405, 0xaff4ffc1);
    NextIs(w, 35, 0x3b68ba73, 0x9d209d67, 0x3e9d7b78, 0x600003c6, 0xf10a5c62);
    NextIs(w, 36, 0xaff4ffc1, 0xec8726cb, 0x0183fc00, 0x3e9d7b78, 0x0a8b3996);
    NextIs(w, 37, 0xf10a5c62, 0x702138a4, 0x12dcbfdb, 0x0183fc00, 0x72af830a);
    NextIs(w, 38, 0x0a8b3996, 0xd3b7973b, 0xe2e2c38e, 0x12dcbfdb, 0x9409e33e);
    NextIs(w, 39, 0x72af830a, 0x93f5997f, 0xc8215c1a, 0xe2e2c38e, 0x24641522);
  }

  lemma Words40Follow(w: seq<Word>)
    requires Recurs(w) && Words24(w) && Words32(w)
    ensures Words40(w)
  {
    hide Recurs;
    NextIs(w, 40, 0x9409e33e, 0x3b68ba73, 0xb73679a2, 0xc8215c1a, 0x9f47bf94);
    NextIs(w, 41, 0x24641522, 0xaff4ffc1, 0xe5bc3909, 0xb73679a2, 0xf0a64f5a);
    NextIs(w, 42, 0x9f47bf94, 0xf10a5c62, 0x32663c5b, 0xe5bc3909, 0x3e246a79);
    NextIs(w, 43, 0xf0a64f5a, 0x0a8b3996, 0x9d209d67, 0x32663c5b, 0x27333ba3);
    NextIs(w, 44, 0x3e246a79, 0x72af830a, 0xec8726cb, 0x9d209d67, 0x0c4763f2);
    NextIs(w, 45, 0x27333ba3, 0x9409e33e, 0x702138a4, 0xec8726cb, 0x840abf27);
    NextIs(w, 46, 0x0c4763f2, 0x24641522, 0xd3b7973b, 0x702138a4, 0x7a290d5d);
    NextIs(w, 47, 0x840abf27, 0x9f47bf94, 0x93f5997f, 0xd3b7973b, 0x065c43da);
  }

  lemma Words48Follow(w: seq<Word>)
    requires Recurs(w) && Words32(w) && Words40(w)
    ensures Words48(w)
  {
    hide Recurs;
    NextIs(w, 48, 0x7a290d5d, 0xf0a64f5a, 0x3b68ba73, 0x93f5997f, 0xfb3e89cb);
    NextIs(w, 49, 0x065c43da, 0x3e246a79, 0xaff4ffc1, 0x3b68ba73, 0xcc7617db);
    NextIs(w, 50, 0xfb3e89cb, 0x27333ba3, 0xf10a5c62, 0xaff4ffc1, 0xb9e66c34);
    NextIs(w, 51, 0xcc7617db, 0x0c4763f2, 0x0a8b3996, 0xf10a5c62, 0xa9993667);
    NextIs(w, 52, 0xb9e66c34, 0x840abf27, 0x72af830a, 0x0a8b3996, 0x84badedd);
    NextIs(w, 53, 0xa9993667, 0x7a290d5d, 0x9409e33e, 0x72af830a, 0xc21462bc);
    NextIs(w, 54, 0x84badedd, 0x065c43da, 0x24641522, 0x9409e33e, 0x1487472c);
    NextIs(w, 55, 0xc21462bc, 0xfb3e89cb, 0x9f47bf94, 0x24641522, 0xb20f7a99);
  }

  lemma Words56Follow(w: seq<Word>)
    requires Recurs(w) && Words40(w) && Words48(w)
    ensures Words56(w)
  {
    hide Recurs;
    NextIs(w, 56, 0x1487472c, 0xcc7617db, 0xf0a64f5a, 0x9f47bf94, 0xef57b9cd);
    NextIs(w, 57, 0xb20f7a99, 0xb9e66c34, 0x3e246a79, 0xf0a64f5a, 0xebe6b238);
    NextIs(w, 58, 0xef57b9cd, 0xa9993667, 0x27333ba3, 0x3e246a79, 0x9fe3095e);
    NextIs(w, 59, 0xebe6b238, 0x84badedd, 0x0c4763f2, 0x27333ba3, 0x78bc8d4b);
    NextIs(w, 60, 0x9fe3095e, 0xc21462bc, 0x840abf27, 0x0c4763f2, 0xa43fcf15);
    NextIs(w, 61, 0x78bc8d4b, 0x1487472c, 0x7a290d5d, 0x840abf27, 0x668b2ff8);
    NextIs(w, 62, 0xa43fcf15, 0xb20f7a99, 0x065c43da, 0x7a290d5d, 0xeeaba2cc);
    NextIs(w, 63, 0x668b2ff8, 0xef57b9cd, 0xfb3e89cb, 0x065c43da, 0x12b1edeb);
  }

  const ABC: seq<Byte> := [0x61, 0x62, 0x63]

  /** The only block of the padded message: the text, the bit 1, zeros, and the length of 24 bits. */
  function AbcBlock(): (r: seq<Byte>)
    ensures |r| == BLOCK
  {
    ABC + [0x80] + Zeros(52) + [0, 0, 0, 0, 0, 0, 0, 24]
  }

  lemma BytesOfAbc()
    ensures var b := AbcBlock();
      b[0] == 0x61 && b[1] == 0x62 && b[2] == 0x63 && b[3] == 0x80 && b[63] == 24 && forall j :: 4 <= j < 63 ==> b[j] == 0
  {
  }

  lemma WordsOfBytes()
    ensures WordOf(0x61, 0x62, 0x63, 0x80) == Word(0x61626380)
    ensures WordOf(0, 0, 0, 0) == Word(0) && WordOf(0, 0, 0, 24) == Word(24)
  {
  }

  /** The first sixteen words of the schedule are those of the block. */
  lemma WordOfBlock(t: nat)
    requires t < 16
    ensures Schedule(AbcBlock(), 64)[t] == Word(if t == 0 then 0x61626380 else if t == 15 then 24 else 0)
  {
    hide Schedule, AbcBlock, WordOf;
    var b := AbcBlock();
    ScheduleWord(b, t);
    BytesOfAbc();
    WordsOfBytes();
    assert Schedule(b, 64)[t] == WordOf(b[4 * t], b[4 * t + 1], b[4 * t + 2], b[4 * t + 3]);
  }

  lemma ScheduleOfAbc()
    ensures var w := Schedule(AbcBlock(), 64);
      && Words0(w) && Words8(w) && Words16(w) && Words24(w) && Words32(w) && Words40(w) && Words48(w) && Words56(w)
  {
    hide Schedule, AbcBlock, Recurs, Words16, Words24, Words32, Words40, Words48, Words56;
    var w := Schedule(AbcBlock(), 64);
    forall t: nat | t < 16 ensures w[t] == Word(if t == 0 then 0x61626380 else if t == 15 then 24 else 0) {
      WordOfBlock(t);
    }
    ScheduleRecurs(AbcBlock());
    assert Words0(w) && Words8(w);
    hide Words0, Words8;
    Words16Follow(w);
    Words24Follow(w);
    Words32Follow(w);
    Words40Follow(w);
    Words48Follow(w);
    Words56Follow(w);
  }

  // -------------------------------------------------------------- the rounds

  /** One round leads from the values before of a and of e, oldest first, to the new ones. */
  predicate Follow(a0: bv32, a1: bv32, a2: bv32, a3: bv32, a4: bv32, e0: bv32, e1: bv32, e2: bv32, e3: bv32, e4: bv32,
                   k: bv32, x: bv32)
  {
    Next(State(a3, a2, a1, a0, e3, e2, e1, e0), k, x) == State(a4, a3, a2, a1, e4, e3, e2, e1)
  }

  lemma OneRound(v: Vars, w: seq<Word>, t: nat,
                 a0: bv32, a1: bv32, a2: bv32, a3: bv32, a4: bv32, e0: bv32, e1: bv32, e2: bv32, e3: bv32, e4: bv32,
                 k: bv32, x: bv32)
    requires |w| == 64 && t < 64 && KBits(t) == k && w[t] == Word(x)
    requires Rounds(v, w, t) == VarsOf(State(a3, a2, a1, a0, e3, e2, e1, e0))
    requires Follow(a0, a1, a2, a3, a4, e0, e1, e2, e3, e4, k, x)
    ensures Rounds(v, w, t + 1) == VarsOf(State(a4, a3, a2, a1, e4, e3, e2, e1))
  {
    hide Round, Next, KBits, VarsOf;
    RoundOnBits(State(a3, a2, a1, a0, e3, e2, e1, e0), k, x);
  }

  predicate KsAt(t: nat, k0: bv32, k1: bv32, k2: bv32, k3: bv32, k4: bv32, k5: bv32, k6: bv32, k7: bv32)
    requires t + 8 <= 64
  {
    && KBits(t) == k0 && KBits(t + 1) == k1 && KBits(t + 2) == k2 && KBits(t + 3) == k3
    && KBits(t + 4) == k4 && KBits(t + 5) == k5 && KBits(t + 6) == k6 && KBits(t + 7) == k7
  }

  /** Eight rounds in a row. */
  predicate EightFollow(a0: bv32, a1: bv32, a2: bv32, a3: bv32, a4: bv32, a5: bv32, a6: bv32, a7: bv32, a8: bv32,
      a9: bv32, a10: bv32, a11: bv32,
                        e0: bv32, e1: bv32, e2: bv32, e3: bv32, e4: bv32, e5: bv32, e6: bv32, e7: bv32, e8: bv32,
                        e9: bv32, e10: bv32, e11: bv32,
                        k0: bv32, k1: bv32, k2: bv32, k3: bv32, k4: bv32, k5: bv32, k6: bv32, k7: bv32,
                        x0: bv32, x1: bv32, x2: bv32, x3: bv32, x4: bv32, x5: bv32, x6: bv32, x7: bv32)
  {
    && Follow(a0, a1, a2, a3, a4, e0, e1, e2, e3, e4, k0, x0)
    && Follow(a1, a2, a3, a4, a5, e1, e2, e3, e4, e5, k1, x1)
    && Follow(a2, a3, a4, a5, a6, e2, e3, e4, e5, e6, k2, x2)
    && Follow(a3, a4, a5, a6, a7, e3, e4, e5, e6, e7, k3, x3)
    && Follow(a4, a5, a6, a7, a8, e4, e5, e6, e7, e8, k4, x4)
    && Follow(a5, a6, a7, a8, a9, e5, e6, e7, e8, e9, k5, x5)
    && Follow(a6, a7, a8, a9, a10, e6, e7, e8, e9, e10, k6, x6)
    && Follow(a7, a8, a9, a10, a11, e7, e8, e9, e10, e11, k7, x7)
  }

  lemma EightRounds(v: Vars, w: seq<Word>, t: nat,
                    a0: bv32, a1: bv32, a2: bv32, a3: bv32, a4: bv32, a5: bv32, a6: bv32, a7: bv32, a8: bv32,
                    a9: bv32, a10: bv32, a11: bv32,
                    e0: bv32, e1: bv32, e2: bv32, e3: bv32, e4: bv32, e5: bv32, e6: bv32, e7: bv32, e8: bv32,
                    e9: bv32, e10: bv32, e11: bv32,
                    k0: bv32, k1: bv32, k2: bv32, k3: bv32, k4: bv32, k5: bv32, k6: bv32, k7: bv32,
                    x0: bv32, x1: bv32, x2: bv32, x3: bv32, x4: bv32, x5: bv32, x6: bv32, x7: bv32)
    requires |w| == 64 && t + 8 <= 64 && Rounds(v, w, t) == VarsOf(State(a3, a2, a1, a0, e3, e2, e1, e0))
    requires KsAt(t, k0, k1, k2, k3, k4, k5, k6, k7) && EightAt(w, t, x0, x1, x2, x3, x4, x5, x6, x7)
    requires EightFollow(a0, a1, a2, a3, a4, a5, a6, a7, a8, a9, a10, a11, e0, e1, e2, e3, e4, e5, e6, e7, e8, e9,
        e10, e11,
      k0, k1, k2, k3, k4, k5, k6, k7, x0, x1, x2, x3, x4, x5, x6, x7)
    ensures Rounds(v, w, t + 8) == VarsOf(State(a11, a10, a9, a8, e11, e10, e9, e8))
  {
    hide Rounds, Follow, KBits, VarsOf;
    OneRound(v, w, t, a0, a1, a2, a3, a4, e0, e1, e2, e3, e4, k0, x0);
    OneRound(v, w, t + 1, a1, a2, a3, a4, a5, e1, e2, e3, e4, e5, k1, x1);
    OneRound(v, w, t + 2, a2, a3, a4, a5, a6, e2, e3, e4, e5, e6, k2, x2);
    OneRound(v, w, t + 3, a3, a4, a5, a6, a7, e3, e4, e5, e6, e7, k3, x3);
    OneRound(v, w, t + 4, a4, a5, a6, a7, a8, e4, e5, e6, e7, e8, k4, x4);
    OneRound(v, w, t + 5, a5, a6, a7, a8, a9, e5, e6, e7, e8, e9, k5, x5);
    OneRound(v, w, t + 6, a6, a7, a8, a9, a10, e6, e7, e8, e9, e10, k6, x6);
    OneRound(v, w, t + 7, a7, a8, a9, a10, a11, e7, e8, e9, e10, e11, k7, x7);
  }

  lemma Constants0()
    ensures KsAt(0, 0x428a2f98, 0x71374491, 0xb5c0fbcf, 0xe9b5dba5, 0x3956c25b, 0x59f111f1, 0x923f82a4, 0xab1c5ed5)
  {
  }

  lemma Rounds0(w: seq<Word>)
    requires |w| == 64 && Words0(w) && Rounds(Start(H0()), w, 0) == VarsOf(State(0x6a09e667, 0xbb67ae85, 0x3c6ef372,
        0xa54ff53a, 0x510e527f, 0x9b05688c, 0x1f83d9ab, 0x5be0cd19))
    ensures Rounds(Start(H0()), w, 8) == VarsOf(State(0x85a07b5f, 0xe5030380, 0x2b4209f5, 0x04409a6a, 0x0c657a79,
        0x9b27a401, 0x714260ad, 0x43ada245))
  {
    hide Rounds, VarsOf, Start, H0, KsAt;
    Constants0();
    EightRounds(Start(H0()), w, 0,
      0xa54ff53a, 0x3c6ef372, 0xbb67ae85, 0x6a09e667, 0x5d6aebcd, 0x5a6ad9ad, 0xc8c347a7, 0xd550f666, 0x04409a6a,
      0x2b4209f5, 0xe5030380, 0x85a07b5f,
      0x5be0cd19, 0x1f83d9ab, 0x9b05688c, 0x510e527f, 0xfa2a4622, 0x78ce7989, 0xf92939eb, 0x24e00850, 0x43ada245,
      0x714260ad, 0x9b27a401, 0x0c657a79,
      0x428a2f98, 0x71374491, 0xb5c0fbcf, 0xe9b5dba5, 0x3956c25b, 0x59f111f1, 0x923f82a4, 0xab1c5ed5,
      0x61626380, 0x00000000, 0x00000000, 0x00000000, 0x00000000, 0x00000000, 0x00000000, 0x00000000);
  }

  lemma Constants8()
    ensures KsAt(8, 0xd807aa98, 0x12835b01, 0x243185be, 0x550c7dc3, 0x72be5d74, 0x80deb1fe, 0x9bdc06a7, 0xc19bf174)
  {
  }

  lemma Rounds8(w: seq<Word>)
    requires |w| == 64 && Words8(w) && Rounds(Start(H0()), w, 8) == VarsOf(State(0x85a07b5f, 0xe5030380, 0x2b4209f5,
        0x04409a6a, 0x0c657a79, 0x9b27a401, 0x714260ad, 0x43ada245))
    ensures Rounds(Start(H0()), w, 16) == VarsOf(State(0xb0fa238e, 0xc0645fde, 0xd932eb16, 0x87912990, 0x07590dcd,
        0x0b92f20c, 0x745a48de, 0x1e578218))
  {
    hide Rounds, VarsOf, Start, H0, KsAt;
    Constants8();
    EightRounds(Start(H0()), w, 8,
      0x04409a6a, 0x2b4209f5, 0xe5030380, 0x85a07b5f, 0x8e04ecb9, 0x8c87346b, 0x4798a3f4, 0xf71fc5a9, 0x87912990,
      0xd932eb16, 0xc0645fde, 0xb0fa238e,
      0x43ada245, 0x714260ad, 0x9b27a401, 0x0c657a79, 0x32ca2d8c, 0x1cc92596, 0x436b23e8, 0x816fd6e9, 0x1e578218,
      0x745a48de, 0x0b92f20c, 0x07590dcd,
      0xd807aa98, 0x12835b01, 0x243185be, 0x550c7dc3, 0x72be5d74, 0x80deb1fe, 0x9bdc06a7, 0xc19bf174,
      0x00000000, 0x00000000, 0x00000000, 0x00000000, 0x00000000, 0x00000000, 0x00000000, 0x00000018);
  }

  lemma Constants16()
    ensures KsAt(16, 0xe49b69c1, 0xefbe4786, 0x0fc19dc6, 0x240ca1cc, 0x2de92c6f, 0x4a7484aa, 0x5cb0a9dc, 0x76f988da)
  {
  }

  lemma Rounds16(w: seq<Word>)
    requires |w| == 64 && Words16(w) && Rounds(Start(H0()), w, 16) == VarsOf(State(0xb0fa238e, 0xc0645fde,
        0xd932eb16, 0x87912990, 0x07590dcd, 0x0b92f20c, 0x745a48de, 0x1e578218))
    ensures Rounds(Start(H0()), w, 24) == VarsOf(State(0xc5d53d8d, 0xa7a3623f, 0xc2606d6d, 0x9dc68b63, 0xaa47c347,
        0x49f5114a, 0xe1257970, 0x8ada8930))
  {
    hide Rounds, VarsOf, Start, H0, KsAt;
    Constants16();
    EightRounds(Start(H0()), w, 16,
      0x87912990, 0xd932eb16, 0xc0645fde, 0xb0fa238e, 0x21da9a9b, 0xc2fbd9d1, 0xfe777bbf, 0xe1f20c33, 0x9dc68b63,
      0xc2606d6d, 0xa7a3623f, 0xc5d53d8d,
      0x1e578218, 0x745a48de, 0x0b92f20c, 0x07590dcd, 0x8034229c, 0x846ee454, 0xcc899961, 0xb0638179, 0x8ada8930,
      0xe1257970, 0x49f5114a, 0xaa47c347,
      0xe49b69c1, 0xefbe4786, 0x0fc19dc6, 0x240ca1cc, 0x2de92c6f, 0x4a7484aa, 0x5cb0a9dc, 0x76f988da,
      0x61626380, 0x000f0000, 0x7da86405, 0x600003c6, 0x3e9d7b78, 0x0183fc00, 0x12dcbfdb, 0xe2e2c38e);
  }

  lemma Constants24()
    ensures KsAt(24, 0x983e5152, 0xa831c66d, 0xb00327c8, 0xbf597fc7, 0xc6e00bf3, 0xd5a79147, 0x06ca6351, 0x14292967)
  {
  }

  lemma Rounds24(w: seq<Word>)
    requires |w| == 64 && Words24(w) && Rounds(Start(H0()), w, 24) == VarsOf(State(0xc5d53d8d, 0xa7a3623f,
        0xc2606d6d, 0x9dc68b63, 0xaa47c347, 0x49f5114a, 0xe1257970, 0x8ada8930))
    ensures Rounds(Start(H0()), w, 32) == VarsOf(State(0x73b33bf5, 0xea992a22, 0xa0060b30, 0x363482c9, 0xba591112,
        0x0109ab3a, 0xade79437, 0x6112a3b7))
  {
    hide Rounds, VarsOf, Start, H0, KsAt;
    Constants24();
    EightRounds(Start(H0()), w, 24,
      0x9dc68b63, 0xc2606d6d, 0xa7a3623f, 0xc5d53d8d, 0x1c2c2838, 0xcde8037d, 0xb62ec4bc, 0x77d37528, 0x363482c9,
      0xa0060b30, 0xea992a22, 0x73b33bf5,
      0x8ada8930, 0xe1257970, 0x49f5114a, 0xaa47c347, 0x2823ef91, 0x14383d8e, 0xc74c6516, 0xedffbff8, 0x6112a3b7,
      0xade79437, 0x0109ab3a, 0xba591112,
      0x983e5152, 0xa831c66d, 0xb00327c8, 0xbf597fc7, 0xc6e00bf3, 0xd5a79147, 0x06ca6351, 0x14292967,
      0xc8215c1a, 0xb73679a2, 0xe5bc3909, 0x32663c5b, 0x9d209d67, 0xec8726cb, 0x702138a4, 0xd3b7973b);
  }

  lemma Constants32()
    ensures KsAt(32, 0x27b70a85, 0x2e1b2138, 0x4d2c6dfc, 0x53380d13, 0x650a7354, 0x766a0abb, 0x81c2c92e, 0x92722c85)
  {
  }

  lemma Rounds32(w: seq<Word>)
    requires |w| == 64 && Words32(w) && Rounds(Start(H0()), w, 32) == VarsOf(State(0x73b33bf5, 0xea992a22,
        0xa0060b30, 0x363482c9, 0xba591112, 0x0109ab3a, 0xade79437, 0x6112a3b7))
    ensures Rounds(Start(H0()), w, 40) == VarsOf(State(0x79ea687a, 0x6dc57a8a, 0x34df1604, 0x41a65cb1, 0x1efbc0a0,
        0xf0781bc8, 0xa507a53d, 0x0772a26b))
  {
    hide Rounds, VarsOf, Start, H0, KsAt;
    Constants32();
    EightRounds(Start(H0()), w, 32,
      0x363482c9, 0xa0060b30, 0xea992a22, 0x73b33bf5, 0x98e12507, 0xfe604df5, 0xa9a7738c, 0x65a0cfe4, 0x41a65cb1,
      0x34df1604, 0x6dc57a8a, 0x79ea687a,
      0x6112a3b7, 0xade79437, 0x0109ab3a, 0xba591112, 0x9cd9f5f6, 0x59249dd3, 0x085f3833, 0xf4b002d6, 0x0772a26b,
      0xa507a53d, 0xf0781bc8, 0x1efbc0a0,
      0x27b70a85, 0x2e1b2138, 0x4d2c6dfc, 0x53380d13, 0x650a7354, 0x766a0abb, 0x81c2c92e, 0x92722c85,
      0x93f5997f, 0x3b68ba73, 0xaff4ffc1, 0xf10a5c62, 0x0a8b3996, 0x72af830a, 0x9409e33e, 0x24641522);
  }

  lemma Constants40()
    ensures KsAt(40, 0xa2bfe8a1, 0xa81a664b, 0xc24b8b70, 0xc76c51a3, 0xd192e819, 0xd6990624, 0xf40e3585, 0x106aa070)
  {
  }

  lemma Rounds40(w: seq<Word>)
    requires |w| == 64 && Words40(w) && Rounds(Start(H0()), w, 40) == VarsOf(State(0x79ea687a, 0x6dc57a8a,
        0x34df1604, 0x41a65cb1, 0x1efbc0a0, 0xf0781bc8, 0xa507a53d, 0x0772a26b))
    ensures Rounds(Start(H0()), w, 48) == VarsOf(State(0x4172328d, 0xa14c14b0, 0x72ab4b91, 0x26628815, 0xfecf0bc6,
        0xd57b94a9, 0xb7755da1, 0xa80f11f0))
  {
    hide Rounds, VarsOf, Start, H0, KsAt;
    Constants40();
    EightRounds(Start(H0()), w, 40,
      0x41a65cb1, 0x34df1604, 0x6dc57a8a, 0x79ea687a, 0xd6670766, 0xdf46652f, 0x17aa0dfe, 0x9d4baf93, 0x26628815,
      0x72ab4b91, 0xa14c14b0, 0x4172328d,
      0x0772a26b, 0xa507a53d, 0xf0781bc8, 0x1efbc0a0, 0x26352d63, 0x838b2711, 0xdecd4715, 0xfda24c2e, 0xa80f11f0,
      0xb7755da1, 0xd57b94a9, 0xfecf0bc6,
      0xa2bfe8a1, 0xa81a664b, 0xc24b8b70, 0xc76c51a3, 0xd192e819, 0xd6990624, 0xf40e3585, 0x106aa070,
      0x9f47bf94, 0xf0a64f5a, 0x3e246a79, 0x27333ba3, 0x0c4763f2, 0x840abf27, 0x7a290d5d, 0x065c43da);
  }

  lemma Constants48()
    ensures KsAt(48, 0x19a4c116, 0x1e376c08, 0x2748774c, 0x34b0bcb5, 0x391c0cb3, 0x4ed8aa4a, 0x5b9cca4f, 0x682e6ff3)
  {
  }

  lemma Rounds48(w: seq<Word>)
    requires |w| == 64 && Words48(w) && Rounds(Start(H0()), w, 48) == VarsOf(State(0x4172328d, 0xa14c14b0,
        0x72ab4b91, 0x26628815, 0xfecf0bc6, 0xd57b94a9, 0xb7755da1, 0xa80f11f0))
    ensures Rounds(Start(H0()), w, 56) == VarsOf(State(0x38cc9913, 0x3ec45cdb, 0xf5702fdb, 0x101fd28f, 0x54cb266b,
        0xe50e1b4f, 0x9f4787c3, 0x529e7d00))
  {
    hide Rounds, VarsOf, Start, H0, KsAt;
    Constants48();
    EightRounds(Start(H0()), w, 48,
      0x26628815, 0x72ab4b91, 0xa14c14b0, 0x4172328d, 0x05757ceb, 0xf11bfaa8, 0x7a0508a1, 0x886e7a22, 0x101fd28f,
      0xf5702fdb, 0x3ec45cdb, 0x38cc9913,
      0xa80f11f0, 0xb7755da1, 0xd57b94a9, 0xfecf0bc6, 0xbd714038, 0x6e5c390c, 0x52f1ccf7, 0x49231c1e, 0x529e7d00,
      0x9f4787c3, 0xe50e1b4f, 0x54cb266b,
      0x19a4c116, 0x1e376c08, 0x2748774c, 0x34b0bcb5, 0x391c0cb3, 0x4ed8aa4a, 0x5b9cca4f, 0x682e6ff3,
      0xfb3e89cb, 0xcc7617db, 0xb9e66c34, 0xa9993667, 0x84badedd, 0xc21462bc, 0x1487472c, 0xb20f7a99);
  }

  lemma Constants56()
    ensures KsAt(56, 0x748f82ee, 0x78a5636f, 0x84c87814, 0x8cc70208, 0x90befffa, 0xa4506ceb, 0xbef9a3f7, 0xc67178f2)
  {
  }

  lemma Rounds56(w: seq<Word>)
    requires |w| == 64 && Words56(w) && Rounds(Start(H0()), w, 56) == VarsOf(State(0x38cc9913, 0x3ec45cdb,
        0xf5702fdb, 0x101fd28f, 0x54cb266b, 0xe50e1b4f, 0x9f4787c3, 0x529e7d00))
    ensures Rounds(Start(H0()), w, 64) == VarsOf(State(0x506e3058, 0xd39a2165, 0x04d24d6c, 0xb85e2ce9, 0x5ef50f24,
        0xfb121210, 0x948d25b6, 0x961f4894))
  {
    hide Rounds, VarsOf, Start, H0, KsAt;
    Constants56();
    EightRounds(Start(H0()), w, 56,
      0x101fd28f, 0xf5702fdb, 0x3ec45cdb, 0x38cc9913, 0xfcd1887b, 0xc062d46f, 0xffb70472, 0xb6ae8fff, 0xb85e2ce9,
      0x04d24d6c, 0xd39a2165, 0x506e3058,
      0x529e7d00, 0x9f4787c3, 0xe50e1b4f, 0x54cb266b, 0x9b5e906c, 0x7e44008e, 0x6d83bfc6, 0xb21bad3d, 0x961f4894,
      0x948d25b6, 0xfb121210, 0x5ef50f24,
      0x748f82ee, 0x78a5636f, 0x84c87814, 0x8cc70208, 0x90befffa, 0xa4506ceb, 0xbef9a3f7, 0xc67178f2,
      0xef57b9cd, 0xebe6b238, 0x9fe3095e, 0x78bc8d4b, 0xa43fcf15, 0x668b2ff8, 0xeeaba2cc, 0x12b1edeb);
  }

  lemma RoundsOfAbc()
    ensures Rounds(Start(H0()), Schedule(AbcBlock(), 64), 64) == VarsOf(State(0x506e3058, 0xd39a2165, 0x04d24d6c,
        0xb85e2ce9, 0x5ef50f24, 0xfb121210, 0x948d25b6, 0x961f4894))
  {
    hide Schedule, AbcBlock, Words0, Words8, Words16, Words24, Words32, Words40, Words48, Words56;
    var w := Schedule(AbcBlock(), 64);
    ScheduleOfAbc();
    assert Rounds(Start(H0()), w, 0) == VarsOf(State(0x6a09e667, 0xbb67ae85, 0x3c6ef372, 0xa54ff53a, 0x510e527f,
        0x9b05688c, 0x1f83d9ab, 0x5be0cd19));
    hide Rounds, VarsOf, Start, H0;
    Rounds0(w);
    Rounds8(w);
    Rounds16(w);
    Rounds24(w);
    Rounds32(w);
    Rounds40(w);
    Rounds48(w);
    Rounds56(w);
  }

  lemma CompressedAbc()
    ensures Compress(H0(), AbcBlock()) == [Word(0xba7816bf), Word(0x8f01cfea), Word(0x414140de), Word(0x5dae2223),
      Word(0xb00361a3), Word(0x96177a9c), Word(0xb410ff61), Word(0xf20015ad)]
  {
    hide Rounds, Schedule, AbcBlock;
    RoundsOfAbc();
  }

  lemma LengthOfAbc()
    ensures BigEndian(24, 8) == [0, 0, 0, 0, 0, 0, 0, 24]
  {
    assert BigEndian(0, 1) == [0];
    assert BigEndian(0, 2) == [0, 0];
    assert BigEndian(0, 3) == [0, 0, 0];
    assert BigEndian(0, 4) == [0, 0, 0, 0];
    assert BigEndian(0, 5) == [0, 0, 0, 0, 0];
    assert BigEndian(0, 6) == [0, 0, 0, 0, 0, 0];
    assert BigEndian(0, 7) == [0, 0, 0, 0, 0, 0, 0];
  }

  lemma AbcIsPadded()
    ensures Pad(ABC) == AbcBlock()
  {
    hide BigEndian;
    LengthOfAbc();
    assert ZeroCount(3) == 52;
  }

  lemma NextBytes(h: seq<Word>, n: nat)
    requires n < |h|
    ensures Bytes(h[..n + 1]) == Bytes(h[..n]) + WordBytes(h[n])
  {
    assert h[..n + 1][..n] == h[..n];
  }

  lemma EightWords(h: seq<Word>)
    requires |h| == 8
    ensures Bytes(h) == WordBytes(h[0]) + WordBytes(h[1]) + WordBytes(h[2]) + WordBytes(h[3])
      + WordBytes(h[4]) + WordBytes(h[5]) + WordBytes(h[6]) + WordBytes(h[7])
  {
    hide WordBytes;
    assert h[..0] == [] && h[..8] == h;
    NextBytes(h, 0);
    NextBytes(h, 1);
    NextBytes(h, 2);
    NextBytes(h, 3);
    NextBytes(h, 4);
    NextBytes(h, 5);
    NextBytes(h, 6);
    NextBytes(h, 7);
    assert [] + WordBytes(h[0]) == WordBytes(h[0]);
  }

  lemma WordsToBytes()
    ensures WordBytes(Word(0xba7816bf)) == [0xba, 0x78, 0x16, 0xbf] && WordBytes(Word(0x8f01cfea)) == [0x8f, 0x01,
        0xcf, 0xea]
    ensures WordBytes(Word(0x414140de)) == [0x41, 0x41, 0x40, 0xde] && WordBytes(Word(0x5dae2223)) == [0x5d, 0xae,
        0x22, 0x23]
    ensures WordBytes(Word(0xb00361a3)) == [0xb0, 0x03, 0x61, 0xa3] && WordBytes(Word(0x96177a9c)) == [0x96, 0x17,
        0x7a, 0x9c]
    ensures WordBytes(Word(0xb410ff61)) == [0xb4, 0x10, 0xff, 0x61] && WordBytes(Word(0xf20015ad)) == [0xf2, 0x00,
        0x15, 0xad]
  {
  }

  /** The example of FIPS 180-4: the digest of "abc". */
  lemma DigestOfAbc()
    ensures Digest(ABC)
      == [0xba, 0x78, 0x16, 0xbf] + [0x8f, 0x01, 0xcf, 0xea] + [0x41, 0x41, 0x40, 0xde] + [0x5d, 0xae, 0x22, 0x23]
        + [0xb0, 0x03, 0x61, 0xa3] + [0x96, 0x17, 0x7a, 0x9c] + [0xb4, 0x10, 0xff, 0x61] + [0xf2, 0x00, 0x15, 0xad]
  {
    hide Compress, Pad, H0, AbcBlock, Bytes, WordBytes;
    AbcIsPadded();
    CompressedAbc();
    var b := AbcBlock();
    assert b[..|b| - BLOCK] == [] && b[|b| - BLOCK..] == b;
    assert Chain([]) == H0();
    assert Chain(b) == Compress(H0(), b);
    EightWords(Chain(b));
    WordsToBytes();
  }
}
