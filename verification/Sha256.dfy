/** SHA-256 as FIPS 180-4 defines it: padding (section 5.1.1), message schedule and compression
  (section 6.2.2). Nothing here is incremental. */
module Sha256Spec {
  newtype Byte = x: int | 0 <= x < 256

  function XorByte(x: Byte, y: Byte): Byte { ((x as bv8) ^ (y as bv8)) as Byte }

  // The operations on bits have names, so that proofs can leave them closed.

  function AddBits(x: bv32, y: bv32): bv32 { x + y }
  function XorBits(x: bv32, y: bv32): bv32 { x ^ y }
  function AndBits(x: bv32, y: bv32): bv32 { x & y }
  function NotBits(x: bv32): bv32 { !x }
  function RotrBits(x: bv32, n: nat): bv32 requires n < 32 { x.RotateRight(n) }

  /** A 32-bit word, with the operations of section 3. */
  datatype Word = Word(bits: bv32) {
    function Plus(y: Word): Word { Word(AddBits(bits, y.bits)) }
    function Xor(y: Word): Word { Word(XorBits(bits, y.bits)) }
    function And(y: Word): Word { Word(AndBits(bits, y.bits)) }
    function Not(): Word { Word(NotBits(bits)) }
    function Shr(n: bv6): Word requires n < 32 { Word(bits >> n) }
    function Rotr(n: nat): Word requires n < 32 { Word(RotrBits(bits, n)) }
  }

  const BLOCK: nat := 64
  const TWO_TO_THE_64: nat := 0x1_0000_0000_0000_0000

  /** One of eight words. */
  function Nth(i: nat, w0: bv32, w1: bv32, w2: bv32, w3: bv32, w4: bv32, w5: bv32, w6: bv32, w7: bv32): bv32 {
    match i case 0 => w0 case 1 => w1 case 2 => w2 case 3 => w3 case 4 => w4 case 5 => w5 case 6 => w6 case _ => w7
  }

  /** The constants of section 4.2.2. */
  function KBits(t: nat): bv32
    requires t < 64
  {
    match t / 8
    case 0 => Nth(t % 8, 0x428a2f98, 0x71374491, 0xb5c0fbcf, 0xe9b5dba5, 0x3956c25b, 0x59f111f1, 0x923f82a4, 0xab1c5ed5)
    case 1 => Nth(t % 8, 0xd807aa98, 0x12835b01, 0x243185be, 0x550c7dc3, 0x72be5d74, 0x80deb1fe, 0x9bdc06a7, 0xc19bf174)
    case 2 => Nth(t % 8, 0xe49b69c1, 0xefbe4786, 0x0fc19dc6, 0x240ca1cc, 0x2de92c6f, 0x4a7484aa, 0x5cb0a9dc, 0x76f988da)
    case 3 => Nth(t % 8, 0x983e5152, 0xa831c66d, 0xb00327c8, 0xbf597fc7, 0xc6e00bf3, 0xd5a79147, 0x06ca6351, 0x14292967)
    case 4 => Nth(t % 8, 0x27b70a85, 0x2e1b2138, 0x4d2c6dfc, 0x53380d13, 0x650a7354, 0x766a0abb, 0x81c2c92e, 0x92722c85)
    case 5 => Nth(t % 8, 0xa2bfe8a1, 0xa81a664b, 0xc24b8b70, 0xc76c51a3, 0xd192e819, 0xd6990624, 0xf40e3585, 0x106aa070)
    case 6 => Nth(t % 8, 0x19a4c116, 0x1e376c08, 0x2748774c, 0x34b0bcb5, 0x391c0cb3, 0x4ed8aa4a, 0x5b9cca4f, 0x682e6ff3)
    case _ => Nth(t % 8, 0x748f82ee, 0x78a5636f, 0x84c87814, 0x8cc70208, 0x90befffa, 0xa4506ceb, 0xbef9a3f7, 0xc67178f2)
  }

  /** The initial hash value of section 5.3.3. */
  function HBits(t: nat): bv32
    requires t < 8
  {
    Nth(t, 0x6a09e667, 0xbb67ae85, 0x3c6ef372, 0xa54ff53a, 0x510e527f, 0x9b05688c, 0x1f83d9ab, 0x5be0cd19)
  }

  function K(t: nat): Word
    requires t < 64
  {
    Word(KBits(t))
  }

  function H0(): (r: seq<Word>)
    ensures |r| == 8
  {
    seq(8, i requires 0 <= i < 8 => Word(HBits(i)))
  }

  function Ch(x: Word, y: Word, z: Word): Word { x.And(y).Xor(x.Not().And(z)) }
  function Maj(x: Word, y: Word, z: Word): Word { x.And(y).Xor(x.And(z)).Xor(y.And(z)) }
  function BigSigma0(x: Word): Word { x.Rotr(2).Xor(x.Rotr(13)).Xor(x.Rotr(22)) }
  function BigSigma1(x: Word): Word { x.Rotr(6).Xor(x.Rotr(11)).Xor(x.Rotr(25)) }
  function SmallSigma0(x: Word): Word { x.Rotr(7).Xor(x.Rotr(18)).Xor(x.Shr(3)) }
  function SmallSigma1(x: Word): Word { x.Rotr(17).Xor(x.Rotr(19)).Xor(x.Shr(10)) }

  function WordOf(b0: Byte, b1: Byte, b2: Byte, b3: Byte): Word {
    Word(((b0 as bv32) << 24) | ((b1 as bv32) << 16) | ((b2 as bv32) << 8) | (b3 as bv32))
  }

  /** The word that follows the words w in the schedule of a block. */
  function NextWord(block: seq<Byte>, w: seq<Word>): Word
    requires |block| == BLOCK && |w| < 64
  {
    var t := |w|;
    if t < 16 then WordOf(block[4 * t], block[4 * t + 1], block[4 * t + 2], block[4 * t + 3])
    else SmallSigma1(w[t - 2]).Plus(w[t - 7]).Plus(SmallSigma0(w[t - 15])).Plus(w[t - 16])
  }

  /** The first n words of the message schedule of one block. */
  function Schedule(block: seq<Byte>, n: nat): (w: seq<Word>)
    requires |block| == BLOCK && n <= 64
    ensures |w| == n
  {
    if n == 0 then []
    else
      var w := Schedule(block, n - 1);
      w + [NextWord(block, w)]
  }

  datatype Vars = Vars(a: Word, b: Word, c: Word, d: Word, e: Word, f: Word, g: Word, h: Word)

  function Round(v: Vars, k: Word, w: Word): Vars {
    var t1 := v.h.Plus(BigSigma1(v.e)).Plus(Ch(v.e, v.f, v.g)).Plus(k).Plus(w);
    var t2 := BigSigma0(v.a).Plus(Maj(v.a, v.b, v.c));
    Vars(t1.Plus(t2), v.a, v.b, v.c, v.d.Plus(t1), v.e, v.f, v.g)
  }

  /** The working variables after t rounds over the schedule w. */
  function Rounds(v: Vars, w: seq<Word>, t: nat): Vars
    requires |w| == 64 && t <= 64
  {
    if t == 0 then v else Round(Rounds(v, w, t - 1), K(t - 1), w[t - 1])
  }

  function Start(h: seq<Word>): Vars
    requires |h| == 8
  {
    Vars(h[0], h[1], h[2], h[3], h[4], h[5], h[6], h[7])
  }

  function AddTo(h: seq<Word>, v: Vars): (r: seq<Word>)
    requires |h| == 8
    ensures |r| == 8
  {
    [h[0].Plus(v.a), h[1].Plus(v.b), h[2].Plus(v.c), h[3].Plus(v.d),
     h[4].Plus(v.e), h[5].Plus(v.f), h[6].Plus(v.g), h[7].Plus(v.h)]
  }

  function Compress(h: seq<Word>, block: seq<Byte>): (r: seq<Word>)
    requires |h| == 8 && |block| == BLOCK
    ensures |r| == 8
  {
    AddTo(h, Rounds(Start(h), Schedule(block, 64), 64))
  }

  /** The intermediate hash value after a whole number of blocks. */
  function Chain(m: seq<Byte>): (r: seq<Word>)
    requires |m| % BLOCK == 0
    ensures |r| == 8
  {
    if m == [] then H0() else Compress(Chain(m[..|m| - BLOCK]), m[|m| - BLOCK..])
  }

  function BigEndian(v: nat, n: nat): (r: seq<Byte>)
    ensures |r| == n
  {
    if n == 0 then [] else BigEndian(v / 256, n - 1) + [(v % 256) as Byte]
  }

  function Zeros(k: nat): seq<Byte> { seq(k, _ => 0) }

  /** How many zero bytes stand between the 0x80 byte and the length of an n-byte message. */
  function ZeroCount(n: nat): (k: nat)
    ensures (n + 1 + k) % BLOCK == 56 && k < BLOCK
  {
    (119 - n % 64) % 64
  }

  lemma EightMore(n: nat)
    requires n % BLOCK == 56
    ensures (n + 8) % BLOCK == 0
  {
  }

  function Pad(m: seq<Byte>): (r: seq<Byte>)
    ensures |r| % BLOCK == 0
  {
    var body := m + [0x80] + Zeros(ZeroCount(|m|));
    EightMore(|body|);
    body + BigEndian(8 * |m|, 8)
  }

  function LowByte(w: Word): Byte { (w.bits & 0xFF) as bv8 as Byte }

  function WordBytes(w: Word): (r: seq<Byte>)
    ensures |r| == 4
  {
    [LowByte(w.Shr(24)), LowByte(w.Shr(16)), LowByte(w.Shr(8)), LowByte(w)]
  }

  function Bytes(h: seq<Word>): (r: seq<Byte>)
    ensures |r| == 4 * |h|
  {
    if h == [] then [] else Bytes(h[..|h| - 1]) + WordBytes(h[|h| - 1])
  }

  function Digest(m: seq<Byte>): (r: seq<Byte>)
    ensures |r| == 32
  {
    Bytes(Chain(Pad(m)))
  }

  // -------------------------------------------------- the length field decodes

  function Pow256(n: nat): (r: nat)
    ensures r > 0
  {
    if n == 0 then 1 else 256 * Pow256(n - 1)
  }

  function FromBigEndian(b: seq<Byte>): nat {
    if b == [] then 0 else 256 * FromBigEndian(b[..|b| - 1]) + b[|b| - 1] as nat
  }

  /** The n-byte field holds the number, as long as the number fits. */
  lemma {:induction false} BigEndianDecodes(v: nat, n: nat)
    requires v < Pow256(n)
    ensures FromBigEndian(BigEndian(v, n)) == v
  {
    if n > 0 {
      BigEndianDecodes(v / 256, n - 1);
      assert BigEndian(v, n)[..n - 1] == BigEndian(v / 256, n - 1);
    }
  }

  lemma MultipleOf256(v: nat, c: nat, p: nat)
    ensures (v + c * (256 * p)) / 256 == v / 256 + c * p && (v + c * (256 * p)) % 256 == v % 256
  {
    var q := c * p;
    assert c * (256 * p) == 256 * q;
  }

  /** The n-byte field only depends on the number modulo 256^n. */
  lemma {:induction false} BigEndianWraps(v: nat, c: nat, n: nat)
    ensures BigEndian(v + c * Pow256(n), n) == BigEndian(v, n)
  {
    if n > 0 {
      BigEndianWraps(v / 256, c, n - 1);
      MultipleOf256(v, c, Pow256(n - 1));
    }
  }

  lemma LengthFieldWraps(v: nat)
    ensures BigEndian(v % TWO_TO_THE_64, 8) == BigEndian(v, 8)
  {
    assert Pow256(8) == TWO_TO_THE_64;
    var c := v / TWO_TO_THE_64;
    assert v == v % TWO_TO_THE_64 + c * TWO_TO_THE_64;
    BigEndianWraps(v % TWO_TO_THE_64, c, 8);
  }
}

/** The incremental hasher: a running hash value, a 64-byte buffer and a bit count. */
module Sha256Stream {
  import opened Sha256Spec

  function Right(x: bv32, n: bv6): bv32
    requires 0 < n < 32
  {
    (x >> n) | (x << (32 - n))
  }

  function ShiftRotr(x: Word, n: bv6): Word
    requires 0 < n < 32
  {
    Word(Right(x.bits, n))
  }

  function Bsig0(x: Word): Word { ShiftRotr(x, 2).Xor(ShiftRotr(x, 13)).Xor(ShiftRotr(x, 22)) }
  function Bsig1(x: Word): Word { ShiftRotr(x, 6).Xor(ShiftRotr(x, 11)).Xor(ShiftRotr(x, 25)) }
  function Ssig0(x: Word): Word { ShiftRotr(x, 7).Xor(ShiftRotr(x, 18)).Xor(x.Shr(3)) }
  function Ssig1(x: Word): Word { ShiftRotr(x, 17).Xor(ShiftRotr(x, 19)).Xor(x.Shr(10)) }

  lemma BigRotations(x: bv32)
    ensures Right(x, 2) == RotrBits(x, 2) && Right(x, 13) == RotrBits(x, 13) && Right(x, 22) == RotrBits(x, 22)
    ensures Right(x, 6) == RotrBits(x, 6) && Right(x, 11) == RotrBits(x, 11) && Right(x, 25) == RotrBits(x, 25)
  {
  }

  lemma SmallRotations(x: bv32)
    ensures Right(x, 7) == RotrBits(x, 7) && Right(x, 18) == RotrBits(x, 18)
    ensures Right(x, 17) == RotrBits(x, 17) && Right(x, 19) == RotrBits(x, 19)
  {
  }

  /** The shift-and-or rotations are the rotations of section 3.2. */
  lemma BigSigmasAgree(x: Word)
    ensures Bsig0(x) == BigSigma0(x) && Bsig1(x) == BigSigma1(x)
  {
    hide Right, XorBits, RotrBits;
    BigRotations(x.bits);
  }

  lemma SmallSigmasAgree(x: Word)
    ensures Ssig0(x) == SmallSigma0(x) && Ssig1(x) == SmallSigma1(x)
  {
    hide Right, XorBits, RotrBits;
    SmallRotations(x.bits);
  }

  /** The whole blocks of a message, and what follows them. */
  function Full(m: seq<Byte>): (r: seq<Byte>)
    ensures |r| % BLOCK == 0
  {
    m[..|m| - |m| % BLOCK]
  }

  function Rest(m: seq<Byte>): (r: seq<Byte>)
    ensures |r| == |m| % BLOCK
  {
    m[|m| - |m| % BLOCK..]
  }

  lemma BlockNotYetFull(m: seq<Byte>, c: seq<Byte>)
    requires |Rest(m)| + |c| < BLOCK
    ensures Full(m + c) == Full(m) && Rest(m + c) == Rest(m) + c
  {
  }

  lemma ChainNext(m: seq<Byte>, block: seq<Byte>)
    requires |m| % BLOCK == 0 && |block| == BLOCK
    ensures |m + block| % BLOCK == 0 && Chain(m + block) == Compress(Chain(m), block)
  {
    hide Compress, H0;
    var all := m + block;
    assert all[..|all| - BLOCK] == m && all[|all| - BLOCK..] == block;
  }

  lemma BlockFilled(m: seq<Byte>, c: seq<Byte>)
    requires |Rest(m)| + |c| == BLOCK
    ensures Rest(m + c) == []
    ensures Chain(Full(m + c)) == Compress(Chain(Full(m)), Rest(m) + c)
  {
    hide Compress, Chain;
    var all := m + c;
    assert all == Full(m) + (Rest(m) + c);
    ChainNext(Full(m), Rest(m) + c);
    assert Full(all) == all;
  }

  /** The zero bytes of the padding, counted from the last, incomplete block. */
  lemma PaddingOfRest(m: seq<Byte>)
    ensures var r := |Rest(m)|;
      ZeroCount(|m|) == if r < 56 then 55 - r else 119 - r
  {
  }

  /** What the padding makes of a last block with room for the length. */
  function ShortTail(m: seq<Byte>): (r: seq<Byte>)
    requires |Rest(m)| < 56
    ensures |r| == BLOCK
  {
    Rest(m) + [0x80] + Zeros(55 - |Rest(m)|) + BigEndian(8 * |m|, 8)
  }

  /** What it makes of a last block without: this block and one more. */
  function LongTail(m: seq<Byte>): (r: seq<Byte>)
    requires |Rest(m)| >= 56
    ensures |r| == BLOCK
  {
    Rest(m) + [0x80] + Zeros(63 - |Rest(m)|)
  }

  function LengthBlock(m: seq<Byte>): (r: seq<Byte>)
    ensures |r| == BLOCK
  {
    Zeros(56) + BigEndian(8 * |m|, 8)
  }

  lemma PadInOneBlock(m: seq<Byte>)
    requires |Rest(m)| < 56
    ensures Chain(Pad(m)) == Compress(Chain(Full(m)), ShortTail(m))
  {
    hide Compress, Chain, BigEndian, ZeroCount;
    PaddingOfRest(m);
    assert m == Full(m) + Rest(m);
    assert Pad(m) == Full(m) + ShortTail(m);
    ChainNext(Full(m), ShortTail(m));
  }

  lemma PadInTwoBlocks(m: seq<Byte>)
    requires |Rest(m)| >= 56
    ensures Chain(Pad(m)) == Compress(Compress(Chain(Full(m)), LongTail(m)), LengthBlock(m))
  {
    hide Compress, Chain, BigEndian, ZeroCount;
    PaddingOfRest(m);
    assert m == Full(m) + Rest(m);
    assert Zeros(119 - |Rest(m)|) == Zeros(63 - |Rest(m)|) + Zeros(56);
    assert Pad(m) == Full(m) + LongTail(m) + LengthBlock(m);
    ChainNext(Full(m), LongTail(m));
    ChainNext(Full(m) + LongTail(m), LengthBlock(m));
  }

  /** A right shift by 8*i bits. */
  function ShiftBytes(v: nat, i: nat): nat {
    if i == 0 then v else ShiftBytes(v, i - 1) / 256
  }

  lemma NothingYet()
    ensures Rest([]) == [] && Chain(Full([])) == H0()
  {
    hide Compress;
  }

  /** The bit counter wraps at 64 bits, so it may be brought up to date in any number of steps. */
  lemma BitsAdd(m: nat, n: nat)
    ensures ((8 * m) % TWO_TO_THE_64 + 8 * n) % TWO_TO_THE_64 == (8 * (m + n)) % TWO_TO_THE_64
  {
  }

  class Sha256 {
    const h: array<Word>
    const buf: array<Byte>
    var len: nat     // a 64-bit counter of message bits
    var blen: nat
    ghost var absorbed: seq<Byte>

    ghost predicate Allocated()
    {
      h.Length == 8 && buf.Length == BLOCK
    }

    /** The hash value and the buffer stand for the message m. */
    ghost predicate Holds(m: seq<Byte>)
      requires Allocated()
      reads this, h, buf
    {
      && blen == |Rest(m)|
      && h[..] == Chain(Full(m))
      && buf[..blen] == Rest(m)
    }

    ghost predicate Valid()
      reads this, h, buf
    {
      Allocated() && Holds(absorbed) && len == (8 * |absorbed|) % TWO_TO_THE_64
    }

    constructor ()
      ensures Allocated() && fresh(h) && fresh(buf)
    {
      h := new Word[8];
      buf := new Byte[BLOCK];
    }

    method Init()
      requires Allocated()
      modifies this, h
      ensures Valid() && absorbed == []
    {
      hide Chain, Full, Rest;
      NothingYet();
      h[0], h[1], h[2], h[3] := Word(0x6a09e667), Word(0xbb67ae85), Word(0x3c6ef372), Word(0xa54ff53a);
      h[4], h[5], h[6], h[7] := Word(0x510e527f), Word(0x9b05688c), Word(0x1f83d9ab), Word(0x5be0cd19);
      len, blen := 0, 0;
      absorbed := [];
      assert h[..] == H0();
    }

    /** The message schedule of the buffer. */
    method Expand() returns (w: array<Word>)
      requires Allocated()
      ensures fresh(w) && w.Length == 64 && w[..] == Schedule(buf[..], 64)
    {
      hide WordOf, Ssig0, Ssig1, SmallSigma0, SmallSigma1, Word.Plus;
      w := new Word[64];
      for i := 0 to 16
        invariant w[..i] == Schedule(buf[..], i)
      {
        w[i] := WordOf(buf[4 * i], buf[4 * i + 1], buf[4 * i + 2], buf[4 * i + 3]);
      }
      for i := 16 to 64
        invariant w[..i] == Schedule(buf[..], i)
      {
        SmallSigmasAgree(w[i - 2]);
        SmallSigmasAgree(w[i - 15]);
        w[i] := Ssig1(w[i - 2]).Plus(w[i - 7]).Plus(Ssig0(w[i - 15])).Plus(w[i - 16]);
      }
      assert w[..64] == w[..];
    }

    /** The 64 rounds over the expanded block. */
    method Mix(w: array<Word>)
      requires Allocated() && w.Length == 64 && w != h
      modifies h
      ensures h[..] == AddTo(old(h[..]), Rounds(Start(old(h[..])), w[..], 64))
    {
      hide Bsig0, Bsig1, BigSigma0, BigSigma1, Ch, Maj, K, Word.Plus;
      var a, b, c, d, e, f, g, h' := h[0], h[1], h[2], h[3], h[4], h[5], h[6], h[7];
      for i := 0 to 64
        invariant h[..] == old(h[..])
        invariant Vars(a, b, c, d, e, f, g, h') == Rounds(Start(h[..]), w[..], i)
      {
        BigSigmasAgree(e);
        BigSigmasAgree(a);
        var t1 := h'.Plus(Bsig1(e)).Plus(Ch(e, f, g)).Plus(K(i)).Plus(w[i]);
        var t2 := Bsig0(a).Plus(Maj(a, b, c));
        h', g, f, e, d, c, b, a := g, f, e, d.Plus(t1), c, b, a, t1.Plus(t2);
      }
      h[0], h[1], h[2], h[3] := h[0].Plus(a), h[1].Plus(b), h[2].Plus(c), h[3].Plus(d);
      h[4], h[5], h[6], h[7] := h[4].Plus(e), h[5].Plus(f), h[6].Plus(g), h[7].Plus(h');
    }

    /** Folds the full buffer into the hash value. */
    method Block()
      requires Allocated()
      modifies h
      ensures h[..] == Compress(old(h[..]), buf[..])
    {
      var w := Expand();
      Mix(w);
    }

    method Copy(bytes: seq<Byte>)
      requires Allocated() && blen + |bytes| <= BLOCK
      modifies buf
      ensures buf[..blen + |bytes|] == old(buf[..blen]) + bytes
    {
      for k := 0 to |bytes|
        invariant buf[..blen + k] == old(buf[..blen]) + bytes[..k]
      {
        buf[blen + k] := bytes[k];
      }
    }

    /** One pass of the update loop: copy bytes behind those already buffered, fold a full buffer. */
    method Take(bytes: seq<Byte>)
      requires Allocated() && Holds(absorbed)
      requires |bytes| <= BLOCK - blen
      modifies this`blen, this`absorbed, h, buf
      ensures Holds(absorbed) && absorbed == old(absorbed) + bytes
    {
      hide Compress, Chain;
      Copy(bytes);
      blen := blen + |bytes|;
      if blen == BLOCK {
        BlockFilled(absorbed, bytes);
        assert buf[..] == buf[..blen];
        Block();
        blen := 0;
      } else {
        BlockNotYetFull(absorbed, bytes);
      }
      absorbed := absorbed + bytes;
    }

    method Update(data: seq<Byte>)
      requires Valid()
      modifies this, h, buf
      ensures Valid() && absorbed == old(absorbed) + data
    {
      hide Compress, Chain, Full, Rest;
      BitsAdd(|absorbed|, |data|);
      len := (len + 8 * |data|) % TWO_TO_THE_64;
      var p := 0;
      while p < |data|
        invariant p <= |data| && Holds(absorbed)
        invariant absorbed == old(absorbed) + data[..p]
        invariant len == (8 * (|old(absorbed)| + |data|)) % TWO_TO_THE_64
      {
        var take := if |data| - p > BLOCK - blen then BLOCK - blen else |data| - p;
        Take(data[p..p + take]);
        assert data[..p + take] == data[..p] + data[p..p + take];
        p := p + take;
      }
      assert data[..p] == data;
    }

    method FillWithZeros(end: nat)
      requires Allocated() && blen <= end <= BLOCK
      modifies this`blen, buf
      ensures blen == end && buf[..end] == old(buf[..blen]) + Zeros(end - old(blen))
    {
      while blen < end
        invariant old(blen) <= blen <= end
        invariant buf[..blen] == old(buf[..blen]) + Zeros(blen - old(blen))
      {
        buf[blen] := 0;
        blen := blen + 1;
      }
    }

    /** Appends the eight bytes of the bit count, most significant first. */
    method PutLength()
      requires Allocated() && blen == 56
      modifies this`blen, buf
      ensures blen == BLOCK && buf[..] == old(buf[..56]) + BigEndian(len, 8)
    {
      for i := 8 downto 0
        invariant blen == 64 - i && len == old(len)
        invariant buf[..blen] == old(buf[..56]) + BigEndian(ShiftBytes(len, i), 8 - i)
      {
        buf[blen] := (ShiftBytes(len, i) % 256) as Byte;
        blen := blen + 1;
        assert BigEndian(ShiftBytes(len, i), 8 - i)
            == BigEndian(ShiftBytes(len, i + 1), 7 - i) + [(ShiftBytes(len, i) % 256) as Byte];
      }
      assert buf[..] == buf[..64];
    }

    /** Pads the buffered bytes and folds the one or two blocks that this makes. */
    method FinishBlocks()
      requires Valid()
      modifies this, h, buf
      ensures h[..] == Chain(Pad(old(absorbed)))
    {
      hide Compress, Chain, Full, Rest, BigEndian, Pad, ZeroCount;
      ghost var m := absorbed;
      LengthFieldWraps(8 * |m|);
      buf[blen] := 0x80;
      blen := blen + 1;
      assert buf[..blen] == Rest(m) + [0x80];
      ghost var spill := blen > 56;
      if spill { PadInTwoBlocks(m); } else { PadInOneBlock(m); }
      if blen > 56 {
        FillWithZeros(BLOCK);
        assert buf[..] == buf[..64] == LongTail(m);
        Block();
        blen := 0;
      }
      FillWithZeros(56);
      PutLength();
      assert buf[..] == if spill then LengthBlock(m) else ShortTail(m);
      Block();
    }

    /** Writes the digest of everything absorbed; afterwards the hasher must be initialised again. */
    method Final(out: array<Byte>)
      requires Valid() && out.Length == 32 && out != buf
      modifies this, h, buf, out
      ensures out[..] == Digest(old(absorbed))
    {
      hide Compress, Chain, Pad, LowByte, Word.Shr;
      FinishBlocks();
      for i := 0 to 8
        invariant h[..] == Chain(Pad(old(absorbed)))
        invariant out[..4 * i] == Bytes(h[..i])
      {
        out[4 * i], out[4 * i + 1] := LowByte(h[i].Shr(24)), LowByte(h[i].Shr(16));
        out[4 * i + 2], out[4 * i + 3] := LowByte(h[i].Shr(8)), LowByte(h[i]);
        assert h[..i + 1][..i] == h[..i];
      }
      assert out[..32] == out[..] && h[..8] == h[..];
    }
  }
}
