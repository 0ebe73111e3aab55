/** SHA-256 as lib/ff_core/sha256.cpp streams it, proved to be the hash of FIPS 180-4
    of everything fed to it, however it was split. */
module Sha256 {
  import opened ByteStrings

  datatype Word = Word(v: bv32)

  const WORD0 := Word(0)

  function Add(a: Word, b: Word): Word
  {
    Word(a.v + b.v)
  }

  lemma AddComm(a: Word, b: Word)
    ensures Add(a, b) == Add(b, a)
  {}

  function Sum4(a: Word, b: Word, c: Word, d: Word): Word
  {
    Word(a.v + b.v + c.v + d.v)
  }

  /** Addition modulo 2^32 does not care for the order of its terms. */
  lemma Sum4Reversed(a: Word, b: Word, c: Word, d: Word)
    ensures Sum4(a, b, c, d) == Sum4(d, c, b, a)
  {}

  // ---- FIPS 180-4: functions and constants (sections 4.1.2 and 4.2.2) ------------------

  function Rotr(x: bv32, n: bv6): bv32
    requires n <= 32
  {
    (x >> n) | (x << (32 - n))
  }

  function Ch(x: Word, y: Word, z: Word): Word
  {
    Word((x.v & y.v) ^ (!x.v & z.v))
  }

  function Maj(x: Word, y: Word, z: Word): Word
  {
    Word((x.v & y.v) ^ (x.v & z.v) ^ (y.v & z.v))
  }

  function BigSigma0(x: Word): Word
  {
    Word(Rotr(x.v, 2) ^ Rotr(x.v, 13) ^ Rotr(x.v, 22))
  }

  function BigSigma1(x: Word): Word
  {
    Word(Rotr(x.v, 6) ^ Rotr(x.v, 11) ^ Rotr(x.v, 25))
  }

  function Sigma0(x: Word): Word
  {
    Word(Rotr(x.v, 7) ^ Rotr(x.v, 18) ^ (x.v >> 3))
  }

  function Sigma1(x: Word): Word
  {
    Word(Rotr(x.v, 17) ^ Rotr(x.v, 19) ^ (x.v >> 10))
  }

  function K(t: nat): Word
    requires t < 64
  {
    Word(KBits(t))
  }

  function KBits(t: nat): bv32
    requires t < 64
  {
    if t < 8 then (match t
      case 0 => 0x428a2f98 case 1 => 0x71374491 case 2 => 0xb5c0fbcf case 3 => 0xe9b5dba5
      case 4 => 0x3956c25b case 5 => 0x59f111f1 case 6 => 0x923f82a4 case _ => 0xab1c5ed5)
    else if t < 16 then (match t
      case 8 => 0xd807aa98 case 9 => 0x12835b01 case 10 => 0x243185be case 11 => 0x550c7dc3
      case 12 => 0x72be5d74 case 13 => 0x80deb1fe case 14 => 0x9bdc06a7 case _ => 0xc19bf174)
    else if t < 24 then (match t
      case 16 => 0xe49b69c1 case 17 => 0xefbe4786 case 18 => 0x0fc19dc6 case 19 => 0x240ca1cc
      case 20 => 0x2de92c6f case 21 => 0x4a7484aa case 22 => 0x5cb0a9dc case _ => 0x76f988da)
    else if t < 32 then (match t
      case 24 => 0x983e5152 case 25 => 0xa831c66d case 26 => 0xb00327c8 case 27 => 0xbf597fc7
      case 28 => 0xc6e00bf3 case 29 => 0xd5a79147 case 30 => 0x06ca6351 case _ => 0x14292967)
    else if t < 40 then (match t
      case 32 => 0x27b70a85 case 33 => 0x2e1b2138 case 34 => 0x4d2c6dfc case 35 => 0x53380d13
      case 36 => 0x650a7354 case 37 => 0x766a0abb case 38 => 0x81c2c92e case _ => 0x92722c85)
    else if t < 48 then (match t
      case 40 => 0xa2bfe8a1 case 41 => 0xa81a664b case 42 => 0xc24b8b70 case 43 => 0xc76c51a3
      case 44 => 0xd192e819 case 45 => 0xd6990624 case 46 => 0xf40e3585 case _ => 0x106aa070)
    else if t < 56 then (match t
      case 48 => 0x19a4c116 case 49 => 0x1e376c08 case 50 => 0x2748774c case 51 => 0x34b0bcb5
      case 52 => 0x391c0cb3 case 53 => 0x4ed8aa4a case 54 => 0x5b9cca4f case _ => 0x682e6ff3)
    else (match t
      case 56 => 0x748f82ee case 57 => 0x78a5636f case 58 => 0x84c87814 case 59 => 0x8cc70208
      case 60 => 0x90befffa case 61 => 0xa4506ceb case 62 => 0xbef9a3f7 case _ => 0xc67178f2)
  }

  /** Four bytes, most significant first. */
  function WordOf(b0: Byte, b1: Byte, b2: Byte, b3: Byte): Word
  {
    Word(((b0.v as bv32) << 24) | ((b1.v as bv32) << 16) | ((b2.v as bv32) << 8) | (b3.v as bv32))
  }

  function ByteOf(w: Word, shift: bv6): Byte
    requires shift <= 24
  {
    Byte(((w.v >> shift) & 0xff) as bv8)
  }

  lemma WordRoundTrip(w: Word)
    ensures WordOf(ByteOf(w, 24), ByteOf(w, 16), ByteOf(w, 8), ByteOf(w, 0)) == w
  {}

  // ---- FIPS 180-4: the hash computation (section 6.2.2) ----------------------------------

  datatype Hash = Hash(a: Word, b: Word, c: Word, d: Word, e: Word, f: Word, g: Word, h: Word)

  type Chunk = s: Bytes | |s| == 64 witness seq(64, i => ZERO)

  /** The message schedule. */
  ghost function W(m: Chunk, t: nat): Word
  {
    if t < 16 then WordOf(m[4 * t], m[4 * t + 1], m[4 * t + 2], m[4 * t + 3])
    else Sum4(Sigma1(W(m, t - 2)), W(m, t - 7), Sigma0(W(m, t - 15)), W(m, t - 16))
  }

  lemma WStart(m: Chunk, t: nat)
    requires t < 16
    ensures W(m, t) == WordOf(m[4 * t], m[4 * t + 1], m[4 * t + 2], m[4 * t + 3])
  {}

  lemma WNext(m: Chunk, t: nat)
    requires t >= 16
    ensures W(m, t) == Sum4(Sigma1(W(m, t - 2)), W(m, t - 7), Sigma0(W(m, t - 15)), W(m, t - 16))
  {}

  ghost function Round(x: Hash, k: Word, w: Word): Hash
  {
    var t1 := Add(Add(Add(Add(x.h, BigSigma1(x.e)), Ch(x.e, x.f, x.g)), k), w);
    var t2 := Add(BigSigma0(x.a), Maj(x.a, x.b, x.c));
    Hash(Add(t1, t2), x.a, x.b, x.c, Add(x.d, t1), x.e, x.f, x.g)
  }

  ghost function Rounds(x: Hash, m: Chunk, t: nat): Hash
    requires t <= 64
  {
    if t == 0 then x else Round(Rounds(x, m, t - 1), K(t - 1), W(m, t - 1))
  }

  ghost function Compress(x: Hash, m: Chunk): Hash
  {
    var y := Rounds(x, m, 64);
    Hash(Add(y.a, x.a), Add(y.b, x.b), Add(y.c, x.c), Add(y.d, x.d),
         Add(y.e, x.e), Add(y.f, x.f), Add(y.g, x.g), Add(y.h, x.h))
  }

  function InitialHash(): Hash
  {
    Hash(Word(0x6a09e667), Word(0xbb67ae85), Word(0x3c6ef372), Word(0xa54ff53a),
         Word(0x510e527f), Word(0x9b05688c), Word(0x1f83d9ab), Word(0x5be0cd19))
  }

  ghost function HashBlocks(s: Bytes): Hash
    requires |s| % 64 == 0
  {
    if s == [] then InitialHash() else Compress(HashBlocks(s[..|s| - 64]), s[|s| - 64..])
  }

  /** The smallest number of zero bytes that leaves room for the length (section 5.1.1). */
  function ZeroCount(len: nat): (k: nat)
    ensures k < 64 && (len + 1 + k) % 64 == 56
  {
    (119 - len % 64) % 64
  }

  ghost function Pad(message: Bytes, bits: nat): (s: Bytes)
    ensures |s| % 64 == 0
  {
    message + [Byte(0x80)] + Zeros(ZeroCount(|message|)) + BigEndian(bits, 8)
  }

  ghost function WordBytes(w: Word): (s: Bytes)
    ensures |s| == 4
  {
    [ByteOf(w, 24), ByteOf(w, 16), ByteOf(w, 8), ByteOf(w, 0)]
  }

  ghost function Digest(x: Hash): (s: Bytes)
    ensures |s| == 32
  {
    WordBytes(x.a) + WordBytes(x.b) + WordBytes(x.c) + WordBytes(x.d)
    + WordBytes(x.e) + WordBytes(x.f) + WordBytes(x.g) + WordBytes(x.h)
  }

  /** SHA-256 of a message of fewer than 2^64 bits. */
  ghost function Sha256Of(message: Bytes): (digest: Bytes)
    ensures |digest| == 32
  {
    Digest(HashBlocks(Pad(message, 8 * |message|)))
  }

  const TWO64: nat := 0x1_0000_0000_0000_0000

  /** The code's 64-bit count of the bits of `n` bytes. */
  function BitCount(n: nat): (bits: nat)
  {
    (8 * n) % TWO64
  }

  function AddBits(bits: nat, n: nat): (sum: nat)
  {
    (bits + n * 8) % TWO64
  }

  // ---- The code -----------------------------------------------------------------------------

  /** `x` is the hash of the whole blocks of `fed`, and `open` is what remains. */
  ghost predicate Absorbed(fed: Bytes, open: Bytes, x: Hash)
  {
    && |open| == |fed| % 64
    && open == fed[|fed| - |open|..]
    && x == HashBlocks(fed[..|fed| - |open|])
  }

  lemma AbsorbedNothing()
    ensures Absorbed([], [], InitialHash())
  {}

  /** A piece that does not overrun the open block goes into it, and a full block into
      the hash. */
  lemma AbsorbedMore(fed: Bytes, open: Bytes, x: Hash, piece: Bytes)
    requires Absorbed(fed, open, x) && |open| + |piece| <= 64
    ensures |open| + |piece| < 64 ==> Absorbed(fed + piece, open + piece, x)
    ensures |open| + |piece| == 64 ==> Absorbed(fed + piece, [], Compress(x, open + piece))
  {
    hide HashBlocks, Compress;
    var whole := fed[..|fed| - |open|];
    var now := fed + piece;
    assert now == whole + (open + piece);
    if |open| + |piece| == 64 {
      HashMore(whole, open + piece);
      assert now[..|now|] == now;
    } else {
      var n := |open| + |piece|;
      assert now[..|now| - n] == whole && now[|now| - n..] == open + piece;
    }
  }

  lemma FedMore(was: Bytes, data: Bytes, done: nat, take: nat)
    requires done + take <= |data|
    ensures was + data[..done] + data[done..done + take] == was + data[..done + take]
  {
    assert data[..done + take] == data[..done] + data[done..done + take];
  }

  class Hasher {
    const h: array<Word>
    const buf: array<Byte>
    var bufLen: nat
    var totalBits: nat
    /** Everything fed since the reset. */
    ghost var fed: Bytes

    ghost predicate Shape()
    {
      h.Length == 8 && buf.Length == 64
    }

    ghost function State(): Hash
      reads h
      requires Shape()
    {
      Hash(h[0], h[1], h[2], h[3], h[4], h[5], h[6], h[7])
    }

    ghost predicate Absorbing()
      reads `bufLen, `fed, h, buf
    {
      Shape() && bufLen < 64 && Absorbed(fed, buf[..bufLen], State())
    }

    ghost predicate Valid()
      reads this, h, buf
    {
      Absorbing() && totalBits == BitCount(|fed|)
    }

    constructor ()
      ensures Valid() && fresh(h) && fresh(buf) && fed == []
    {
      h := new Word[8](i => WORD0);
      buf := new Byte[64](i => ZERO);
      new;
      Reset();
    }

    method Reset()
      requires Shape()
      modifies this, h
      ensures Valid() && fed == []
    {
      hide Absorbed, InitialHash, BitCount;
      AbsorbedNothing();
      ShortBitCount(0);
      var initial := InitialHash();
      h[0] := initial.a;
      h[1] := initial.b;
      h[2] := initial.c;
      h[3] := initial.d;
      h[4] := initial.e;
      h[5] := initial.f;
      h[6] := initial.g;
      h[7] := initial.h;
      bufLen := 0;
      totalBits := 0;
      fed := [];
      assert buf[..bufLen] == [] && State() == initial;
    }

    static method Schedule(block: Chunk) returns (w: array<Word>)
      ensures fresh(w) && w.Length == 64
      ensures forall t :: 0 <= t < 64 ==> w[t] == W(block, t)
    {
      hide Sum4, Sigma0, Sigma1, WordOf, W;
      w := new Word[64](i => WORD0);
      for i := 0 to 16
        invariant forall t :: 0 <= t < i ==> w[t] == W(block, t)
      {
        WStart(block, i);
        w[i] := WordOf(block[i * 4], block[i * 4 + 1], block[i * 4 + 2], block[i * 4 + 3]);
      }
      for i := 16 to 64
        invariant forall t :: 0 <= t < i ==> w[t] == W(block, t)
      {
        var s0 := Sigma0(w[i - 15]);
        var s1 := Sigma1(w[i - 2]);
        WNext(block, i);
        Sum4Reversed(w[i - 16], s0, w[i - 7], s1);
        w[i] := Sum4(w[i - 16], s0, w[i - 7], s1);
      }
    }

    method CompressBlock(block: Chunk)
      requires Shape()
      modifies h
      ensures State() == Compress(old(State()), block)
    {
      hide Add, BigSigma0, BigSigma1, Ch, Maj, W, K;
      var w := Schedule(block);
      ghost var start := State();
      var a, b, c, d := h[0], h[1], h[2], h[3];
      var e, f, g, hh := h[4], h[5], h[6], h[7];
      for i := 0 to 64
        invariant forall t :: 0 <= t < 64 ==> w[t] == W(block, t)
        invariant Hash(a, b, c, d, e, f, g, hh) == Rounds(start, block, i)
      {
        var s1 := BigSigma1(e);
        var ch := Ch(e, f, g);
        var t1 := Add(Add(Add(Add(hh, s1), ch), K(i)), w[i]);
        var s0 := BigSigma0(a);
        var maj := Maj(a, b, c);
        var t2 := Add(s0, maj);
        hh := g;
        g := f;
        f := e;
        e := Add(d, t1);
        d := c;
        c := b;
        b := a;
        a := Add(t1, t2);
      }
      AddComm(h[0], a);
      AddComm(h[1], b);
      AddComm(h[2], c);
      AddComm(h[3], d);
      AddComm(h[4], e);
      AddComm(h[5], f);
      AddComm(h[6], g);
      AddComm(h[7], hh);
      h[0] := Add(h[0], a);
      h[1] := Add(h[1], b);
      h[2] := Add(h[2], c);
      h[3] := Add(h[3], d);
      h[4] := Add(h[4], e);
      h[5] := Add(h[5], f);
      h[6] := Add(h[6], g);
      h[7] := Add(h[7], hh);
    }

    method Update(data: Bytes)
      requires Valid()
      modifies this`bufLen, this`totalBits, this`fed, h, buf
      ensures Valid() && fed == old(fed) + data
    {
      hide Absorbed, BitCount, AddBits, State;
      totalBits := AddBits(totalBits, |data|);
      ghost var was, bits := fed, totalBits;
      BitsAdd(|was|, |data|);
      var done := 0;
      while done < |data|
        invariant done <= |data| && Absorbing() && fed == was + data[..done]
        invariant totalBits == bits
      {
        var take := if 64 - bufLen < |data| - done then 64 - bufLen else |data| - done;
        Take(data[done..done + take]);
        FedMore(was, data, done, take);
        done := done + take;
      }
      assert data[..|data|] == data;
      assert |fed| == |was| + |data|;
    }

    /** One pass of the loop: fill the block up, compress it when it is full. */
    method Take(piece: Bytes)
      requires Absorbing() && |piece| <= 64 - bufLen
      modifies this`bufLen, this`fed, h, buf
      ensures Absorbing() && fed == old(fed) + piece
    {
      hide Absorbed, Compress, State;
      ghost var open := buf[..bufLen];
      AbsorbedMore(fed, open, State(), piece);
      CopyIn(piece);
      bufLen := bufLen + |piece|;
      fed := fed + piece;
      assert buf[..bufLen] == open + piece;
      if bufLen == 64 {
        assert buf[..] == open + piece;
        CompressBlock(buf[..]);
        bufLen := 0;
        assert buf[..bufLen] == [];
      }
    }

    method CopyIn(piece: Bytes)
      requires Shape() && bufLen + |piece| <= 64
      modifies buf
      ensures buf[..bufLen] == old(buf[..bufLen]) && buf[bufLen..bufLen + |piece|] == piece
    {
      for i := 0 to |piece|
        invariant buf[..bufLen] == old(buf[..bufLen])
        invariant buf[bufLen..bufLen + i] == piece[..i]
      {
        buf[bufLen + i] := piece[i];
      }
    }

    /** The digest of everything fed; its length enters modulo 2^64. */
    method Finish() returns (out: Bytes)
      requires Valid()
      modifies this`bufLen, this`totalBits, this`fed, h, buf
      ensures out == Digest(HashBlocks(Pad(old(fed), BitCount(|old(fed)|))))
      ensures |old(fed)| < TWO64 / 8 ==> out == Sha256Of(old(fed))
    {
      hide HashBlocks, Digest, State, Pad, BitCount;
      ghost var message := fed;
      if |message| < TWO64 / 8 {
        ShortBitCount(|message|);
      }
      var bits := totalBits;
      PadOut();
      AppendLength(message, bits);
      out := Output();
    }

    /** The marker byte and the zeros after it. */
    method PadOut()
      requires Valid()
      modifies this`bufLen, this`totalBits, this`fed, h, buf
      ensures Valid() && bufLen == 56
      ensures fed == old(fed) + [Byte(0x80)] + Zeros(ZeroCount(|old(fed)|))
    {
      hide Valid;
      ghost var message := fed;
      Update([Byte(0x80)]);
      ghost var zeros := 0;
      assert fed == message + [Byte(0x80)] + Zeros(0);
      OpenBytes();
      while bufLen != 56
        invariant Valid() && bufLen == |fed| % 64
        invariant zeros <= ZeroCount(|message|) && fed == message + [Byte(0x80)] + Zeros(zeros)
        decreases ZeroCount(|message|) - zeros
      {
        StillShort(|message|, zeros);
        Update([ZERO]);
        assert Zeros(zeros) + [ZERO] == Zeros(zeros + 1);
        zeros := zeros + 1;
        OpenBytes();
      }
      EnoughZeros(|message|, zeros);
    }

    lemma OpenBytes()
      requires Valid()
      ensures bufLen == |fed| % 64
    {}

    method AppendLength(ghost message: Bytes, bits: nat)
      requires Valid() && bufLen == 56
      requires fed == message + [Byte(0x80)] + Zeros(ZeroCount(|message|))
      modifies this`bufLen, h, buf
      ensures State() == HashBlocks(Pad(message, bits))
    {
      hide Absorbed, HashBlocks, Compress, Octet;
      ghost var open := buf[..56];
      ghost var last := BigEndian(bits, 8);
      AbsorbedMore(fed, open, State(), last);
      for i := 0 to 8
        invariant buf[..56] == open
        invariant forall p :: 56 <= p < 56 + i ==> buf[p] == Octet(bits, 63 - p)
        modifies buf
      {
        buf[56 + i] := Octet(bits, 7 - i);
      }
      assert buf[56..] == last;
      assert buf[..] == buf[..56] + buf[56..] == open + last;
      assert Pad(message, bits) == fed + last;
      AbsorbedWhole(fed + last, Compress(State(), open + last));
      CompressBlock(buf[..]);
      bufLen := 0;
    }

    static method PutWord(bytes: array<Byte>, at: nat, w: Word)
      requires at + 4 <= bytes.Length
      modifies bytes
      ensures bytes[..at] == old(bytes[..at]) && bytes[at..at + 4] == WordBytes(w)
    {
      hide ByteOf;
      bytes[at] := ByteOf(w, 24);
      bytes[at + 1] := ByteOf(w, 16);
      bytes[at + 2] := ByteOf(w, 8);
      bytes[at + 3] := ByteOf(w, 0);
    }

    method Output() returns (out: Bytes)
      requires Shape()
      ensures out == Digest(State())
    {
      hide WordBytes, ByteOf;
      var bytes := new Byte[32](i => ZERO);
      for i := 0 to 8
        invariant forall k :: 0 <= k < i ==> bytes[4 * k..4 * k + 4] == WordBytes(h[k])
        modifies bytes
      {
        ghost var was := bytes[..4 * i];
        PutWord(bytes, 4 * i, h[i]);
        forall k | 0 <= k < i
          ensures bytes[4 * k..4 * k + 4] == WordBytes(h[k])
        {
          assert bytes[4 * k..4 * k + 4] == bytes[..4 * i][4 * k..4 * k + 4] == was[4 * k..4 * k + 4];
        }
      }
      out := bytes[..];
      assert out == bytes[0..4] + bytes[4..8] + bytes[8..12] + bytes[12..16]
                    + bytes[16..20] + bytes[20..24] + bytes[24..28] + bytes[28..32];
      assert forall k :: 0 <= k < 8 ==> bytes[4 * k..4 * k + 4] == WordBytes(h[k]);
    }
  }

  lemma AbsorbedWhole(fed: Bytes, x: Hash)
    requires Absorbed(fed, [], x)
    ensures |fed| % 64 == 0 && x == HashBlocks(fed)
  {
    assert fed[..|fed| - 0] == fed;
  }

  lemma BitsAdd(m: nat, n: nat)
    ensures AddBits(BitCount(m), n) == BitCount(m + n)
  {}

  lemma ShortBitCount(n: nat)
    requires n < TWO64 / 8
    ensures BitCount(n) == 8 * n
  {}

  lemma HashMore(s: Bytes, block: Chunk)
    requires |s| % 64 == 0
    ensures |s + block| % 64 == 0
    ensures HashBlocks(s + block) == Compress(HashBlocks(s), block)
  {
    hide Compress;
    assert (s + block)[..|s|] == s && (s + block)[|s|..] == block;
  }

  lemma StillShort(len: nat, zeros: nat)
    requires zeros <= ZeroCount(len) && (len + 1 + zeros) % 64 != 56
    ensures zeros < ZeroCount(len)
  {}

  lemma EnoughZeros(len: nat, zeros: nat)
    requires zeros <= ZeroCount(len) && (len + 1 + zeros) % 64 == 56
    ensures zeros == ZeroCount(len)
  {
    var k := ZeroCount(len);
    assert (len + 1 + k) - (len + 1 + zeros) == k - zeros;
    assert (k - zeros) % 64 == 0;
  }

  /** The one-shot form. */
  method Sha256(data: Bytes) returns (digest: Bytes)
    ensures |data| < TWO64 / 8 ==> digest == Sha256Of(data)
  {
    hide HashBlocks, Pad, Digest, BitCount, Sha256Of;
    var hasher := new Hasher();
    hasher.Update(data);
    assert [] + data == data;
    digest := hasher.Finish();
  }
}
