/** What a sealing binds: the blocks that lib/ff_core/ccm.cpp authenticates tell nonce, header,
    data and tag length apart, and no two keystream blocks under one key are the same. */
module CcmBinding {
  import opened ByteStrings
  import opened Aes
  import opened Ccm

  // ---- Numbers and lengths ---------------------------------------------------------------

  lemma BigEndianTellsApart(m: nat, n: nat, l: nat)
    requires m < Pow256(l) && n < Pow256(l) && BigEndian(m, l) == BigEndian(n, l)
    ensures m == n
  {
    hide BigEndian;
    ValueOfBigEndian(m, l);
    ValueOfBigEndian(n, l);
  }

  lemma TwoOctets()
    ensures Pow256(2) == 0x1_0000
  {
    assert Pow256(1) == 256;
  }

  /** The first octet holds three numbers in bits of their own. */
  lemma FlagsTellApart(l: nat, m: nat, aadLen: nat, bbdLen: nat, t: nat, u: nat)
    requires 2 <= l <= 4 && 2 <= m <= 4 && 4 <= t <= 16 && 4 <= u <= 16
    requires FlagsOfFirstBlock(l, aadLen, t) == FlagsOfFirstBlock(m, bbdLen, u)
    ensures l == m && (aadLen > 0 <==> bbdLen > 0) && t / 2 == u / 2
  {
    var a, b := if aadLen > 0 then 1 else 0, if bbdLen > 0 then 1 else 0;
    assert 8 * (8 * a + (t - 2) / 2) + (l - 1) == 8 * (8 * b + (u - 2) / 2) + (m - 1);
  }

  lemma FirstBlockParts(nonce: Bytes, aadLen: nat, dataLen: nat, tagLen: nat)
    requires IsNonce(nonce) && 4 <= tagLen <= 16
    ensures var b, l := FirstBlock(nonce, aadLen, dataLen, tagLen), 15 - |nonce|;
            b[0] == Octet(FlagsOfFirstBlock(l, aadLen, tagLen), 0) && b[1..16 - l] == nonce
            && b[16 - l..] == BigEndian(dataLen, l)
  {
    hide Octet;
  }

  lemma FirstBlockTellsApart(n: Bytes, m: Bytes, aadLen: nat, bbdLen: nat, d: nat, e: nat, t: nat, u: nat)
    requires IsNonce(n) && IsNonce(m) && 4 <= t <= 16 && 4 <= u <= 16
    requires d < Pow256(15 - |n|) && e < Pow256(15 - |m|)
    requires FirstBlock(n, aadLen, d, t) == FirstBlock(m, bbdLen, e, u)
    ensures n == m && d == e && (aadLen > 0 <==> bbdLen > 0) && t / 2 == u / 2
  {
    hide Octet, FirstBlock, FlagsOfFirstBlock, BigEndian;
    FirstBlockParts(n, aadLen, d, t);
    FirstBlockParts(m, bbdLen, e, u);
    SameOctet(FlagsOfFirstBlock(15 - |n|, aadLen, t), FlagsOfFirstBlock(15 - |m|, bbdLen, u));
    FlagsTellApart(15 - |n|, 15 - |m|, aadLen, bbdLen, t, u);
    BigEndianTellsApart(d, e, 15 - |n|);
  }

  // ---- The header ------------------------------------------------------------------------

  /** Two octets of length in front: where the header ends is known before it is read. */
  lemma AadFront(aad: Bytes)
    requires 0 < |aad| < 0x1_0000
    ensures var s := AadBlocks(aad);
            |s| >= 2 + |aad| && s[..2] == BigEndian(|aad|, 2) && s[2..2 + |aad|] == aad
  {
    hide Octet;
  }

  lemma AadBlocksTellApart(a: Bytes, b: Bytes)
    requires |a| < 0x1_0000 && |b| < 0x1_0000
    ensures AadBlocks(a) == AadBlocks(b) <==> a == b
  {
    hide AadBlocks, BigEndian;
    if AadBlocks(a) == AadBlocks(b) {
      NoAad(a);
      NoAad(b);
      if a != [] && b != [] {
        AadFront(a);
        AadFront(b);
        TwoOctets();
        BigEndianTellsApart(|a|, |b|, 2);
      }
    }
  }

  lemma NoAad(a: Bytes)
    ensures AadBlocks(a) == [] <==> a == []
  {
    hide BigEndian;
  }

  /** The blocks of two headers that begin alike are those of one header. */
  lemma AadBlocksPrefixFree(a: Bytes, b: Bytes, s: Bytes, t: Bytes)
    requires |a| < 0x1_0000 && |b| < 0x1_0000 && (a == [] <==> b == [])
    requires AadBlocks(a) + s == AadBlocks(b) + t
    ensures a == b && s == t
  {
    hide AadBlocks, BigEndian;
    NoAad(a);
    NoAad(b);
    if a != [] {
      AadFront(a);
      AadFront(b);
      TwoOctets();
      var x, y := AadBlocks(a), AadBlocks(b);
      assert x[..2] == (x + s)[..2] == (y + t)[..2] == y[..2];
      BigEndianTellsApart(|a|, |b|, 2);
      assert x[2..2 + |a|] == (x + s)[2..2 + |a|] == (y + t)[2..2 + |a|] == y[2..2 + |a|];
    }
    assert s == (AadBlocks(a) + s)[|AadBlocks(a)|..] && t == (AadBlocks(b) + t)[|AadBlocks(b)|..];
  }

  lemma PaddingTellsApart(a: Bytes, b: Bytes)
    requires |a| == |b| && Pad16(a) == Pad16(b)
    ensures a == b
  {
    assert a == Pad16(a)[..|a|] && b == Pad16(b)[..|b|];
  }

  // ---- Everything the tag covers -----------------------------------------------------------

  /** What is authenticated determines nonce, header, data and, as it is even, the tag
      length: no two different messages share the input of the tag. */
  lemma MacInputTellsApart(n: Bytes, m: Bytes, a: Bytes, b: Bytes, d: Bytes, e: Bytes, t: nat, u: nat)
    requires IsNonce(n) && IsNonce(m) && 4 <= t <= 16 && 4 <= u <= 16 && t % 2 == u % 2 == 0
    requires |a| < 0x1_0000 && |b| < 0x1_0000
    requires |d| < Pow256(15 - |n|) && |e| < Pow256(15 - |m|)
    ensures MacInput(n, a, d, t) == MacInput(m, b, e, u) <==> n == m && a == b && d == e && t == u
  {
    hide FirstBlock, AadBlocks, Pad16, MacInput, Pow256;
    if MacInput(n, a, d, t) == MacInput(m, b, e, u) {
      MacInputSplit(n, a, d, t);
      MacInputSplit(m, b, e, u);
      BlockAndRest(FirstBlock(n, |a|, |d|, t), AadBlocks(a) + Pad16(d), FirstBlock(m, |b|, |e|, u), AadBlocks(b) + Pad16(e));
      FirstBlockTellsApart(n, m, |a|, |b|, |d|, |e|, t, u);
      AadBlocksPrefixFree(a, b, Pad16(d), Pad16(e));
      PaddingTellsApart(d, e);
    }
  }

  lemma MacInputSplit(nonce: Bytes, aad: Bytes, data: Bytes, tagLen: nat)
    requires IsNonce(nonce) && 4 <= tagLen <= 16
    ensures MacInput(nonce, aad, data, tagLen)
         == FirstBlock(nonce, |aad|, |data|, tagLen) + (AadBlocks(aad) + Pad16(data))
  {
    hide FirstBlock, AadBlocks, Pad16;
  }

  lemma BlockAndRest(x: Block, v: Bytes, y: Block, w: Bytes)
    requires x + v == y + w
    ensures x == y && v == w
  {
    assert x == (x + v)[..16] && y == (y + w)[..16] && v == (x + v)[16..] && w == (y + w)[16..];
  }

  // ---- The keystream -----------------------------------------------------------------------

  lemma CounterBlockParts(nonce: Bytes, i: nat)
    requires IsNonce(nonce)
    ensures var b, l := CounterBlock(nonce, i), 15 - |nonce|;
            b[0] == Octet(l - 1, 0) && b[1..16 - l] == nonce && b[16 - l..] == BigEndian(i, l)
  {
    hide Octet;
  }

  /** Counter blocks tell nonces and counters apart. */
  lemma CounterBlocksTellApart(n: Bytes, m: Bytes, i: nat, j: nat)
    requires IsNonce(n) && IsNonce(m) && i < Pow256(15 - |n|) && j < Pow256(15 - |m|)
    ensures CounterBlock(n, i) == CounterBlock(m, j) <==> n == m && i == j
  {
    hide Octet, CounterBlock, BigEndian;
    if CounterBlock(n, i) == CounterBlock(m, j) {
      CounterBlockParts(n, i);
      CounterBlockParts(m, j);
      SameOctet(14 - |n|, 14 - |m|);
      BigEndianTellsApart(i, j, 15 - |n|);
    }
  }

  lemma CipherTellsApart(rk: Schedule, a: Block, b: Block)
    ensures CipherOf(rk)(a) == CipherOf(rk)(b) <==> a == b
  {
    hide Cipher, InvCipher;
    CipherIsPermutation(rk, a);
    CipherIsPermutation(rk, b);
  }

  /** Block `i` of the keystream, counted from 0. */
  ghost function StreamBlock(rk: Schedule, nonce: Bytes, len: nat, i: nat): (s: Bytes)
    requires IsNonce(nonce) && 16 * i + 16 <= len
  {
    Keystream(CipherOf(rk), nonce, len)[16 * i..16 * i + 16]
  }

  lemma StreamBlockIs(rk: Schedule, nonce: Bytes, len: nat, i: nat)
    requires IsNonce(nonce) && 16 * i + 16 <= len
    ensures StreamBlock(rk, nonce, len, i) == CipherOf(rk)(CounterBlock(nonce, i + 1))
  {
    hide Keystream, Cipher, CounterBlock;
    KeystreamBlock(CipherOf(rk), nonce, len, i + 1, 16);
    var b := CipherOf(rk)(CounterBlock(nonce, i + 1));
    assert b[..16] == b;
  }

  /** Under one key two keystream blocks of any two messages are equal only if they are the
      same block of the same nonce, and none is the block that masks a tag. */
  lemma NoStreamBlockTwice(rk: Schedule, n: Bytes, m: Bytes, len: nat, wid: nat, i: nat, j: nat)
    requires IsNonce(n) && IsNonce(m) && 16 * i + 16 <= len && 16 * j + 16 <= wid
    requires len < Pow256(15 - |n|) && wid < Pow256(15 - |m|)
    ensures StreamBlock(rk, n, len, i) == StreamBlock(rk, m, wid, j) <==> n == m && i == j
    ensures StreamBlock(rk, n, len, i) != CipherOf(rk)(CounterBlock(m, 0))
  {
    hide StreamBlock, Keystream, Cipher, CounterBlock, CipherOf;
    StreamBlockIs(rk, n, len, i);
    StreamBlockIs(rk, m, wid, j);
    CountersInRange(n, len, 16 * i);
    CountersInRange(m, wid, 16 * j);
    CounterBlocksTellApart(n, m, i + 1, j + 1);
    CounterBlocksTellApart(n, m, i + 1, 0);
    CipherTellsApart(rk, CounterBlock(n, i + 1), CounterBlock(m, j + 1));
    CipherTellsApart(rk, CounterBlock(n, i + 1), CounterBlock(m, 0));
  }

  /** The tag is the authentication field under that mask. */
  lemma TagUnmasked(E: BlockCipher, nonce: Bytes, aad: Bytes, data: Bytes, tagLen: nat)
    requires IsNonce(nonce) && 4 <= tagLen <= 16
    ensures XorBytes(Tag(E, nonce, aad, data, tagLen), E(CounterBlock(nonce, 0))[..tagLen])
         == CbcMac(E, MacInput(nonce, aad, data, tagLen))[..tagLen]
  {
    hide CbcMac, MacInput, CounterBlock;
    XorBytesTwice(CbcMac(E, MacInput(nonce, aad, data, tagLen))[..tagLen], E(CounterBlock(nonce, 0))[..tagLen]);
  }

  lemma LastBlock(E: BlockCipher, s: Bytes, b: Block)
    requires |s| % 16 == 0
    ensures (|s| + 16) % 16 == 0
    ensures CbcMac(E, s + b) == if s == [] then E(b) else E(XorBytes(CbcMac(E, s), b))
  {
    var t := s + b;
    if s == [] {
      assert t == b;
    } else {
      assert t[..|t| - 16] == s && t[|t| - 16..] == b;
    }
  }

  lemma XorTellsApart(a: Block, b: Block, c: Block, d: Block)
    requires (a == c) != (b == d)
    ensures XorBytes(a, b) != XorBytes(c, d)
  {
    hide Xor;
    XorBytesTwice(a, b);
    XorBytesTwice(c, d);
    XorBytesTwice(b, a);
    XorBytesTwice(d, c);
    XorSwapped(a, b);
    XorSwapped(c, d);
  }

  lemma XorSwapped(a: Block, b: Block)
    ensures XorBytes(a, b) == XorBytes(b, a)
  {
    forall i | 0 <= i < 16
      ensures XorBytes(a, b)[i] == XorBytes(b, a)[i]
    {
      Comm(a[i], b[i]);
    }
  }

  /** The CBC-MAC notices any change of one block, whatever comes before and after it. */
  lemma {:induction false} MacNoticesOneBlock(rk: Schedule, before: Bytes, x: Block, y: Block, after: Bytes)
    requires |before| % 16 == 0 && |after| % 16 == 0 && x != y
    ensures (|before| + 16 + |after|) % 16 == 0
    ensures CbcMac(CipherOf(rk), before + x + after) != CbcMac(CipherOf(rk), before + y + after)
    decreases |after|
  {
    hide CbcMac, CipherOf, XorBytes;
    var E := CipherOf(rk);
    if after == [] {
      assert before + x + after == before + x && before + y + after == before + y;
      LastBlock(E, before, x);
      LastBlock(E, before, y);
      if before == [] {
        CipherTellsApart(rk, x, y);
      } else {
        StepTellsApart(rk, CbcMac(E, before), x, CbcMac(E, before), y);
      }
    } else {
      var n := |after| - 16;
      var a, b, last := before + x + after[..n], before + y + after[..n], after[n..];
      MacNoticesOneBlock(rk, before, x, y, after[..n]);
      assert before + x + after == a + last && before + y + after == b + last;
      LastBlock(E, a, last);
      LastBlock(E, b, last);
      StepTellsApart(rk, CbcMac(E, a), last, CbcMac(E, b), last);
    }
  }

  lemma StepTellsApart(rk: Schedule, a: Block, b: Block, c: Block, d: Block)
    requires (a == c) != (b == d)
    ensures CipherOf(rk)(XorBytes(a, b)) != CipherOf(rk)(XorBytes(c, d))
  {
    hide CipherOf, XorBytes;
    XorTellsApart(a, b, c, d);
    CipherTellsApart(rk, XorBytes(a, b), XorBytes(c, d));
  }
}
