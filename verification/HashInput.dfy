/** What SHA-256 is taken over (lib/ff_core/sha256.cpp): the padded message is as short as
    section 5.1.1 of FIPS 180-4 allows, and no two messages are padded alike. */
module HashInput {
  import opened ByteStrings
  import opened Sha256
  import CcmBinding

  /** The least whole number of blocks that holds the message, one more byte and the length. */
  lemma PadIsShortest(message: Bytes, bits: nat)
    ensures var n := |Pad(message, bits)|;
            n % 64 == 0 && |message| + 9 <= n < |message| + 73
  {}

  lemma EightOctets()
    ensures Pow256(8) == TWO64
  {
    assert Pow256(4) == 0x1_0000_0000;
    assert Pow256(6) == 0x1_0000_0000_0000;
  }

  /** The length at the end and the bit in front of the zeros tell where the message ends. */
  lemma PadTellsApart(a: Bytes, b: Bytes)
    requires |a| < 0x2000_0000_0000_0000 && |b| < 0x2000_0000_0000_0000
    ensures Pad(a, BitCount(|a|)) == Pad(b, BitCount(|b|)) <==> a == b
  {
    hide BigEndian, ZeroCount;
    var p, q := Pad(a, BitCount(|a|)), Pad(b, BitCount(|b|));
    if p == q {
      assert p[|p| - 8..] == BigEndian(8 * |a|, 8) && q[|q| - 8..] == BigEndian(8 * |b|, 8);
      EightOctets();
      CcmBinding.BigEndianTellsApart(8 * |a|, 8 * |b|, 8);
      assert a == p[..|a|] && b == q[..|b|];
    }
  }

  /** What stands where in the padded message. */
  lemma PadParts(message: Bytes)
    requires |message| < 0x2000_0000_0000_0000
    ensures var p := Pad(message, BitCount(|message|)); var n := |p| - 8;
            && message <= p && |message| < n && p[|message|] == Byte(0x80)
            && (forall i :: |message| < i < n ==> p[i] == ZERO)
            && p[n..] == BigEndian(8 * |message|, 8)
  {
    hide BigEndian, ZeroCount;
  }

  // ---- The blocks in their order --------------------------------------------------------------

  /** Section 6.2 read forwards: each block moves the hash on, the first one first. */
  ghost function Onwards(x: Hash, s: Bytes): (y: Hash)
    requires |s| % 64 == 0
    decreases |s|
  {
    if s == [] then x else Onwards(Compress(x, s[..64]), s[64..])
  }

  lemma {:induction false} OnwardsMore(x: Hash, s: Bytes, b: Bytes)
    requires |s| % 64 == 0 && |b| == 64
    ensures Onwards(x, s + b) == Compress(Onwards(x, s), b)
    decreases |s|
  {
    hide Compress;
    if s == [] {
      assert s + b == b && b[..64] == b && b[64..] == [];
    } else {
      assert (s + b)[..64] == s[..64] && (s + b)[64..] == s[64..] + b;
      OnwardsMore(Compress(x, s[..64]), s[64..], b);
    }
  }

  /** The hash of a message goes over its blocks from the front ... */
  lemma {:induction false} HashIsOnwards(a: Bytes)
    requires |a| % 64 == 0
    ensures HashBlocks(a) == Onwards(InitialHash(), a)
    decreases |a|
  {
    hide Compress, InitialHash, Onwards, HashBlocks;
    NothingOnwards(InitialHash());
    if a != [] {
      var n := |a| - 64;
      HashIsOnwards(a[..n]);
      OnwardsMore(InitialHash(), a[..n], a[n..]);
      HashMore(a[..n], a[n..]);
      assert a[..n] + a[n..] == a;
    }
  }

  /** ... and a message that goes on takes its hash on from there. */
  lemma {:induction false} HashGoesOn(a: Bytes, b: Bytes)
    requires |a| % 64 == 0 && |b| % 64 == 0
    ensures (|a| + |b|) % 64 == 0 && HashBlocks(a + b) == Onwards(HashBlocks(a), b)
    decreases |b|
  {
    hide Compress, InitialHash, Onwards, HashBlocks;
    NothingOnwards(HashBlocks(a));
    if b == [] {
      assert a + b == a;
    } else {
      var n := |b| - 64;
      HashGoesOn(a, b[..n]);
      OnwardsMore(HashBlocks(a), b[..n], b[n..]);
      HashMore(a + b[..n], b[n..]);
      assert a + b[..n] + b[n..] == a + b && b[..n] + b[n..] == b;
    }
  }

  lemma NothingOnwards(x: Hash)
    ensures Onwards(x, []) == x && HashBlocks([]) == InitialHash()
  {}

  // ---- The functions of a round ------------------------------------------------------------------

  /** Ch takes each bit from the second word where the first one has a 1, else from the third. */
  lemma Chooses(x: Word, y: Word, z: Word)
    ensures Ch(x, y, z).v & x.v == y.v & x.v && Ch(x, y, z).v & !x.v == z.v & !x.v
  {}

  /** Maj takes what two of the words agree on. */
  lemma AgreesWithTwo(x: Word, y: Word)
    ensures Maj(x, x, y) == Maj(x, y, x) == Maj(y, x, x) == x
  {}

  /** The other four carry the highest bit to the places of section 4.1.2; where they shift
      instead of rotating, the lowest one is lost on the way. */
  lemma SigmasCarry()
    ensures BigSigma0(Word(0x8000_0000)) == Word(0x2004_0200) && BigSigma1(Word(0x8000_0000)) == Word(0x0210_0040)
    ensures Sigma0(Word(0x8000_0000)) == Word(0x1100_2000) && Sigma1(Word(0x8000_0000)) == Word(0x0020_5000)
    ensures Sigma0(Word(1)) == Word(0x0200_4000) && Sigma1(Word(1)) == Word(0x0000_a000)
  {}
}
