/** AES-CCM as lib/ff_core/ccm.cpp runs it: a streaming CBC-MAC and an in-place
    counter mode, proved against RFC 3610 written over whole messages. */
module Ccm {
  import opened ByteStrings
  import opened Aes

  // ---- RFC 3610: octet strings --------------------------------------------------

  ghost function Pad16(s: Bytes): (p: Bytes)
    ensures |p| % 16 == 0
  {
    s + Zeros((16 - |s| % 16) % 16)
  }

  // ---- RFC 3610 -------------------------------------------------------------------

  type BlockCipher = Block -> Block

  ghost predicate IsNonce(nonce: Bytes)
  {
    11 <= |nonce| <= 13
  }

  /** The flags octet of section 2.2: Adata, M' and L'. */
  ghost function FlagsOfFirstBlock(l: nat, aadLen: nat, tagLen: nat): (flags: nat)
    requires 2 <= l <= 4 && 4 <= tagLen <= 16
    ensures l - 1 < flags < 256
  {
    (if aadLen > 0 then 64 else 0) + 8 * ((tagLen - 2) / 2) + (l - 1)
  }

  /** B_0 of section 2.2. */
  ghost function FirstBlock(nonce: Bytes, aadLen: nat, dataLen: nat, tagLen: nat): (b: Block)
    requires IsNonce(nonce) && 4 <= tagLen <= 16
  {
    var l := 15 - |nonce|;
    [Octet(FlagsOfFirstBlock(l, aadLen, tagLen), 0)] + nonce + BigEndian(dataLen, l)
  }

  /** The associated data, its length in front, filled up to whole blocks. */
  ghost function AadBlocks(aad: Bytes): (s: Bytes)
    ensures |s| % 16 == 0
  {
    if |aad| > 0 then Pad16(BigEndian(|aad|, 2) + aad) else []
  }

  lemma SumOfBlocks(m: nat, n: nat)
    requires m % 16 == 0 && n % 16 == 0
    ensures (m + n) % 16 == 0
  {}

  /** B_0 B_1 ... of section 2.2: the blocks the authentication field covers. */
  ghost function MacInput(nonce: Bytes, aad: Bytes, data: Bytes, tagLen: nat): (s: Bytes)
    requires IsNonce(nonce) && 4 <= tagLen <= 16
    ensures |s| >= 16 && |s| % 16 == 0
  {
    hide FirstBlock, AadBlocks, Pad16;
    var b0, covered, text := FirstBlock(nonce, |aad|, |data|, tagLen), AadBlocks(aad), Pad16(data);
    SumOfBlocks(|covered|, |text|);
    SumOfBlocks(|b0|, |covered| + |text|);
    b0 + (covered + text)
  }

  /** X_1 = E(B_0) and X_(i+1) = E(X_i xor B_i). */
  ghost function CbcMac(E: BlockCipher, s: Bytes): (x: Block)
    requires |s| >= 16 && |s| % 16 == 0
  {
    if |s| == 16 then E(s)
    else E(XorBytes(CbcMac(E, s[..|s| - 16]), s[|s| - 16..]))
  }

  /** A_i of section 2.3. */
  ghost function CounterBlock(nonce: Bytes, i: nat): (b: Block)
    requires IsNonce(nonce)
  {
    var l := 15 - |nonce|;
    [Octet(l - 1, 0)] + nonce + BigEndian(i, l)
  }

  /** The first `n` octets of the concatenation of S_1, S_2, ... */
  ghost function Keystream(E: BlockCipher, nonce: Bytes, n: nat): (s: Bytes)
    requires IsNonce(nonce)
    ensures |s| == n
  {
    seq(n, k requires 0 <= k < n => E(CounterBlock(nonce, k / 16 + 1))[k % 16])
  }

  ghost function Tag(E: BlockCipher, nonce: Bytes, aad: Bytes, data: Bytes, tagLen: nat): (t: Bytes)
    requires IsNonce(nonce) && 4 <= tagLen <= 16
    ensures |t| == tagLen
  {
    XorBytes(CbcMac(E, MacInput(nonce, aad, data, tagLen))[..tagLen], E(CounterBlock(nonce, 0))[..tagLen])
  }

  datatype Sealed = Sealed(ciphertext: Bytes, tag: Bytes)

  ghost function Seal(E: BlockCipher, nonce: Bytes, aad: Bytes, data: Bytes, tagLen: nat): (s: Sealed)
    requires IsNonce(nonce) && 4 <= tagLen <= 16
  {
    Sealed(XorBytes(data, Keystream(E, nonce, |data|)), Tag(E, nonce, aad, data, tagLen))
  }

  datatype Opened = Accepted(data: Bytes) | Rejected

  /** Section 2.6: decrypt, recompute, compare. */
  ghost function Open(E: BlockCipher, nonce: Bytes, aad: Bytes, s: Sealed): (o: Opened)
    requires IsNonce(nonce) && 4 <= |s.tag| <= 16
  {
    var data := XorBytes(s.ciphertext, Keystream(E, nonce, |s.ciphertext|));
    if Tag(E, nonce, aad, data, |s.tag|) == s.tag then Accepted(data) else Rejected
  }

  /** A sealed message is accepted as `data` exactly when it is the seal of `data`. */
  lemma OpenInvertsSeal(E: BlockCipher, nonce: Bytes, aad: Bytes, s: Sealed, data: Bytes)
    requires IsNonce(nonce) && 4 <= |s.tag| <= 16
    ensures Open(E, nonce, aad, s) == Accepted(data) <==> Seal(E, nonce, aad, data, |s.tag|) == s
  {
    if |data| == |s.ciphertext| {
      XorBytesTwice(data, Keystream(E, nonce, |data|));
      XorBytesTwice(s.ciphertext, Keystream(E, nonce, |s.ciphertext|));
    }
  }

  // ---- Every block put through the cipher for one message is used once --------------

  ghost function Value(s: Bytes): (n: nat)
  {
    if |s| == 0 then 0 else 256 * Value(s[..|s| - 1]) + ToNat(s[|s| - 1])
  }

  lemma {:induction false} ValueOfBigEndian(n: nat, l: nat)
    requires n < Pow256(l)
    ensures Value(BigEndian(n, l)) == n
  {
    hide ToNat, ToByte;
    if l > 0 {
      var s := BigEndian(n, l);
      forall i | 0 <= i < l - 1
        ensures s[i] == BigEndian(n / 256, l - 1)[i]
      {
        assert Octet(n, l - 1 - i) == Octet(n / 256, l - 2 - i);
      }
      assert s[..l - 1] == BigEndian(n / 256, l - 1);
      ValueOfBigEndian(n / 256, l - 1);
      assert s[l - 1] == Octet(n, 0);
    }
  }

  lemma SameOctet(m: nat, n: nat)
    requires m < 256 && n < 256 && Octet(m, 0) == Octet(n, 0)
    ensures m == n
  {
    hide ToNat, ToByte;
    assert ToNat(Octet(m, 0)) == m && ToNat(Octet(n, 0)) == n;
  }

  /** Counter blocks are distinct from each other and from B_0. */
  lemma BlocksAreDistinct(nonce: Bytes, i: nat, j: nat, aadLen: nat, dataLen: nat, tagLen: nat)
    requires IsNonce(nonce) && 4 <= tagLen <= 16
    requires i < Pow256(15 - |nonce|) && j < Pow256(15 - |nonce|)
    ensures CounterBlock(nonce, i) == CounterBlock(nonce, j) <==> i == j
    ensures CounterBlock(nonce, i) != FirstBlock(nonce, aadLen, dataLen, tagLen)
  {
    hide Octet;
    var l := 15 - |nonce|;
    ValueOfBigEndian(i, l);
    ValueOfBigEndian(j, l);
    assert CounterBlock(nonce, i)[16 - l..] == BigEndian(i, l);
    assert CounterBlock(nonce, j)[16 - l..] == BigEndian(j, l);
    var flags := FlagsOfFirstBlock(l, aadLen, tagLen);
    assert Octet(flags, 0) != Octet(l - 1, 0) by {
      if Octet(flags, 0) == Octet(l - 1, 0) {
        SameOctet(flags, l - 1);
      }
    }
    assert CounterBlock(nonce, i)[0] == Octet(l - 1, 0);
    assert FirstBlock(nonce, aadLen, dataLen, tagLen)[0] == Octet(flags, 0);
  }

  /** The counter values one message uses stay below the wrap of the counter field. */
  lemma CountersInRange(nonce: Bytes, dataLen: nat, k: nat)
    requires IsNonce(nonce)
    requires dataLen < Pow256(15 - |nonce|) && k < dataLen
    ensures k / 16 + 1 < Pow256(15 - |nonce|)
  {
    assert Pow256(15 - |nonce|) >= 256 * 256 by {
      var l := 15 - |nonce|;
      assert Pow256(2) == 256 * Pow256(1) == 256 * 256;
      assert Pow256(3) == 256 * Pow256(2);
      assert Pow256(4) == 256 * Pow256(3);
    }
  }

  // ---- The parameter check -------------------------------------------------------------

  const MAX_AAD_LEN: nat := 0xFF00

  predicate ParamsValid(nonceLen: nat, dataLen: nat, aadLen: nat, tagLen: nat)
  {
    && 7 <= nonceLen <= 13
    && 4 <= tagLen <= 16 && tagLen % 2 == 0
    && aadLen < MAX_AAD_LEN
    && (15 - nonceLen < 8 ==> dataLen < Pow256(15 - nonceLen))
  }

  // ---- The streaming MAC ------------------------------------------------------------------

  /** The chaining value after absorbing whole blocks from a zero state. */
  ghost function Absorbed(E: BlockCipher, s: Bytes): (x: Block)
    requires |s| % 16 == 0
  {
    if s == [] then Zeros(16)
    else E(XorBytes(Absorbed(E, s[..|s| - 16]), s[|s| - 16..]))
  }

  /** The state between bytes: the open block is already added to the chaining value. */
  ghost function Partial(E: BlockCipher, s: Bytes): (x: Block)
  {
    var open := |s| % 16;
    XorBytes(Absorbed(E, s[..|s| - open]), s[|s| - open..] + Zeros(16 - open))
  }

  lemma XorZeros(s: Bytes)
    ensures XorBytes(Zeros(|s|), s) == s
    ensures XorBytes(s, Zeros(|s|)) == s
  {
    forall i | 0 <= i < |s|
      ensures XorBytes(Zeros(|s|), s)[i] == s[i] && XorBytes(s, Zeros(|s|))[i] == s[i]
    {
      XorZero(s[i]);
    }
  }

  lemma PartialOfBlocks(E: BlockCipher, s: Bytes)
    requires |s| % 16 == 0
    ensures Partial(E, s) == Absorbed(E, s)
  {
    assert s[..|s|] == s && s[|s|..] + Zeros(16) == Zeros(16);
    XorZeros(Absorbed(E, s));
  }

  lemma AddByte(c: Block, tail: Bytes, b: Byte)
    requires |tail| < 16
    ensures var x := XorBytes(c, tail + Zeros(16 - |tail|));
            x[|tail| := Xor(x[|tail|], b)] == XorBytes(c, tail + [b] + Zeros(15 - |tail|))
  {
    hide Xor;
    XorZero(c[|tail|]);
  }

  lemma OneMoreInBlock(n: nat)
    ensures (n + 1) % 16 == if n % 16 == 15 then 0 else n % 16 + 1
    ensures n % 16 <= n && (n - n % 16) % 16 == 0
  {}

  /** `Partial` of a string given by its whole blocks and its open one. */
  lemma PartialParts(E: BlockCipher, s: Bytes, whole: Bytes, tail: Bytes)
    requires |whole| % 16 == 0 && |tail| < 16 && s == whole + tail
    ensures Partial(E, s) == XorBytes(Absorbed(E, whole), tail + Zeros(16 - |tail|))
  {
    hide XorBytes, Absorbed, Zeros;
    assert |s| % 16 == |tail|;
    assert s[..|whole|] == whole && s[|whole|..] == tail;
  }

  lemma AbsorbedParts(E: BlockCipher, s: Bytes, whole: Bytes, last: Block)
    requires |whole| % 16 == 0 && s == whole + last
    ensures |s| % 16 == 0 && Absorbed(E, s) == E(XorBytes(Absorbed(E, whole), last))
  {
    hide XorBytes;
    assert s[..|s| - 16] == whole && s[|s| - 16..] == last;
  }

  /** One byte: added in place, and the block is enciphered when it is full. */
  lemma PartialStep(E: BlockCipher, s: Bytes, b: Byte)
    ensures var open := |s| % 16;
            var x := Partial(E, s);
            var y := x[open := Xor(x[open], b)];
            Partial(E, s + [b]) == if open == 15 then E(y) else y
  {
    hide Xor, XorBytes, Absorbed, Partial;
    var open := |s| % 16;
    OneMoreInBlock(|s|);
    var whole, tail := s[..|s| - open], s[|s| - open..];
    assert s == whole + tail;
    assert s + [b] == whole + (tail + [b]);
    PartialParts(E, s, whole, tail);
    AddByte(Absorbed(E, whole), tail, b);
    if open == 15 {
      assert tail + [b] + Zeros(0) == tail + [b];
      AbsorbedParts(E, s + [b], whole, tail + [b]);
      PartialOfBlocks(E, s + [b]);
    } else {
      PartialParts(E, s + [b], whole, tail + [b]);
    }
  }

  lemma PartialFlush(E: BlockCipher, s: Bytes)
    requires |s| % 16 != 0
    ensures Partial(E, Pad16(s)) == E(Partial(E, s))
  {
    hide XorBytes, Absorbed, Partial, Zeros;
    var open := |s| % 16;
    OneMoreInBlock(|s|);
    var whole, tail := s[..|s| - open], s[|s| - open..];
    assert s == whole + tail;
    var last := tail + Zeros(16 - open);
    assert Pad16(s) == whole + last;
    PartialParts(E, s, whole, tail);
    AbsorbedParts(E, Pad16(s), whole, last);
    PartialOfBlocks(E, Pad16(s));
  }

  lemma {:induction false} AbsorbedIsCbcMac(E: BlockCipher, s: Bytes)
    requires |s| >= 16 && |s| % 16 == 0
    ensures Absorbed(E, s) == CbcMac(E, s)
    decreases |s|
  {
    if |s| == 16 {
      assert s[..0] == [] && s[0..] == s;
      XorZeros(s);
    } else {
      AbsorbedIsCbcMac(E, s[..|s| - 16]);
    }
  }

  /** The cipher under an expanded key. */
  ghost function CipherOf(rk: Schedule): BlockCipher
  {
    (b: Block) => Cipher(rk, b)
  }

  class MacState {
    const aes: Aes128
    const x: array<Byte>
    var fill: nat
    ghost var fed: Bytes

    ghost predicate Valid()
      reads this, aes, aes.rk, x
    {
      && aes.rk.Length == 176 && x.Length == 16 && x != aes.rk
      && fill == |fed| % 16
      && x[..] == Partial(CipherOf(aes.Key()), fed)
    }

    constructor (aes: Aes128)
      requires aes.rk.Length == 176
      ensures Valid() && fresh(x) && fed == [] && this.aes == aes
    {
      this.aes := aes;
      x := new Byte[16](i => ZERO);
      fill := 0;
      fed := [];
      new;
      XorZeros(Zeros(16));
      assert x[..] == Zeros(16);
    }

    method Feed(data: Bytes)
      requires Valid()
      modifies this`fill, this`fed, x
      ensures Valid() && fed == old(fed) + data
    {
      hide Cipher, Partial;
      for i := 0 to |data|
        invariant Valid() && fed == old(fed) + data[..i]
      {
        FeedByte(data[i]);
        assert data[..i + 1] == data[..i] + [data[i]];
      }
      assert data[..|data|] == data;
    }

    /** One pass of the feeding loop. */
    method FeedByte(b: Byte)
      requires Valid()
      modifies this`fill, this`fed, x
      ensures Valid() && fed == old(fed) + [b]
    {
      hide Cipher, Partial, Xor;
      PartialStep(CipherOf(aes.Key()), fed, b);
      ghost var before := x[..];
      x[fill] := Xor(x[fill], b);
      assert x[..] == before[fill := Xor(before[fill], b)];
      fill := fill + 1;
      if fill == 16 {
        aes.EncryptBlock(x);
        fill := 0;
      }
      fed := fed + [b];
    }

    method FlushBlock()
      requires Valid()
      modifies this`fill, this`fed, x
      ensures Valid() && fed == Pad16(old(fed))
    {
      hide Cipher, Partial;
      if fill != 0 {
        PartialFlush(CipherOf(aes.Key()), fed);
        aes.EncryptBlock(x);
        fill := 0;
      }
      assert |fed| % 16 == 0 ==> Pad16(fed) == fed;
      fed := Pad16(fed);
    }
  }

  /** What the parameter check lets through. For a nonce of 7 to 10 bytes the length field is
      so wide that the code shifts by 32 bits or more: C++ leaves open what that gives, and so
      does the model. */
  predicate Admitted(nonce: Bytes)
  {
    7 <= |nonce| <= 13
  }

  // ---- Messages -----------------------------------------------------------------------------

  method BuildCtrBlock(nonce: Bytes, counter: nat, out: array<Byte>)
    requires Admitted(nonce) && out.Length == 16
    modifies out
    ensures IsNonce(nonce) ==> out[..] == CounterBlock(nonce, counter)
  {
    hide Octet;
    var l := 15 - |nonce|;
    out[0] := Octet(l - 1, 0);
    for i := 0 to |nonce|
      invariant out[0] == Octet(l - 1, 0)
      invariant forall k :: 0 <= k < i ==> out[1 + k] == nonce[k]
    {
      out[1 + i] := nonce[i];
    }
    for i := 0 to l
      invariant out[0] == Octet(l - 1, 0)
      invariant forall k :: 0 <= k < |nonce| ==> out[1 + k] == nonce[k]
      invariant forall k :: 0 <= k < i && k < 4 ==> out[15 - k] == Octet(counter, k)
    {
      out[15 - i] := *;
      if i < 4 {
        out[15 - i] := Octet(counter, i);
      }
    }
  }

  method BuildFirstBlock(nonce: Bytes, aadLen: nat, dataLen: nat, tagLen: nat) returns (b0: array<Byte>)
    requires Admitted(nonce) && 4 <= tagLen <= 16
    ensures fresh(b0) && b0.Length == 16
    ensures IsNonce(nonce) ==> b0[..] == FirstBlock(nonce, aadLen, dataLen, tagLen)
  {
    hide Octet;
    var l := 15 - |nonce|;
    b0 := new Byte[16](i => ZERO);
    var flags := (if aadLen > 0 then 0x40 else 0x00) + 8 * ((tagLen - 2) / 2) + (l - 1);
    b0[0] := Octet(flags, 0);
    for i := 0 to |nonce|
      invariant b0[0] == Octet(flags, 0)
      invariant forall k :: 0 <= k < i ==> b0[1 + k] == nonce[k]
    {
      b0[1 + i] := nonce[i];
    }
    for i := 0 to l
      invariant b0[0] == Octet(flags, 0)
      invariant forall k :: 0 <= k < |nonce| ==> b0[1 + k] == nonce[k]
      invariant forall k :: 0 <= k < i && k < 4 ==> b0[15 - k] == Octet(dataLen, k)
    {
      b0[15 - i] := *;
      if i < 4 {
        b0[15 - i] := Octet(dataLen, i);
      }
    }
  }

  /** The associated data and its length, filled up to whole blocks. */
  method FeedAad(state: MacState, aad: Bytes)
    requires state.Valid() && |state.fed| % 16 == 0
    modifies state`fill, state`fed, state.x
    ensures state.Valid() && state.fed == old(state.fed) + AadBlocks(aad)
  {
    hide Cipher, Partial, Octet, Pad16;
    if |aad| > 0 {
      state.Feed([Octet(|aad|, 1), Octet(|aad|, 0)]);
      state.Feed(aad);
      AadLength(|aad|);
      assert state.fed == old(state.fed) + (BigEndian(|aad|, 2) + aad);
      state.FlushBlock();
      PadAfterBlocks(old(state.fed), BigEndian(|aad|, 2) + aad);
    }
  }

  lemma AadLength(n: nat)
    ensures BigEndian(n, 2) == [Octet(n, 1), Octet(n, 0)]
  {
    hide Octet;
  }

  method CopyOut(x: array<Byte>) returns (copy: array<Byte>)
    requires x.Length == 16
    ensures fresh(copy) && copy.Length == 16 && copy[..] == x[..]
  {
    copy := new Byte[16](i => ZERO);
    for i := 0 to 16
      invariant forall k :: 0 <= k < i ==> copy[k] == x[k]
    {
      copy[i] := x[i];
    }
  }

  method ComputeMac(aes: Aes128, nonce: Bytes, aad: Bytes, plaintext: Bytes, tagLen: nat)
    returns (mac: array<Byte>)
    requires aes.rk.Length == 176 && Admitted(nonce) && 4 <= tagLen <= 16
    ensures fresh(mac) && mac.Length == 16
    ensures IsNonce(nonce) ==> mac[..] == CbcMac(CipherOf(aes.Key()), MacInput(nonce, aad, plaintext, tagLen))
  {
    hide Cipher, Partial, Octet, Absorbed, CbcMac, Pad16, FirstBlock, AadBlocks, MacInput;
    var b0 := BuildFirstBlock(nonce, |aad|, |plaintext|, tagLen);
    var state := new MacState(aes);
    state.Feed(b0[..]);
    FeedAad(state, aad);
    ghost var front := state.fed;
    SumOfBlocks(16, |AadBlocks(aad)|);
    state.Feed(plaintext);
    PadAfterBlocks(front, plaintext);
    state.FlushBlock();
    mac := CopyOut(state.x);
    if IsNonce(nonce) {
      MacInputInOrder(nonce, aad, plaintext, tagLen);
      ghost var input := MacInput(nonce, aad, plaintext, tagLen);
      assert state.fed == input;
      PartialOfBlocks(CipherOf(aes.Key()), input);
      AbsorbedIsCbcMac(CipherOf(aes.Key()), input);
    }
  }

  lemma MacInputInOrder(nonce: Bytes, aad: Bytes, data: Bytes, tagLen: nat)
    requires IsNonce(nonce) && 4 <= tagLen <= 16
    ensures MacInput(nonce, aad, data, tagLen)
         == (FirstBlock(nonce, |aad|, |data|, tagLen) + AadBlocks(aad)) + Pad16(data)
  {
    hide FirstBlock, AadBlocks, Pad16;
  }

  lemma PadAfterBlocks(head: Bytes, s: Bytes)
    requires |head| % 16 == 0
    ensures Pad16(head + s) == head + Pad16(s)
  {
    assert |head + s| % 16 == |s| % 16;
  }

  /** Replaces `data` by its exclusive or with the keystream, inside `buf`. */
  method CtrCrypt(aes: Aes128, nonce: Bytes, buf: array<Byte>, at: nat, len: nat)
    requires aes.rk.Length == 176 && Admitted(nonce)
    requires at + len <= buf.Length && buf != aes.rk
    modifies buf
    ensures IsNonce(nonce) ==>
              buf[at..at + len] == XorBytes(old(buf[at..at + len]), Keystream(CipherOf(aes.Key()), nonce, len))
    ensures buf[..at] == old(buf[..at]) && buf[at + len..] == old(buf[at + len..])
  {
    hide Cipher, Octet, Xor, XorBytes, CounterBlock, Keystream, Masked;
    ghost var E := CipherOf(aes.Key());
    ghost var was, stream := buf[..], [];
    MaskedByNothing(was, at);
    var ks := new Byte[16](i => ZERO);
    var counter, offset := 1, 0;
    while offset < len
      invariant offset <= len && |stream| == offset
      invariant offset < len ==> offset == 16 * (counter - 1)
      invariant Masked(was, buf[..], at, stream)
      invariant IsNonce(nonce) ==> stream == Keystream(E, nonce, len)[..offset]
    {
      BuildCtrBlock(nonce, counter, ks);
      aes.EncryptBlock(ks);
      var take := if len - offset < 16 then len - offset else 16;
      if IsNonce(nonce) {
        KeystreamBlock(E, nonce, len, counter, take);
        StreamMore(Keystream(E, nonce, len), offset, take);
      }
      ghost var before, more := buf[..], ks[..take];
      XorInto(buf, at + offset, ks, take);
      MaskedMore(was, before, buf[..], at, stream, more);
      stream := stream + more;
      counter, offset := counter + 1, offset + take;
    }
    MaskedIsXor(was, buf[..], at, stream);
    if IsNonce(nonce) {
      assert Keystream(E, nonce, len)[..offset] == Keystream(E, nonce, len);
    }
  }

  lemma StreamMore(s: Bytes, offset: nat, take: nat)
    requires offset + take <= |s|
    ensures s[..offset] + s[offset..offset + take] == s[..offset + take]
  {}

  /** `now` is `was` with the bytes from `at` on added to `stream`. */
  ghost predicate Masked(was: Bytes, now: Bytes, at: nat, stream: Bytes)
  {
    && |now| == |was| && at + |stream| <= |was|
    && (forall k :: at <= k < at + |stream| ==> now[k] == Xor(was[k], stream[k - at]))
    && (forall k :: 0 <= k < |was| && !(at <= k < at + |stream|) ==> now[k] == was[k])
  }

  lemma MaskedByNothing(was: Bytes, at: nat)
    requires at <= |was|
    ensures Masked(was, was, at, [])
  {}

  lemma MaskedIsXor(was: Bytes, now: Bytes, at: nat, stream: Bytes)
    requires Masked(was, now, at, stream)
    ensures |now| == |was| && at + |stream| <= |was|
    ensures now[at..at + |stream|] == XorBytes(was[at..at + |stream|], stream)
    ensures now[..at] == was[..at] && now[at + |stream|..] == was[at + |stream|..]
  {
    hide Xor;
  }

  lemma MaskedMore(was: Bytes, before: Bytes, now: Bytes, at: nat, stream: Bytes, more: Bytes)
    requires Masked(was, before, at, stream) && Masked(before, now, at + |stream|, more)
    ensures Masked(was, now, at, stream + more)
  {
    hide Xor;
  }

  method XorInto(buf: array<Byte>, at: nat, ks: array<Byte>, take: nat)
    requires ks.Length == 16 && ks != buf && take <= 16 && at + take <= buf.Length
    modifies buf
    ensures Masked(old(buf[..]), buf[..], at, ks[..take])
  {
    hide Xor;
    for i := 0 to take
      invariant Masked(old(buf[..]), buf[..], at, ks[..i])
    {
      buf[at + i] := Xor(buf[at + i], ks[i]);
    }
  }

  lemma KeystreamBlock(E: BlockCipher, nonce: Bytes, len: nat, counter: nat, take: nat)
    requires IsNonce(nonce) && 1 <= counter && take <= 16 && 16 * (counter - 1) + take <= len
    ensures Keystream(E, nonce, len)[16 * (counter - 1)..16 * (counter - 1) + take]
         == E(CounterBlock(nonce, counter))[..take]
  {
    hide CounterBlock;
    forall i | 0 <= i < take
      ensures Keystream(E, nonce, len)[16 * (counter - 1) + i] == E(CounterBlock(nonce, counter))[i]
    {
      var k := 16 * (counter - 1) + i;
      assert k / 16 + 1 == counter && k % 16 == i;
    }
  }

  method MaskTag(aes: Aes128, nonce: Bytes, mac: array<Byte>, tagLen: nat)
    requires aes.rk.Length == 176 && Admitted(nonce)
    requires mac.Length == 16 && tagLen <= 16 && mac != aes.rk
    modifies mac
    ensures IsNonce(nonce) ==>
              mac[..tagLen] == XorBytes(old(mac[..tagLen]), CipherOf(aes.Key())(CounterBlock(nonce, 0))[..tagLen])
  {
    hide Cipher, Octet, Xor, CounterBlock;
    var s0 := new Byte[16](i => ZERO);
    BuildCtrBlock(nonce, 0, s0);
    aes.EncryptBlock(s0);
    ghost var block := s0[..];
    for i := 0 to tagLen
      invariant s0[..] == block
      invariant forall k :: 0 <= k < i ==> mac[k] == Xor(old(mac[k]), s0[k])
      invariant forall k :: i <= k < 16 ==> mac[k] == old(mac[k])
    {
      mac[i] := Xor(mac[i], s0[i]);
    }
    assert mac[..tagLen] == XorBytes(old(mac[..tagLen]), block[..tagLen]);
  }

  /** Seals `data` where it lies and writes the tag beside it. */
  method CcmEncrypt(aes: Aes128, nonce: Bytes, aad: Bytes, buf: array<Byte>,
                    at: nat, len: nat, tagAt: nat, tagLen: nat) returns (ok: bool)
    requires aes.rk.Length == 176 && buf != aes.rk
    requires at + len <= tagAt && tagAt + tagLen <= buf.Length
    modifies buf
    ensures ok == ParamsValid(|nonce|, len, |aad|, tagLen)
    ensures !ok ==> buf[..] == old(buf[..])
    ensures ok && IsNonce(nonce) ==>
              Sealed(buf[at..at + len], buf[tagAt..tagAt + tagLen])
              == Seal(CipherOf(aes.Key()), nonce, aad, old(buf[at..at + len]), tagLen)
    ensures forall k :: 0 <= k < buf.Length && !(at <= k < at + len) && !(tagAt <= k < tagAt + tagLen)
                    ==> buf[k] == old(buf[k])
  {
    hide Cipher, Octet, Xor, CounterBlock, CbcMac, MacInput, Keystream, Pow256;
    if !ParamsValid(|nonce|, len, |aad|, tagLen) {
      return false;
    }
    ghost var data := buf[at..at + len];
    var mac := ComputeMac(aes, nonce, aad, buf[at..at + len], tagLen);
    MaskTag(aes, nonce, mac, tagLen);
    assert IsNonce(nonce) ==> mac[..tagLen] == Tag(CipherOf(aes.Key()), nonce, aad, data, tagLen);
    CtrCrypt(aes, nonce, buf, at, len);
    ghost var sealed, tag := buf[at..at + len], mac[..tagLen];
    for i := 0 to tagLen
      invariant mac[..tagLen] == tag
      invariant forall k :: 0 <= k < i ==> buf[tagAt + k] == mac[k]
      invariant buf[at..at + len] == sealed
      invariant forall k :: 0 <= k < buf.Length && !(at <= k < at + len) && !(tagAt <= k < tagAt + tagLen)
                        ==> buf[k] == old(buf[k])
    {
      buf[tagAt + i] := mac[i];
    }
    assert buf[tagAt..tagAt + tagLen] == tag;
    return true;
  }

  lemma DiffIsZero(diff: bv8, a: Byte, b: Byte)
    ensures diff | Xor(a, b).v == 0 <==> diff == 0 && a == b
  {
    assert a.v ^ b.v == 0 <==> a.v == b.v;
  }

  /** Opens in place; on a bad tag the data has been deciphered all the same. */
  method CcmDecrypt(aes: Aes128, nonce: Bytes, aad: Bytes, buf: array<Byte>,
                    at: nat, len: nat, tag: Bytes) returns (ok: bool)
    requires aes.rk.Length == 176 && buf != aes.rk
    requires at + len <= buf.Length
    modifies buf
    ensures !ParamsValid(|nonce|, len, |aad|, |tag|) ==> !ok && buf[..] == old(buf[..])
    ensures ParamsValid(|nonce|, len, |aad|, |tag|) && IsNonce(nonce) ==>
              var outcome := Open(CipherOf(aes.Key()), nonce, aad, Sealed(old(buf[at..at + len]), tag));
              ok == outcome.Accepted? && (ok ==> buf[at..at + len] == outcome.data)
    ensures buf[..at] == old(buf[..at]) && buf[at + len..] == old(buf[at + len..])
  {
    hide Cipher, Octet, Xor, CounterBlock, CbcMac, MacInput, Keystream, Pow256;
    if !ParamsValid(|nonce|, len, |aad|, |tag|) {
      return false;
    }
    CtrCrypt(aes, nonce, buf, at, len);
    ghost var data := buf[at..at + len];
    var mac := ComputeMac(aes, nonce, aad, buf[at..at + len], |tag|);
    MaskTag(aes, nonce, mac, |tag|);
    assert IsNonce(nonce) ==> mac[..|tag|] == Tag(CipherOf(aes.Key()), nonce, aad, data, |tag|);
    ok := SameTag(mac, tag);
  }

  /** The comparison looks at every byte, whatever it finds. */
  method SameTag(mac: array<Byte>, tag: Bytes) returns (same: bool)
    requires |tag| <= mac.Length
    ensures same <==> mac[..|tag|] == tag
  {
    hide Xor;
    var diff: bv8 := 0;
    for i := 0 to |tag|
      invariant diff == 0 <==> mac[..i] == tag[..i]
    {
      DiffIsZero(diff, mac[i], tag[i]);
      diff := diff | Xor(mac[i], tag[i]).v;
      assert mac[..i + 1] == mac[..i] + [mac[i]] && tag[..i + 1] == tag[..i] + [tag[i]];
    }
    assert tag[..|tag|] == tag;
    return diff == 0;
  }
}
