/** Bytes and byte strings. A byte is wrapped, so that the proofs about buffers and
    ciphers are equational: its bits are looked at only where a law of the exclusive
    or, a table or a codec is established. */
module ByteStrings {

  datatype Byte = Byte(v: bv8)

  type Bytes = seq<Byte>

  const ZERO := Byte(0)

  function Xor(a: Byte, b: Byte): Byte
  {
    Byte(a.v ^ b.v)
  }

  lemma Comm(a: Byte, b: Byte)
    ensures Xor(a, b) == Xor(b, a)
  {}

  lemma Assoc(a: Byte, b: Byte, c: Byte)
    ensures Xor(a, Xor(b, c)) == Xor(Xor(a, b), c)
  {}

  lemma Cancel(a: Byte, b: Byte)
    ensures Xor(Xor(a, b), b) == a && Xor(b, Xor(b, a)) == a
  {}

  lemma XorZero(a: Byte)
    ensures Xor(ZERO, a) == a && Xor(a, ZERO) == a
  {}

  /** Bytewise exclusive or. */
  ghost function XorBytes(a: Bytes, b: Bytes): (x: Bytes)
    requires |a| == |b|
    ensures |x| == |a|
  {
    seq(|a|, i requires 0 <= i < |a| => Xor(a[i], b[i]))
  }

  lemma XorBytesTwice(a: Bytes, b: Bytes)
    requires |a| == |b|
    ensures XorBytes(XorBytes(a, b), b) == a
  {
    forall i | 0 <= i < |a|
      ensures XorBytes(XorBytes(a, b), b)[i] == a[i]
    {
      Cancel(a[i], b[i]);
    }
  }

  ghost function Zeros(n: nat): (z: Bytes)
    ensures |z| == n
  {
    seq(n, i => ZERO)
  }

  // ---- Bytes as numbers --------------------------------------------------------

  function ToNat(b: Byte): (n: nat)
    ensures n < 256
  {
    b.v as nat
  }

  function Nibble(n: nat): (h: bv8)
    requires n < 16
    ensures h < 16 && h as nat == n
  {
    n as bv8
  }

  lemma JoinNibbles(h: bv8, l: bv8)
    requires h < 16 && l < 16
    ensures ((h << 4) + l) as nat == 16 * (h as nat) + l as nat
  {}

  /** A byte from its value, by nibbles. */
  function ToByte(n: nat): (b: Byte)
    requires n < 256
    ensures ToNat(b) == n
  {
    hide Nibble;
    JoinNibbles(Nibble(n / 16), Nibble(n % 16));
    Byte((Nibble(n / 16) << 4) + Nibble(n % 16))
  }

  lemma SameNat(a: Byte, b: Byte)
    requires ToNat(a) == ToNat(b)
    ensures a == b
  {}

  function Pow256(k: nat): (p: nat)
    ensures p > 0
  {
    if k == 0 then 1 else 256 * Pow256(k - 1)
  }

  /** Octet `k` of `n`, counting from the least significant: a shift by 8k bits,
      cast to a byte. */
  function Octet(n: nat, k: nat): (b: Byte)
    decreases k
  {
    if k == 0 then ToByte(n % 256) else Octet(n / 256, k - 1)
  }

  /** `n` in `l` octets, most significant first. */
  ghost function BigEndian(n: nat, l: nat): (s: Bytes)
    ensures |s| == l
  {
    seq(l, i requires 0 <= i < l => Octet(n, l - 1 - i))
  }
}
