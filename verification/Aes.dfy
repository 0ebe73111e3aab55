/** AES-128 as lib/ff_core/aes.cpp runs it, in place over a 16-byte block, proved
    to be the cipher of FIPS 197 and a permutation of the blocks. */
module Aes {
  import opened ByteStrings
  import opened Galois
  import opened SBox

  type Block = s: Bytes | |s| == 16 witness seq(16, i => ZERO)
  type Schedule = s: Bytes | |s| == 176 witness seq(176, i => ZERO)
  type Word = w: Bytes | |w| == 4 witness seq(4, i => ZERO)

  function SubByte(b: Byte): Byte
  {
    Byte(Sbox(b.v))
  }

  function InvSubByte(b: Byte): Byte
  {
    Byte(InvSbox(b.v))
  }

  lemma SubByteInverse(b: Byte)
    ensures InvSubByte(SubByte(b)) == b
    ensures SubByte(InvSubByte(b)) == b
  {
    InvSboxLeft(b.v);
    InvSboxRight(b.v);
  }

  // ---- FIPS 197: the transformations and their inverses ---------------------------
  // The state element in row r and column c is byte r + 4c of the block.

  ghost function SubBytes(s: Block): (t: Block)
  {
    seq(16, i requires 0 <= i < 16 => SubByte(s[i]))
  }

  ghost function InvSubBytes(s: Block): (t: Block)
  {
    seq(16, i requires 0 <= i < 16 => InvSubByte(s[i]))
  }

  /** Row r rotates left by r. */
  ghost function ShiftRows(s: Block): (t: Block)
  {
    seq(16, i requires 0 <= i < 16 => s[(i + 4 * (i % 4)) % 16])
  }

  /** Row r rotates right by r. */
  ghost function InvShiftRows(s: Block): (t: Block)
  {
    seq(16, i requires 0 <= i < 16 => s[(i + 12 * (i % 4)) % 16])
  }

  /** Rows are counted around: row 4 is row 0 again. */
  function Row(n: nat): (r: nat)
    requires n < 8
    ensures r < 4
  {
    if n < 4 then n else n - 4
  }

  /** Byte `i` of a block stands in row `i % 4`; `k` rows further down its column. */
  function Down(i: nat, k: nat): (j: nat)
    requires i < 16 && k < 4
    ensures j < 16
  {
    4 * (i / 4) + Row(i % 4 + k)
  }

  /** The column that byte `i` stands in, read downwards (and around) from it. */
  ghost function ColumnFrom(s: Block, i: nat): Column
    requires i < 16
  {
    Column(s[i], s[Down(i, 1)], s[Down(i, 2)], s[Down(i, 3)])
  }

  ghost function MixColumns(s: Block): (t: Block)
  {
    seq(16, i requires 0 <= i < 16 => FipsMix(ColumnFrom(s, i)))
  }

  ghost function InvMixColumns(s: Block): (t: Block)
  {
    seq(16, i requires 0 <= i < 16 => FipsInvMix(ColumnFrom(s, i)))
  }

  ghost function RoundKey(rk: Schedule, round: nat): (k: Block)
    requires round <= 10
  {
    rk[16 * round..16 * round + 16]
  }

  // ---- FIPS 197: the cipher (section 5.1) and its inverse (section 5.3) ------------

  /** A round before its key is added; the last one does not mix columns. */
  ghost function Scramble(round: nat, s: Block): (t: Block)
  {
    var t := ShiftRows(SubBytes(s));
    if round == 10 then t else MixColumns(t)
  }

  /** The state after the first key addition and `n` rounds. */
  ghost function Rounds(rk: Schedule, input: Block, n: nat): (t: Block)
    requires n <= 10
  {
    if n == 0 then XorBytes(input, RoundKey(rk, 0))
    else XorBytes(Scramble(n, Rounds(rk, input, n - 1)), RoundKey(rk, n))
  }

  ghost function Cipher(rk: Schedule, input: Block): (output: Block)
  {
    Rounds(rk, input, 10)
  }

  ghost function Unscramble(round: nat, s: Block): (t: Block)
  {
    InvSubBytes(InvShiftRows(if round == 10 then s else InvMixColumns(s)))
  }

  /** Undoes `n` rounds and the first key addition. */
  ghost function InvRounds(rk: Schedule, s: Block, n: nat): (t: Block)
    requires n <= 10
    decreases n
  {
    if n == 0 then XorBytes(s, RoundKey(rk, 0))
    else InvRounds(rk, Unscramble(n, XorBytes(s, RoundKey(rk, n))), n - 1)
  }

  ghost function InvCipher(rk: Schedule, output: Block): (input: Block)
  {
    InvRounds(rk, output, 10)
  }

  // ---- FIPS 197: key expansion (section 5.2) ------------------------------------------

  ghost function RotWord(w: Word): Word
  {
    [w[1], w[2], w[3], w[0]]
  }

  ghost function SubWord(w: Word): Word
  {
    [SubByte(w[0]), SubByte(w[1]), SubByte(w[2]), SubByte(w[3])]
  }

  /** The power x^(j-1) of the field. */
  function RconByte(j: nat): Byte
  {
    if j <= 1 then Byte(0x01) else Times(0x02, RconByte(j - 1))
  }

  /** What word `i` adds to the word four before it. */
  ghost function Core(previous: Word, i: nat): (t: Word)
  {
    if i % 4 == 0 then XorBytes(SubWord(RotWord(previous)), [RconByte(i / 4), ZERO, ZERO, ZERO]) else previous
  }

  ghost function KeyWord(key: Block, i: nat): (w: Word)
  {
    if i < 4 then key[4 * i..4 * i + 4]
    else XorBytes(KeyWord(key, i - 4), Core(KeyWord(key, i - 1), i))
  }

  lemma KeyWordStep(key: Block, i: nat)
    ensures KeyWord(key, i) == if i < 4 then key[4 * i..4 * i + 4]
                               else XorBytes(KeyWord(key, i - 4), Core(KeyWord(key, i - 1), i))
  {}

  ghost function KeySchedule(key: Block): (rk: Schedule)
  {
    seq(176, k requires 0 <= k < 176 => KeyWord(key, k / 4)[k % 4])
  }

  // ---- Invertibility --------------------------------------------------------------------

  lemma SubBytesInverse(s: Block)
    ensures InvSubBytes(SubBytes(s)) == s
    ensures SubBytes(InvSubBytes(s)) == s
  {
    forall i | 0 <= i < 16
      ensures InvSubBytes(SubBytes(s))[i] == s[i] && SubBytes(InvSubBytes(s))[i] == s[i]
    {
      SubByteInverse(s[i]);
    }
  }

  ghost predicate SameBytes(s: Block, t: Block)
  {
    && s[0] == t[0] && s[1] == t[1] && s[2] == t[2] && s[3] == t[3]
    && s[4] == t[4] && s[5] == t[5] && s[6] == t[6] && s[7] == t[7]
    && s[8] == t[8] && s[9] == t[9] && s[10] == t[10] && s[11] == t[11]
    && s[12] == t[12] && s[13] == t[13] && s[14] == t[14] && s[15] == t[15]
  }

  lemma SameBytesIsEqual(s: Block, t: Block)
    requires SameBytes(s, t)
    ensures s == t
  {}

  lemma ShiftRowsTable(s: Block)
    ensures ShiftRows(s)[0] == s[0] && ShiftRows(s)[1] == s[5] && ShiftRows(s)[2] == s[10] && ShiftRows(s)[3] == s[15] &&
            ShiftRows(s)[4] == s[4] && ShiftRows(s)[5] == s[9] && ShiftRows(s)[6] == s[14] && ShiftRows(s)[7] == s[3] &&
            ShiftRows(s)[8] == s[8] && ShiftRows(s)[9] == s[13] && ShiftRows(s)[10] == s[2] && ShiftRows(s)[11] == s[7] &&
            ShiftRows(s)[12] == s[12] && ShiftRows(s)[13] == s[1] && ShiftRows(s)[14] == s[6] && ShiftRows(s)[15] == s[11]
  {}

  lemma InvShiftRowsTable(s: Block)
    ensures InvShiftRows(s)[0] == s[0] && InvShiftRows(s)[1] == s[13] && InvShiftRows(s)[2] == s[10] && InvShiftRows(s)[3] == s[7] &&
            InvShiftRows(s)[4] == s[4] && InvShiftRows(s)[5] == s[1] && InvShiftRows(s)[6] == s[14] && InvShiftRows(s)[7] == s[11] &&
            InvShiftRows(s)[8] == s[8] && InvShiftRows(s)[9] == s[5] && InvShiftRows(s)[10] == s[2] && InvShiftRows(s)[11] == s[15] &&
            InvShiftRows(s)[12] == s[12] && InvShiftRows(s)[13] == s[9] && InvShiftRows(s)[14] == s[6] && InvShiftRows(s)[15] == s[3]
  {}

  lemma ShiftRowsInverse(s: Block)
    ensures InvShiftRows(ShiftRows(s)) == s
    ensures ShiftRows(InvShiftRows(s)) == s
  {
    ShiftRowsTable(s);
    InvShiftRowsTable(ShiftRows(s));
    InvShiftRowsTable(s);
    ShiftRowsTable(InvShiftRows(s));
    SameBytesIsEqual(InvShiftRows(ShiftRows(s)), s);
    SameBytesIsEqual(ShiftRows(InvShiftRows(s)), s);
  }

  lemma DownDown(i: nat, k: nat, m: nat)
    requires i < 16 && k < 4 && m < 4
    ensures Down(Down(i, k), m) == Down(i, Row(k + m))
  {
    var c, r := i / 4, i % 4;
    assert i == 4 * c + r;
    var down := Row(r + k);
    assert (4 * c + down) / 4 == c && (4 * c + down) % 4 == down;
  }

  lemma ColumnFromDown(s: Block, i: nat)
    requires i < 16
    ensures ColumnFrom(s, Down(i, 1)) == ColumnFrom(s, i).Rotate()
    ensures ColumnFrom(s, Down(i, 2)) == ColumnFrom(s, i).Rotate().Rotate()
    ensures ColumnFrom(s, Down(i, 3)) == ColumnFrom(s, i).Rotate().Rotate().Rotate()
  {
    hide Down;
    forall k | 1 <= k < 4
      ensures Down(Down(i, k), 1) == Down(i, Row(k + 1))
      ensures Down(Down(i, k), 2) == Down(i, Row(k + 2))
      ensures Down(Down(i, k), 3) == Down(i, Row(k + 3))
    {
      DownDown(i, k, 1);
      DownDown(i, k, 2);
      DownDown(i, k, 3);
    }
    assert Down(i, 0) == i by {
      DownZero(i);
    }
  }

  lemma DownZero(i: nat)
    requires i < 16
    ensures Down(i, 0) == i
  {}

  lemma TrickIsFipsMixAllRound(c: Column)
    ensures Mix(c) == Column(FipsMix(c), FipsMix(c.Rotate()), FipsMix(c.Rotate().Rotate()),
                             FipsMix(c.Rotate().Rotate().Rotate()))
  {
    TrickIsFipsMix(c);
    TrickIsFipsMix(c.Rotate());
    TrickIsFipsMix(c.Rotate().Rotate());
    TrickIsFipsMix(c.Rotate().Rotate().Rotate());
  }

  lemma ColumnFromMix(s: Block, i: nat)
    requires i < 16
    ensures ColumnFrom(MixColumns(s), i) == Mix(ColumnFrom(s, i))
    ensures ColumnFrom(InvMixColumns(s), i) == InvMix(ColumnFrom(s, i))
  {
    ColumnFromDown(s, i);
    TrickIsFipsMixAllRound(ColumnFrom(s, i));
  }

  lemma MixColumnsInverse(s: Block)
    ensures InvMixColumns(MixColumns(s)) == s
    ensures MixColumns(InvMixColumns(s)) == s
  {
    forall i | 0 <= i < 16
      ensures InvMixColumns(MixColumns(s))[i] == s[i] && MixColumns(InvMixColumns(s))[i] == s[i]
    {
      var c := ColumnFrom(s, i);
      ColumnFromMix(s, i);
      MixInverse(c);
      TrickIsFipsMix(InvMix(c));
      assert InvMix(Mix(c)).a0 == c.a0 && Mix(InvMix(c)).a0 == c.a0;
    }
  }

  lemma ScrambleInverse(round: nat, s: Block)
    ensures Unscramble(round, Scramble(round, s)) == s
    ensures Scramble(round, Unscramble(round, s)) == s
  {
    MixColumnsInverse(ShiftRows(SubBytes(s)));
    MixColumnsInverse(s);
    ShiftRowsInverse(SubBytes(s));
    ShiftRowsInverse(if round == 10 then s else InvMixColumns(s));
    SubBytesInverse(s);
    SubBytesInverse(InvShiftRows(if round == 10 then s else InvMixColumns(s)));
  }

  lemma UndoRound(rk: Schedule, t: Block, n: nat)
    requires 1 <= n <= 10
    ensures Unscramble(n, XorBytes(XorBytes(Scramble(n, t), RoundKey(rk, n)), RoundKey(rk, n))) == t
  {
    XorBytesTwice(Scramble(n, t), RoundKey(rk, n));
    ScrambleInverse(n, t);
  }

  lemma {:induction false} InvRoundsOfRounds(rk: Schedule, s: Block, n: nat)
    requires n <= 10
    ensures InvRounds(rk, Rounds(rk, s, n), n) == s
    decreases n
  {
    hide Scramble, Unscramble, XorBytes, RoundKey;
    if n == 0 {
      XorBytesTwice(s, RoundKey(rk, 0));
    } else {
      UndoRound(rk, Rounds(rk, s, n - 1), n);
      InvRoundsOfRounds(rk, s, n - 1);
    }
  }

  lemma RedoRound(rk: Schedule, s: Block, n: nat)
    requires 1 <= n <= 10
    ensures XorBytes(Scramble(n, Unscramble(n, XorBytes(s, RoundKey(rk, n)))), RoundKey(rk, n)) == s
  {
    ScrambleInverse(n, XorBytes(s, RoundKey(rk, n)));
    XorBytesTwice(s, RoundKey(rk, n));
  }

  lemma {:induction false} RoundsOfInvRounds(rk: Schedule, s: Block, n: nat)
    requires n <= 10
    ensures Rounds(rk, InvRounds(rk, s, n), n) == s
    decreases n
  {
    hide Scramble, Unscramble, XorBytes, RoundKey;
    if n == 0 {
      XorBytesTwice(s, RoundKey(rk, 0));
    } else {
      RoundsOfInvRounds(rk, Unscramble(n, XorBytes(s, RoundKey(rk, n))), n - 1);
      RedoRound(rk, s, n);
    }
  }

  /** For every key the cipher is a permutation of the blocks, and the inverse
      cipher of section 5.3 is its inverse. */
  lemma CipherIsPermutation(rk: Schedule, s: Block)
    ensures InvCipher(rk, Cipher(rk, s)) == s
    ensures Cipher(rk, InvCipher(rk, s)) == s
  {
    InvRoundsOfRounds(rk, s, 10);
    RoundsOfInvRounds(rk, s, 10);
  }

  // ---- The code ----------------------------------------------------------------------------

  /** What the code stores in place of a column. */
  function Stored(c: Column): Column
  {
    var all := Xor(Xor(Xor(c.a0, c.a1), c.a2), c.a3);
    Column(Xor(c.a0, Xor(all, Dbl(Xor(c.a0, c.a1)))),
           Xor(c.a1, Xor(all, Dbl(Xor(c.a1, c.a2)))),
           Xor(c.a2, Xor(all, Dbl(Xor(c.a2, c.a3)))),
           Xor(c.a3, Xor(all, Dbl(Xor(c.a3, c.a0)))))
  }

  lemma StoredIsMix(c: Column)
    ensures Stored(c) == Mix(c)
  {
    hide Dbl, Xor;
    Assoc(Xor(c.a0, c.a1), c.a2, c.a3);
    RotateSum(c);
    RotateSum(c.Rotate());
    RotateSum(c.Rotate().Rotate());
  }

  lemma ColumnAt(s: Block, c: nat)
    requires c < 4
    ensures ColumnFrom(s, 4 * c) == Column(s[4 * c], s[4 * c + 1], s[4 * c + 2], s[4 * c + 3])
  {}

  /** The four bytes the code stores for a column are the matrix product. */
  lemma StoredColumn(s: Block, c: nat)
    requires c < 4
    ensures Column(MixColumns(s)[4 * c], MixColumns(s)[4 * c + 1], MixColumns(s)[4 * c + 2], MixColumns(s)[4 * c + 3])
            == Stored(Column(s[4 * c], s[4 * c + 1], s[4 * c + 2], s[4 * c + 3]))
  {
    hide Stored, Mix, MixColumns, ColumnFrom;
    ColumnAt(s, c);
    ColumnAt(MixColumns(s), c);
    ColumnFromMix(s, 4 * c);
    StoredIsMix(ColumnFrom(s, 4 * c));
  }

  /** The round constants of the code's table. */
  function Rcon(j: nat): Byte
    requires 1 <= j <= 10
  {
    Byte([0x01, 0x02, 0x04, 0x08, 0x10, 0x20, 0x40, 0x80, 0x1b, 0x36][j - 1])
  }

  lemma RconIsFips(j: nat)
    requires 1 <= j <= 10
    ensures Rcon(j) == RconByte(j)
  {
    if j > 1 {
      RconIsFips(j - 1);
      TimesSmall(Rcon(j - 1));
    }
  }

  /** The first `n` words of a schedule are done. */
  ghost predicate WordsUpTo(key: Block, s: Schedule, n: nat)
    requires n <= 44
  {
    forall w :: 0 <= w < n ==> s[4 * w..4 * w + 4] == KeyWord(key, w)
  }

  lemma WordsKept(key: Block, was: Schedule, s: Schedule, n: nat)
    requires n < 44 && WordsUpTo(key, was, n) && s[..4 * n] == was[..4 * n]
    requires s[4 * n..4 * n + 4] == KeyWord(key, n)
    ensures WordsUpTo(key, s, n + 1)
  {
    hide KeyWord;
    forall w | 0 <= w < n
      ensures s[4 * w..4 * w + 4] == KeyWord(key, w)
    {
      assert s[4 * w..4 * w + 4] == s[..4 * n][4 * w..4 * w + 4] == was[4 * w..4 * w + 4];
    }
  }

  lemma WordsMakeSchedule(key: Block, s: Schedule)
    requires WordsUpTo(key, s, 44)
    ensures s == KeySchedule(key)
  {
    hide KeyWord;
    forall k | 0 <= k < 176
      ensures s[k] == KeySchedule(key)[k]
    {
      assert s[4 * (k / 4)..4 * (k / 4) + 4][k % 4] == s[k];
    }
  }

  lemma CoreBytes(w: Word, i: nat)
    requires 4 <= i < 44
    ensures Core(w, i) == if i % 4 == 0
                          then [Xor(SubByte(w[1]), Rcon(i / 4)), SubByte(w[2]), SubByte(w[3]), SubByte(w[0])]
                          else w
  {
    hide SubByte, Rcon, RconByte, Xor;
    if i % 4 == 0 {
      RconIsFips(i / 4);
      XorZero(SubByte(w[2]));
      XorZero(SubByte(w[3]));
      XorZero(SubByte(w[0]));
    }
  }

  class Aes128 {
    const rk: array<Byte>

    constructor ()
      ensures fresh(rk) && rk.Length == 176
    {
      rk := new Byte[176](i => ZERO);
    }

    ghost function Key(): (s: Schedule)
      reads this, rk
      requires rk.Length == 176
    {
      rk[..]
    }

    method SetKey(key: Block)
      requires rk.Length == 176
      modifies rk
      ensures Key() == KeySchedule(key)
    {
      hide KeyWord, Core, XorBytes;
      for i := 0 to 16
        invariant forall k :: 0 <= k < i ==> rk[k] == key[k]
      {
        rk[i] := key[i];
      }
      forall w | 0 <= w < 4
        ensures rk[4 * w..4 * w + 4] == KeyWord(key, w)
      {
        KeyWordStep(key, w);
      }
      for i := 4 to 44
        invariant WordsUpTo(key, rk[..], i)
      {
        ghost var was := rk[..];
        ExpandWord(i);
        KeyWordStep(key, i);
        WordsKept(key, was, rk[..], i);
      }
      WordsMakeSchedule(key, rk[..]);
    }

    /** One pass of the expansion loop. */
    method ExpandWord(i: nat)
      requires rk.Length == 176 && 4 <= i < 44
      modifies rk
      ensures rk[..4 * i] == old(rk[..4 * i])
      ensures rk[4 * i..4 * i + 4] == XorBytes(old(rk[4 * (i - 4)..4 * (i - 4) + 4]),
                                              Core(old(rk[4 * (i - 1)..4 * (i - 1) + 4]), i))
    {
      hide Core, Xor, SubByte, Rcon;
      ghost var previous: Word := rk[4 * (i - 1)..4 * (i - 1) + 4];
      CoreBytes(previous, i);
      var t := [rk[(i - 1) * 4], rk[(i - 1) * 4 + 1], rk[(i - 1) * 4 + 2], rk[(i - 1) * 4 + 3]];
      if i % 4 == 0 {
        t := [Xor(SubByte(t[1]), Rcon(i / 4)), SubByte(t[2]), SubByte(t[3]), SubByte(t[0])];
      }
      assert t == Core(previous, i);
      for j := 0 to 4
        invariant rk[..4 * i] == old(rk[..4 * i])
        invariant forall k :: 0 <= k < j ==> rk[4 * i + k] == Xor(old(rk[4 * (i - 4) + k]), t[k])
      {
        assert rk[(i - 4) * 4 + j] == rk[..4 * i][4 * (i - 4) + j] == old(rk[..4 * i])[4 * (i - 4) + j];
        rk[i * 4 + j] := Xor(rk[(i - 4) * 4 + j], t[j]);
      }
    }

    method AddRoundKey(block: array<Byte>, round: nat)
      requires rk.Length == 176 && block.Length == 16 && block != rk && round <= 10
      modifies block
      ensures block[..] == XorBytes(old(block[..]), RoundKey(Key(), round))
    {
      for i := 0 to 16
        invariant forall k :: 0 <= k < i ==> block[k] == Xor(old(block[k]), RoundKey(Key(), round)[k])
        invariant forall k :: i <= k < 16 ==> block[k] == old(block[k])
      {
        block[i] := Xor(block[i], rk[round * 16 + i]);
      }
    }

    static method SubBytesInPlace(block: array<Byte>)
      requires block.Length == 16
      modifies block
      ensures block[..] == SubBytes(old(block[..]))
    {
      for i := 0 to 16
        invariant forall k :: 0 <= k < i ==> block[k] == SubByte(old(block[k]))
        invariant forall k :: i <= k < 16 ==> block[k] == old(block[k])
      {
        block[i] := SubByte(block[i]);
      }
    }

    static method ShiftRowsInPlace(block: array<Byte>)
      requires block.Length == 16
      modifies block
      ensures block[..] == ShiftRows(old(block[..]))
    {
      hide ShiftRows;
      ghost var was: Block := block[..];
      var t := block[1];
      block[1] := block[5];
      block[5] := block[9];
      block[9] := block[13];
      block[13] := t;

      t := block[2];
      block[2] := block[10];
      block[10] := t;
      t := block[6];
      block[6] := block[14];
      block[14] := t;

      t := block[15];
      block[15] := block[11];
      block[11] := block[7];
      block[7] := block[3];
      block[3] := t;
      ShiftRowsTable(was);
      SameBytesIsEqual(block[..], ShiftRows(was));
    }

    static method MixColumnsInPlace(block: array<Byte>)
      requires block.Length == 16
      modifies block
      ensures block[..] == MixColumns(old(block[..]))
    {
      hide MixColumns, Xor, Dbl;
      ghost var was: Block := block[..];
      for c := 0 to 4
        invariant forall k :: 0 <= k < 4 * c ==> block[k] == MixColumns(was)[k]
        invariant forall k :: 4 * c <= k < 16 ==> block[k] == was[k]
      {
        StoredColumn(was, c);
        var a0, a1, a2, a3 := block[4 * c], block[4 * c + 1], block[4 * c + 2], block[4 * c + 3];
        var all := Xor(Xor(Xor(a0, a1), a2), a3);
        block[4 * c] := Xor(block[4 * c], Xor(all, Dbl(Xor(a0, a1))));
        block[4 * c + 1] := Xor(block[4 * c + 1], Xor(all, Dbl(Xor(a1, a2))));
        block[4 * c + 2] := Xor(block[4 * c + 2], Xor(all, Dbl(Xor(a2, a3))));
        block[4 * c + 3] := Xor(block[4 * c + 3], Xor(all, Dbl(Xor(a3, a0))));
      }
    }

    method EncryptBlock(block: array<Byte>)
      requires rk.Length == 176 && block.Length == 16 && block != rk
      modifies block
      ensures block[..] == Cipher(Key(), old(block[..]))
    {
      ghost var input: Block := block[..];
      AddRoundKey(block, 0);
      for round := 1 to 11
        invariant block[..] == Rounds(Key(), input, round - 1)
      {
        SubBytesInPlace(block);
        ShiftRowsInPlace(block);
        if round != 10 {
          MixColumnsInPlace(block);
        }
        AddRoundKey(block, round);
      }
    }
  }
}
