/** Published examples of the ciphers, worked out in the model: appendix B of FIPS 197, packet
    vector 1 of RFC 3610. The tests of the repository compare the code with the same ones
    (test/test_crypto/test_crypto.cpp). */
module CipherExamples {
  import opened ByteStrings
  import opened Galois
  import opened Aes
  import opened Ccm

  // ---- The cipher on four columns --------------------------------------------------------------

  function C(a0: bv8, a1: bv8, a2: bv8, a3: bv8): Column
  {
    Column(Byte(a0), Byte(a1), Byte(a2), Byte(a3))
  }

  datatype State = State(c0: Column, c1: Column, c2: Column, c3: Column)

  ghost function Whole(s: State): (b: Block)
  {
    [s.c0.a0, s.c0.a1, s.c0.a2, s.c0.a3, s.c1.a0, s.c1.a1, s.c1.a2, s.c1.a3,
     s.c2.a0, s.c2.a1, s.c2.a2, s.c2.a3, s.c3.a0, s.c3.a1, s.c3.a2, s.c3.a3]
  }

  function Sub(c: Column): Column
  {
    Column(SubByte(c.a0), SubByte(c.a1), SubByte(c.a2), SubByte(c.a3))
  }

  function Plus(c: Column, k: Column): Column
  {
    Column(Xor(c.a0, k.a0), Xor(c.a1, k.a1), Xor(c.a2, k.a2), Xor(c.a3, k.a3))
  }

  /** The column that comes together in column `c` when the rows shift. */
  function Gathered(c: Column, d: Column, e: Column, f: Column): Column
  {
    Column(c.a0, d.a1, e.a2, f.a3)
  }

  function PlusKey(s: State, k: State): State
  {
    State(Plus(s.c0, k.c0), Plus(s.c1, k.c1), Plus(s.c2, k.c2), Plus(s.c3, k.c3))
  }

  function Scrambled(s: State): State
  {
    var a, b, c, d := Sub(s.c0), Sub(s.c1), Sub(s.c2), Sub(s.c3);
    State(Gathered(a, b, c, d), Gathered(b, c, d, a), Gathered(c, d, a, b), Gathered(d, a, b, c))
  }

  function Mixed(s: State): State
  {
    State(Stored(s.c0), Stored(s.c1), Stored(s.c2), Stored(s.c3))
  }

  function Next(s: State, k: State): State
  {
    PlusKey(Mixed(Scrambled(s)), k)
  }

  function Last(s: State, k: State): State
  {
    PlusKey(Scrambled(s), k)
  }

  lemma PlusKeyIs(s: State, k: State)
    ensures XorBytes(Whole(s), Whole(k)) == Whole(PlusKey(s, k))
  {
    hide Xor;
  }

  lemma ScrambledIs(s: State)
    ensures ShiftRows(SubBytes(Whole(s))) == Whole(Scrambled(s))
  {
    hide SubByte, ShiftRows;
    var t := SubBytes(Whole(s));
    ShiftRowsTable(t);
    SameBytesIsEqual(ShiftRows(t), Whole(Scrambled(s)));
  }

  lemma MixedIs(s: State)
    ensures MixColumns(Whole(s)) == Whole(Mixed(s))
  {
    hide MixColumns, Stored;
    StoredColumn(Whole(s), 0);
    StoredColumn(Whole(s), 1);
    StoredColumn(Whole(s), 2);
    StoredColumn(Whole(s), 3);
    SameBytesIsEqual(MixColumns(Whole(s)), Whole(Mixed(s)));
  }

  /** `n` rounds take the input to this state. */
  ghost predicate At(rk: Schedule, input: Block, n: nat, s: State)
    requires n <= 10
  {
    Rounds(rk, input, n) == Whole(s)
  }

  lemma Begin(rk: Schedule, input: State, k: State)
    requires RoundKey(rk, 0) == Whole(k)
    ensures At(rk, Whole(input), 0, PlusKey(input, k))
  {
    PlusKeyIs(input, k);
  }

  lemma Step(rk: Schedule, input: Block, n: nat, s: State, k: State)
    requires n < 10 && At(rk, input, n, s) && RoundKey(rk, n + 1) == Whole(k)
    ensures n < 9 ==> At(rk, input, n + 1, Next(s, k))
    ensures n == 9 ==> At(rk, input, n + 1, Last(s, k))
  {
    hide SubBytes, ShiftRows, MixColumns, XorBytes, RoundKey, Whole;
    ScrambledIs(s);
    MixedIs(Scrambled(s));
    PlusKeyIs(Mixed(Scrambled(s)), k);
    PlusKeyIs(Scrambled(s), k);
  }

  // ---- Key schedules -----------------------------------------------------------------------

  function NextKey(k: State, rcon: Byte): State
  {
    var t := Column(Xor(SubByte(k.c3.a1), rcon), SubByte(k.c3.a2), SubByte(k.c3.a3), SubByte(k.c3.a0));
    var c := Plus(k.c0, t);
    var d := Plus(k.c1, c);
    var e := Plus(k.c2, d);
    State(c, d, e, Plus(k.c3, e))
  }

  ghost function Word(c: Column): Aes.Word
  {
    [c.a0, c.a1, c.a2, c.a3]
  }

  lemma PlusIs(c: Column, k: Column)
    ensures XorBytes(Word(c), Word(k)) == Word(Plus(c, k))
  {
    hide Xor;
  }

  ghost predicate KeyAt(key: Block, n: nat, k: State)
  {
    && KeyWord(key, 4 * n) == Word(k.c0) && KeyWord(key, 4 * n + 1) == Word(k.c1)
    && KeyWord(key, 4 * n + 2) == Word(k.c2) && KeyWord(key, 4 * n + 3) == Word(k.c3)
  }

  lemma KeyBegins(k: State)
    ensures KeyAt(Whole(k), 0, k)
  {
    var key := Whole(k);
    assert key[0..4] == Word(k.c0) && key[4..8] == Word(k.c1) && key[8..12] == Word(k.c2) && key[12..16] == Word(k.c3);
    KeyWordStep(key, 0);
    KeyWordStep(key, 1);
    KeyWordStep(key, 2);
    KeyWordStep(key, 3);
  }

  lemma KeyGoesOn(key: Block, n: nat, k: State)
    requires KeyAt(key, n, k) && n < 10
    ensures KeyAt(key, n + 1, NextKey(k, Rcon(n + 1)))
  {
    hide KeyWord, Core, XorBytes, Plus, SubByte, Rcon, Xor;
    var i := 4 * n + 4;
    var t := Column(Xor(SubByte(k.c3.a1), Rcon(n + 1)), SubByte(k.c3.a2), SubByte(k.c3.a3), SubByte(k.c3.a0));
    var c := Plus(k.c0, t);
    var d := Plus(k.c1, c);
    var e := Plus(k.c2, d);
    CoreOf(k.c3, n);
    KeyWordStep(key, i);
    PlusIs(k.c0, t);
    LaterCore(c, i + 1);
    KeyWordStep(key, i + 1);
    PlusIs(k.c1, c);
    LaterCore(d, i + 2);
    KeyWordStep(key, i + 2);
    PlusIs(k.c2, d);
    LaterCore(e, i + 3);
    KeyWordStep(key, i + 3);
    PlusIs(k.c3, e);
  }

  lemma CoreOf(c: Column, n: nat)
    requires n < 10
    ensures Core(Word(c), 4 * n + 4)
         == Word(Column(Xor(SubByte(c.a1), Rcon(n + 1)), SubByte(c.a2), SubByte(c.a3), SubByte(c.a0)))
  {
    hide Core, SubByte, Rcon, Xor;
    CoreBytes(Word(c), 4 * n + 4);
  }

  lemma LaterCore(c: Column, i: nat)
    requires 4 <= i < 44 && i % 4 != 0
    ensures Core(Word(c), i) == Word(c)
  {}

  lemma RoundKeyIs(key: Block, n: nat, k: State)
    requires KeyAt(key, n, k) && n <= 10
    ensures RoundKey(KeySchedule(key), n) == Whole(k)
  {
    hide KeyWord, KeySchedule, RoundKey, Whole, Word;
    var r := RoundKey(KeySchedule(key), n);
    WordOfRoundKey(key, n, 0);
    WordOfRoundKey(key, n, 1);
    WordOfRoundKey(key, n, 2);
    WordOfRoundKey(key, n, 3);
    FourWords(r);
    WholeIs(k);
  }

  lemma WordOfRoundKey(key: Block, n: nat, j: nat)
    requires n <= 10 && j < 4
    ensures RoundKey(KeySchedule(key), n)[4 * j..4 * j + 4] == KeyWord(key, 4 * n + j)
  {
    hide KeyWord;
    var s := RoundKey(KeySchedule(key), n)[4 * j..4 * j + 4];
    forall i | 0 <= i < 4
      ensures s[i] == KeyWord(key, 4 * n + j)[i]
    {
      assert s[i] == KeySchedule(key)[16 * n + 4 * j + i];
      assert (16 * n + 4 * j + i) / 4 == 4 * n + j && (16 * n + 4 * j + i) % 4 == i;
    }
  }

  lemma FourWords(b: Block)
    ensures b == b[0..4] + b[4..8] + b[8..12] + b[12..16]
  {}

  lemma WholeIs(s: State)
    ensures Whole(s) == Word(s.c0) + Word(s.c1) + Word(s.c2) + Word(s.c3)
  {}

  lemma Stages(s: State, a: State, b: State, k: State)
    requires Scrambled(s) == a && Mixed(a) == b
    ensures Next(s, k) == PlusKey(b, k) && Last(s, k) == PlusKey(a, k)
  {
    hide Scrambled, Mixed, PlusKey;
  }

  lemma KeyStages(k: State, rcon: Byte, t: Column, c: Column, d: Column, e: Column, f: Column)
    requires Column(Xor(SubByte(k.c3.a1), rcon), SubByte(k.c3.a2), SubByte(k.c3.a3), SubByte(k.c3.a0)) == t
    requires Plus(k.c0, t) == c && Plus(k.c1, c) == d && Plus(k.c2, d) == e && Plus(k.c3, e) == f
    ensures NextKey(k, rcon) == State(c, d, e, f)
  {
    hide Plus, SubByte, Xor;
  }

  lemma Ends(rk: Schedule, input: Block, s: State)
    requires At(rk, input, 10, s)
    ensures Cipher(rk, input) == Whole(s)
  {}

  // ---- Appendix B of FIPS 197 -----------------------------------------------------------------

  /** The key, and the keys of the rounds (appendix A.1). */
  function Key0(): State { State(C(0x2b, 0x7e, 0x15, 0x16), C(0x28, 0xae, 0xd2, 0xa6), C(0xab, 0xf7, 0x15, 0x88), C(0x09, 0xcf, 0x4f, 0x3c)) }

  function Key1(): State { State(C(0xa0, 0xfa, 0xfe, 0x17), C(0x88, 0x54, 0x2c, 0xb1), C(0x23, 0xa3, 0x39, 0x39), C(0x2a, 0x6c, 0x76, 0x05)) }

  function Key2(): State { State(C(0xf2, 0xc2, 0x95, 0xf2), C(0x7a, 0x96, 0xb9, 0x43), C(0x59, 0x35, 0x80, 0x7a), C(0x73, 0x59, 0xf6, 0x7f)) }

  function Key3(): State { State(C(0x3d, 0x80, 0x47, 0x7d), C(0x47, 0x16, 0xfe, 0x3e), C(0x1e, 0x23, 0x7e, 0x44), C(0x6d, 0x7a, 0x88, 0x3b)) }

  function Key4(): State { State(C(0xef, 0x44, 0xa5, 0x41), C(0xa8, 0x52, 0x5b, 0x7f), C(0xb6, 0x71, 0x25, 0x3b), C(0xdb, 0x0b, 0xad, 0x00)) }

  function Key5(): State { State(C(0xd4, 0xd1, 0xc6, 0xf8), C(0x7c, 0x83, 0x9d, 0x87), C(0xca, 0xf2, 0xb8, 0xbc), C(0x11, 0xf9, 0x15, 0xbc)) }

  function Key6(): State { State(C(0x6d, 0x88, 0xa3, 0x7a), C(0x11, 0x0b, 0x3e, 0xfd), C(0xdb, 0xf9, 0x86, 0x41), C(0xca, 0x00, 0x93, 0xfd)) }

  function Key7(): State { State(C(0x4e, 0x54, 0xf7, 0x0e), C(0x5f, 0x5f, 0xc9, 0xf3), C(0x84, 0xa6, 0x4f, 0xb2), C(0x4e, 0xa6, 0xdc, 0x4f)) }

  function Key8(): State { State(C(0xea, 0xd2, 0x73, 0x21), C(0xb5, 0x8d, 0xba, 0xd2), C(0x31, 0x2b, 0xf5, 0x60), C(0x7f, 0x8d, 0x29, 0x2f)) }

  function Key9(): State { State(C(0xac, 0x77, 0x66, 0xf3), C(0x19, 0xfa, 0xdc, 0x21), C(0x28, 0xd1, 0x29, 0x41), C(0x57, 0x5c, 0x00, 0x6e)) }

  function Key10(): State { State(C(0xd0, 0x14, 0xf9, 0xa8), C(0xc9, 0xee, 0x25, 0x89), C(0xe1, 0x3f, 0x0c, 0xc8), C(0xb6, 0x63, 0x0c, 0xa6)) }

  /** The input and the states after the rounds. */
  function Input(): State { State(C(0x32, 0x43, 0xf6, 0xa8), C(0x88, 0x5a, 0x30, 0x8d), C(0x31, 0x31, 0x98, 0xa2), C(0xe0, 0x37, 0x07, 0x34)) }

  function State0(): State { State(C(0x19, 0x3d, 0xe3, 0xbe), C(0xa0, 0xf4, 0xe2, 0x2b), C(0x9a, 0xc6, 0x8d, 0x2a), C(0xe9, 0xf8, 0x48, 0x08)) }

  function State1(): State { State(C(0xa4, 0x9c, 0x7f, 0xf2), C(0x68, 0x9f, 0x35, 0x2b), C(0x6b, 0x5b, 0xea, 0x43), C(0x02, 0x6a, 0x50, 0x49)) }

  function State2(): State { State(C(0xaa, 0x8f, 0x5f, 0x03), C(0x61, 0xdd, 0xe3, 0xef), C(0x82, 0xd2, 0x4a, 0xd2), C(0x68, 0x32, 0x46, 0x9a)) }

  function State3(): State { State(C(0x48, 0x6c, 0x4e, 0xee), C(0x67, 0x1d, 0x9d, 0x0d), C(0x4d, 0xe3, 0xb1, 0x38), C(0xd6, 0x5f, 0x58, 0xe7)) }

  function State4(): State { State(C(0xe0, 0x92, 0x7f, 0xe8), C(0xc8, 0x63, 0x63, 0xc0), C(0xd9, 0xb1, 0x35, 0x50), C(0x85, 0xb8, 0xbe, 0x01)) }

  function State5(): State { State(C(0xf1, 0x00, 0x6f, 0x55), C(0xc1, 0x92, 0x4c, 0xef), C(0x7c, 0xc8, 0x8b, 0x32), C(0x5d, 0xb5, 0xd5, 0x0c)) }

  function State6(): State { State(C(0x26, 0x0e, 0x2e, 0x17), C(0x3d, 0x41, 0xb7, 0x7d), C(0xe8, 0x64, 0x72, 0xa9), C(0xfd, 0xd2, 0x8b, 0x25)) }

  function State7(): State { State(C(0x5a, 0x41, 0x42, 0xb1), C(0x19, 0x49, 0xdc, 0x1f), C(0xa3, 0xe0, 0x19, 0x65), C(0x7a, 0x8c, 0x04, 0x0c)) }

  function State8(): State { State(C(0xea, 0x83, 0x5c, 0xf0), C(0x04, 0x45, 0x33, 0x2d), C(0x65, 0x5d, 0x98, 0xad), C(0x85, 0x96, 0xb0, 0xc5)) }

  function State9(): State { State(C(0xeb, 0x40, 0xf2, 0x1e), C(0x59, 0x2e, 0x38, 0x84), C(0x8b, 0xa1, 0x13, 0xe7), C(0x1b, 0xc3, 0x42, 0xd2)) }

  function State10(): State { State(C(0x39, 0x25, 0x84, 0x1d), C(0x02, 0xdc, 0x09, 0xfb), C(0xdc, 0x11, 0x85, 0x97), C(0x19, 0x6a, 0x0b, 0x32)) }

  lemma KeyAfter0()
    ensures NextKey(Key0(), Rcon(1)) == Key1()
  {
    hide NextKey;
    KeyStages(Key0(), Rcon(1), C(0x8b, 0x84, 0xeb, 0x01), Key1().c0, Key1().c1, Key1().c2, Key1().c3);
  }

  lemma KeyAfter1()
    ensures NextKey(Key1(), Rcon(2)) == Key2()
  {
    hide NextKey;
    KeyStages(Key1(), Rcon(2), C(0x52, 0x38, 0x6b, 0xe5), Key2().c0, Key2().c1, Key2().c2, Key2().c3);
  }

  lemma KeyAfter2()
    ensures NextKey(Key2(), Rcon(3)) == Key3()
  {
    hide NextKey;
    KeyStages(Key2(), Rcon(3), C(0xcf, 0x42, 0xd2, 0x8f), Key3().c0, Key3().c1, Key3().c2, Key3().c3);
  }

  lemma KeyAfter3()
    ensures NextKey(Key3(), Rcon(4)) == Key4()
  {
    hide NextKey;
    KeyStages(Key3(), Rcon(4), C(0xd2, 0xc4, 0xe2, 0x3c), Key4().c0, Key4().c1, Key4().c2, Key4().c3);
  }

  lemma KeyAfter4()
    ensures NextKey(Key4(), Rcon(5)) == Key5()
  {
    hide NextKey;
    KeyStages(Key4(), Rcon(5), C(0x3b, 0x95, 0x63, 0xb9), Key5().c0, Key5().c1, Key5().c2, Key5().c3);
  }

  lemma KeyAfter5()
    ensures NextKey(Key5(), Rcon(6)) == Key6()
  {
    hide NextKey;
    KeyStages(Key5(), Rcon(6), C(0xb9, 0x59, 0x65, 0x82), Key6().c0, Key6().c1, Key6().c2, Key6().c3);
  }

  lemma KeyAfter6()
    ensures NextKey(Key6(), Rcon(7)) == Key7()
  {
    hide NextKey;
    KeyStages(Key6(), Rcon(7), C(0x23, 0xdc, 0x54, 0x74), Key7().c0, Key7().c1, Key7().c2, Key7().c3);
  }

  lemma KeyAfter7()
    ensures NextKey(Key7(), Rcon(8)) == Key8()
  {
    hide NextKey;
    KeyStages(Key7(), Rcon(8), C(0xa4, 0x86, 0x84, 0x2f), Key8().c0, Key8().c1, Key8().c2, Key8().c3);
  }

  lemma KeyAfter8()
    ensures NextKey(Key8(), Rcon(9)) == Key9()
  {
    hide NextKey;
    KeyStages(Key8(), Rcon(9), C(0x46, 0xa5, 0x15, 0xd2), Key9().c0, Key9().c1, Key9().c2, Key9().c3);
  }

  lemma KeyAfter9()
    ensures NextKey(Key9(), Rcon(10)) == Key10()
  {
    hide NextKey;
    KeyStages(Key9(), Rcon(10), C(0x7c, 0x63, 0x9f, 0x5b), Key10().c0, Key10().c1, Key10().c2, Key10().c3);
  }

  lemma Round1()
    ensures Next(State0(), Key1()) == State1()
  {
    hide Next, Last;
    Stages(State0(),
           State(C(0xd4, 0xbf, 0x5d, 0x30), C(0xe0, 0xb4, 0x52, 0xae), C(0xb8, 0x41, 0x11, 0xf1), C(0x1e, 0x27, 0x98, 0xe5)),
           State(C(0x04, 0x66, 0x81, 0xe5), C(0xe0, 0xcb, 0x19, 0x9a), C(0x48, 0xf8, 0xd3, 0x7a), C(0x28, 0x06, 0x26, 0x4c)), Key1());
  }

  lemma Round2()
    ensures Next(State1(), Key2()) == State2()
  {
    hide Next, Last;
    Stages(State1(),
           State(C(0x49, 0xdb, 0x87, 0x3b), C(0x45, 0x39, 0x53, 0x89), C(0x7f, 0x02, 0xd2, 0xf1), C(0x77, 0xde, 0x96, 0x1a)),
           State(C(0x58, 0x4d, 0xca, 0xf1), C(0x1b, 0x4b, 0x5a, 0xac), C(0xdb, 0xe7, 0xca, 0xa8), C(0x1b, 0x6b, 0xb0, 0xe5)), Key2());
  }

  lemma Round3()
    ensures Next(State2(), Key3()) == State3()
  {
    hide Next, Last;
    Stages(State2(),
           State(C(0xac, 0xc1, 0xd6, 0xb8), C(0xef, 0xb5, 0x5a, 0x7b), C(0x13, 0x23, 0xcf, 0xdf), C(0x45, 0x73, 0x11, 0xb5)),
           State(C(0x75, 0xec, 0x09, 0x93), C(0x20, 0x0b, 0x63, 0x33), C(0x53, 0xc0, 0xcf, 0x7c), C(0xbb, 0x25, 0xd0, 0xdc)), Key3());
  }

  lemma Round4()
    ensures Next(State3(), Key4()) == State4()
  {
    hide Next, Last;
    Stages(State3(),
           State(C(0x52, 0xa4, 0xc8, 0x94), C(0x85, 0x11, 0x6a, 0x28), C(0xe3, 0xcf, 0x2f, 0xd7), C(0xf6, 0x50, 0x5e, 0x07)),
           State(C(0x0f, 0xd6, 0xda, 0xa9), C(0x60, 0x31, 0x38, 0xbf), C(0x6f, 0xc0, 0x10, 0x6b), C(0x5e, 0xb3, 0x13, 0x01)), Key4());
  }

  lemma Round5()
    ensures Next(State4(), Key5()) == State5()
  {
    hide Next, Last;
    Stages(State4(),
           State(C(0xe1, 0xfb, 0x96, 0x7c), C(0xe8, 0xc8, 0xae, 0x9b), C(0x35, 0x6c, 0xd2, 0xba), C(0x97, 0x4f, 0xfb, 0x53)),
           State(C(0x25, 0xd1, 0xa9, 0xad), C(0xbd, 0x11, 0xd1, 0x68), C(0xb6, 0x3a, 0x33, 0x8e), C(0x4c, 0x4c, 0xc0, 0xb0)), Key5());
  }

  lemma Round6()
    ensures Next(State5(), Key6()) == State6()
  {
    hide Next, Last;
    Stages(State5(),
           State(C(0xa1, 0x4f, 0x3d, 0xfe), C(0x78, 0xe8, 0x03, 0xfc), C(0x10, 0xd5, 0xa8, 0xdf), C(0x4c, 0x63, 0x29, 0x23)),
           State(C(0x4b, 0x86, 0x8d, 0x6d), C(0x2c, 0x4a, 0x89, 0x80), C(0x33, 0x9d, 0xf4, 0xe8), C(0x37, 0xd2, 0x18, 0xd8)), Key6());
  }

  lemma Round7()
    ensures Next(State6(), Key7()) == State7()
  {
    hide Next, Last;
    Stages(State6(),
           State(C(0xf7, 0x83, 0x40, 0x3f), C(0x27, 0x43, 0x3d, 0xf0), C(0x9b, 0xb5, 0x31, 0xff), C(0x54, 0xab, 0xa9, 0xd3)),
           State(C(0x14, 0x15, 0xb5, 0xbf), C(0x46, 0x16, 0x15, 0xec), C(0x27, 0x46, 0x56, 0xd7), C(0x34, 0x2a, 0xd8, 0x43)), Key7());
  }

  lemma Round8()
    ensures Next(State7(), Key8()) == State8()
  {
    hide Next, Last;
    Stages(State7(),
           State(C(0xbe, 0x3b, 0xd4, 0xfe), C(0xd4, 0xe1, 0xf2, 0xc8), C(0x0a, 0x64, 0x2c, 0xc0), C(0xda, 0x83, 0x86, 0x4d)),
           State(C(0x00, 0x51, 0x2f, 0xd1), C(0xb1, 0xc8, 0x89, 0xff), C(0x54, 0x76, 0x6d, 0xcd), C(0xfa, 0x1b, 0x99, 0xea)), Key8());
  }

  lemma Round9()
    ensures Next(State8(), Key9()) == State9()
  {
    hide Next, Last;
    Stages(State8(),
           State(C(0x87, 0x6e, 0x46, 0xa6), C(0xf2, 0x4c, 0xe7, 0x8c), C(0x4d, 0x90, 0x4a, 0xd8), C(0x97, 0xec, 0xc3, 0x95)),
           State(C(0x47, 0x37, 0x94, 0xed), C(0x40, 0xd4, 0xe4, 0xa5), C(0xa3, 0x70, 0x3a, 0xa6), C(0x4c, 0x9f, 0x42, 0xbc)), Key9());
  }

  lemma Round10()
    ensures Last(State9(), Key10()) == State10()
  {
    hide Next, Last;
    Stages(State9(),
           State(C(0xe9, 0x31, 0x7d, 0xb5), C(0xcb, 0x32, 0x2c, 0x72), C(0x3d, 0x2e, 0x89, 0x5f), C(0xaf, 0x09, 0x07, 0x94)),
           State(C(0x52, 0xb9, 0xe6, 0x1d), C(0x85, 0xa9, 0x37, 0xbc), C(0xde, 0xbe, 0xfb, 0x5e), C(0xcd, 0x20, 0x0f, 0xd7)), Key10());
  }

  lemma RoundKeysAre()
    ensures var rk := KeySchedule(Whole(Key0()));
            && RoundKey(rk, 0) == Whole(Key0()) && RoundKey(rk, 1) == Whole(Key1()) && RoundKey(rk, 2) == Whole(Key2())
            && RoundKey(rk, 3) == Whole(Key3()) && RoundKey(rk, 4) == Whole(Key4()) && RoundKey(rk, 5) == Whole(Key5())
            && RoundKey(rk, 6) == Whole(Key6()) && RoundKey(rk, 7) == Whole(Key7()) && RoundKey(rk, 8) == Whole(Key8())
            && RoundKey(rk, 9) == Whole(Key9()) && RoundKey(rk, 10) == Whole(Key10())
  {
    hide KeyAt, NextKey, Rcon, RoundKey, KeySchedule, Whole;
    hide Key0, Key1, Key2, Key3, Key4, Key5, Key6, Key7, Key8, Key9, Key10;
    var key := Whole(Key0());
    KeyBegins(Key0());
    RoundKeyIs(key, 0, Key0());
    KeyAfter0();
    KeyGoesOn(key, 0, Key0());
    RoundKeyIs(key, 1, Key1());
    KeyAfter1();
    KeyGoesOn(key, 1, Key1());
    RoundKeyIs(key, 2, Key2());
    KeyAfter2();
    KeyGoesOn(key, 2, Key2());
    RoundKeyIs(key, 3, Key3());
    KeyAfter3();
    KeyGoesOn(key, 3, Key3());
    RoundKeyIs(key, 4, Key4());
    KeyAfter4();
    KeyGoesOn(key, 4, Key4());
    RoundKeyIs(key, 5, Key5());
    KeyAfter5();
    KeyGoesOn(key, 5, Key5());
    RoundKeyIs(key, 6, Key6());
    KeyAfter6();
    KeyGoesOn(key, 6, Key6());
    RoundKeyIs(key, 7, Key7());
    KeyAfter7();
    KeyGoesOn(key, 7, Key7());
    RoundKeyIs(key, 8, Key8());
    KeyAfter8();
    KeyGoesOn(key, 8, Key8());
    RoundKeyIs(key, 9, Key9());
    KeyAfter9();
    KeyGoesOn(key, 9, Key9());
    RoundKeyIs(key, 10, Key10());
  }

  lemma FirstState()
    ensures PlusKey(Input(), Key0()) == State0()
  {}

  /** Encryption of the published input under the published key gives the published output. */
  lemma AppendixB()
    ensures Cipher(KeySchedule(Whole(Key0())), Whole(Input())) == Whole(State10())
  {
    hide At, Next, Last, PlusKey, RoundKey, KeySchedule, Cipher, Whole, Input;
    hide Key0, Key1, Key2, Key3, Key4, Key5, Key6, Key7, Key8, Key9, Key10;
    hide State0, State1, State2, State3, State4, State5, State6, State7, State8, State9, State10;
    var rk, input := KeySchedule(Whole(Key0())), Whole(Input());
    RoundKeysAre();
    FirstState();
    Begin(rk, Input(), Key0());
    Round1();
    Step(rk, input, 0, State0(), Key1());
    Round2();
    Step(rk, input, 1, State1(), Key2());
    Round3();
    Step(rk, input, 2, State2(), Key3());
    Round4();
    Step(rk, input, 3, State3(), Key4());
    Round5();
    Step(rk, input, 4, State4(), Key5());
    Round6();
    Step(rk, input, 5, State5(), Key6());
    Round7();
    Step(rk, input, 6, State6(), Key7());
    Round8();
    Step(rk, input, 7, State7(), Key8());
    Round9();
    Step(rk, input, 8, State8(), Key9());
    Round10();
    Step(rk, input, 9, State9(), Key10());
    Ends(rk, input, State10());
  }

  // ---- Packet vector 1 of RFC 3610 -----------------------------------------------------------

  function Nonce1(): Bytes
  {
    [Byte(0x00), Byte(0x00), Byte(0x00), Byte(0x03), Byte(0x02), Byte(0x01), Byte(0x00), Byte(0xa0), Byte(0xa1), Byte(0xa2), Byte(0xa3), Byte(0xa4), Byte(0xa5)]
  }

  function Aad1(): Bytes
  {
    [Byte(0x00), Byte(0x01), Byte(0x02), Byte(0x03), Byte(0x04), Byte(0x05), Byte(0x06), Byte(0x07)]
  }

  function Data1(): Bytes
  {
    [Byte(0x08), Byte(0x09), Byte(0x0a), Byte(0x0b), Byte(0x0c), Byte(0x0d), Byte(0x0e), Byte(0x0f), Byte(0x10), Byte(0x11), Byte(0x12), Byte(0x13)]
    + [Byte(0x14), Byte(0x15), Byte(0x16), Byte(0x17), Byte(0x18), Byte(0x19), Byte(0x1a), Byte(0x1b), Byte(0x1c), Byte(0x1d), Byte(0x1e)]
  }

  lemma OctetsOf(n: nat, b: Byte, c: Byte)
    requires n == 256 * ToNat(b) + ToNat(c)
    ensures Octet(n, 0) == c && BigEndian(n, 2) == [b, c]
  {
    hide ToByte, ToNat;
    assert n / 256 == ToNat(b) && n % 256 == ToNat(c);
    SameNat(ToByte(ToNat(b)), b);
    SameNat(ToByte(ToNat(c)), c);
    assert Octet(n, 1) == Octet(n / 256, 0) == ToByte(ToNat(b));
    assert Octet(n, 0) == ToByte(ToNat(c));
  }

  /** The first block of the MAC, as printed. */
  lemma FirstBlock1()
    ensures FirstBlock(Nonce1(), |Aad1()|, |Data1()|, 8)
         == [Byte(0x59), Byte(0x00), Byte(0x00), Byte(0x00), Byte(0x03), Byte(0x02), Byte(0x01), Byte(0x00)]
         + [Byte(0xa0), Byte(0xa1), Byte(0xa2), Byte(0xa3), Byte(0xa4), Byte(0xa5), Byte(0x00), Byte(0x17)]
  {
    hide ToByte, BigEndian;
    OctetsOf(0x59, Byte(0), Byte(0x59));
    OctetsOf(23, Byte(0), Byte(0x17));
    assert |Data1()| == 23 && |Aad1()| == 8;
    assert FlagsOfFirstBlock(2, 8, 8) == 0x59;
  }

  /** The header with its length in front, in one block. */
  lemma Header1()
    ensures AadBlocks(Aad1())
         == [Byte(0x00), Byte(0x08), Byte(0x00), Byte(0x01), Byte(0x02), Byte(0x03), Byte(0x04), Byte(0x05)]
         + [Byte(0x06), Byte(0x07), Byte(0x00), Byte(0x00), Byte(0x00), Byte(0x00), Byte(0x00), Byte(0x00)]
  {
    hide BigEndian;
    OctetsOf(8, Byte(0), Byte(8));
    assert BigEndian(8, 2) + Aad1() == [Byte(0x00), Byte(0x08), Byte(0x00), Byte(0x01), Byte(0x02), Byte(0x03), Byte(0x04), Byte(0x05)]
                                     + [Byte(0x06), Byte(0x07)];
  }

  /** The counter block of the first block of data. */
  lemma CounterBlock1()
    ensures CounterBlock(Nonce1(), 1)
         == [Byte(0x01), Byte(0x00), Byte(0x00), Byte(0x00), Byte(0x03), Byte(0x02), Byte(0x01), Byte(0x00)]
         + [Byte(0xa0), Byte(0xa1), Byte(0xa2), Byte(0xa3), Byte(0xa4), Byte(0xa5), Byte(0x00), Byte(0x01)]
  {
    hide ToByte, BigEndian;
    OctetsOf(1, Byte(0), Byte(1));
  }
}
