/** MixColumns of AES over the field GF(2^8): the exclusive-or trick that
    lib/ff_core/aes.cpp uses is the matrix product of section 5.1.3 of FIPS 197,
    and the matrix of section 5.3.3 undoes it.

    The laws of addition are stated once on bits; everything after them is
    rewriting. */
module Galois {
  import opened ByteStrings
  import opened SBox

  function Times(k: bv8, a: Byte): Byte
  {
    Byte(GfMul(k, a.v))
  }

  /** Multiplication by x, as the code writes it. */
  function Xtime(a: bv8): bv8
  {
    (a << 1) ^ ((a >> 7) * 0x1b)
  }

  function Dbl(a: Byte): Byte
  {
    Byte(Xtime(a.v))
  }

  function Quad(a: Byte): Byte
  {
    Dbl(Dbl(a))
  }

  // ---- Laws of addition, which is exclusive or --------------------------------------

  lemma Swap(a: Byte, b: Byte, c: Byte)
    ensures Xor(Xor(a, b), c) == Xor(Xor(a, c), b)
  {}

  lemma Telescope(a: Byte, b: Byte, c: Byte)
    ensures Xor(Xor(a, b), Xor(b, c)) == Xor(a, c)
  {}

  lemma Exchange(a: Byte, b: Byte, c: Byte, d: Byte)
    ensures Xor(Xor(a, b), Xor(c, d)) == Xor(Xor(a, c), Xor(b, d))
  {}

  lemma Drop(a: Byte, b: Byte, c: Byte)
    ensures Xor(Xor(a, c), Xor(b, c)) == Xor(a, b)
  {}

  lemma Share(a: Byte, b: Byte, s: Byte, p: Byte, q: Byte)
    ensures Xor(Xor(a, Xor(s, p)), Xor(b, Xor(s, q))) == Xor(Xor(a, b), Xor(p, q))
  {}

  lemma Collapse(a: Byte, s: Byte, p: Byte, q: Byte)
    ensures Xor(Xor(a, Xor(s, p)), Xor(s, Xor(p, q))) == Xor(a, q)
  {}

  // ---- Multiplication by the matrix entries --------------------------------------

  lemma DblXor(a: Byte, b: Byte)
    ensures Dbl(Xor(a, b)) == Xor(Dbl(a), Dbl(b))
  {}

  lemma QuadXor(a: Byte, b: Byte)
    ensures Quad(Xor(a, b)) == Xor(Quad(a), Quad(b))
  {
    DblXor(a, b);
    DblXor(Dbl(a), Dbl(b));
  }

  /** `Xtime` is multiplication by x. */
  lemma XtimeIsGfMul(a: bv8)
    ensures Xtime(a) == GfMul(0x02, a)
  {}

  lemma Mul3(a: bv8)
    ensures GfMul(0x03, a) == Xtime(a) ^ a
  {}

  lemma Mul9(a: bv8)
    ensures GfMul(0x09, a) == Xtime(Xtime(Xtime(a))) ^ a
  {}

  lemma MulB(a: bv8)
    ensures GfMul(0x0b, a) == Xtime(Xtime(Xtime(a))) ^ Xtime(a) ^ a
  {}

  lemma MulD(a: bv8)
    ensures GfMul(0x0d, a) == Xtime(Xtime(Xtime(a))) ^ Xtime(Xtime(a)) ^ a
  {}

  lemma MulE(a: bv8)
    ensures GfMul(0x0e, a) == Xtime(Xtime(Xtime(a))) ^ Xtime(Xtime(a)) ^ Xtime(a)
  {}

  lemma TimesSmall(a: Byte)
    ensures Times(0x02, a) == Dbl(a)
    ensures Times(0x03, a) == Xor(Dbl(a), a)
  {
    XtimeIsGfMul(a.v);
    Mul3(a.v);
  }

  lemma TimesLarge(a: Byte)
    ensures Times(0x09, a) == Xor(Dbl(Quad(a)), a)
    ensures Times(0x0b, a) == Xor(Xor(Dbl(Quad(a)), Dbl(a)), a)
    ensures Times(0x0d, a) == Xor(Xor(Dbl(Quad(a)), Quad(a)), a)
    ensures Times(0x0e, a) == Xor(Xor(Dbl(Quad(a)), Quad(a)), Dbl(a))
  {
    Mul9(a.v);
    MulB(a.v);
    MulD(a.v);
    MulE(a.v);
  }

  // ---- Columns -----------------------------------------------------------------

  datatype Column = Column(a0: Byte, a1: Byte, a2: Byte, a3: Byte) {
    function Sum(): Byte
    {
      Xor(Xor(a0, a1), Xor(a2, a3))
    }

    function Rotate(): Column
    {
      Column(a1, a2, a3, a0)
    }
  }

  /** First row of the product with the matrix of section 5.1.3; the other rows are
      the same combination of the rotated column. */
  function FipsMix(c: Column): Byte
  {
    Xor(Xor(Xor(Times(0x02, c.a0), Times(0x03, c.a1)), c.a2), c.a3)
  }

  /** First row of the product with the matrix of section 5.3.3. */
  function FipsInvMix(c: Column): Byte
  {
    Xor(Xor(Xor(Times(0x0e, c.a0), Times(0x0b, c.a1)), Times(0x0d, c.a2)), Times(0x09, c.a3))
  }

  /** What the code stores in the first row. */
  function Trick(c: Column): Byte
  {
    Xor(c.a0, Xor(c.Sum(), Dbl(Xor(c.a0, c.a1))))
  }

  function Mix(c: Column): Column
  {
    Column(Trick(c), Trick(c.Rotate()), Trick(c.Rotate().Rotate()), Trick(c.Rotate().Rotate().Rotate()))
  }

  function InvMix(c: Column): Column
  {
    Column(FipsInvMix(c), FipsInvMix(c.Rotate()), FipsInvMix(c.Rotate().Rotate()),
           FipsInvMix(c.Rotate().Rotate().Rotate()))
  }

  lemma Spread(a0: Byte, a1: Byte, a2: Byte, a3: Byte, x0: Byte, x1: Byte)
    ensures Xor(a0, Xor(Xor(Xor(a0, a1), Xor(a2, a3)), Xor(x0, x1)))
         == Xor(Xor(Xor(x0, Xor(x1, a1)), a2), a3)
  {}

  lemma TrickIsFipsMix(c: Column)
    ensures Trick(c) == FipsMix(c)
  {
    TimesSmall(c.a0);
    TimesSmall(c.a1);
    DblXor(c.a0, c.a1);
    Spread(c.a0, c.a1, c.a2, c.a3, Dbl(c.a0), Dbl(c.a1));
  }

  // ---- Four applications are the identity ------------------------------------------

  /** Two applications: only the opposite element is still mixed in. */
  function Square(c: Column): Column
  {
    var u := Quad(Xor(c.a0, c.a2));
    var w := Quad(Xor(c.a1, c.a3));
    Column(Xor(c.a0, u), Xor(c.a1, w), Xor(c.a2, u), Xor(c.a3, w))
  }

  lemma RotateSum(c: Column)
    ensures c.Rotate().Sum() == c.Sum()
  {}

  lemma NextSum(c: Column)
    ensures Xor(Trick(c), Trick(c.Rotate())) == Xor(Xor(c.a0, c.a1), Dbl(Xor(c.a0, c.a2)))
  {
    RotateSum(c);
    Share(c.a0, c.a1, c.Sum(), Dbl(Xor(c.a0, c.a1)), Dbl(Xor(c.a1, c.a2)));
    DblXor(Xor(c.a0, c.a1), Xor(c.a1, c.a2));
    Telescope(c.a0, c.a1, c.a2);
  }

  lemma SumKept(c: Column)
    ensures Mix(c).Sum() == c.Sum()
  {
    NextSum(c);
    NextSum(c.Rotate().Rotate());
    Comm(c.a0, c.a2);
    Drop(Xor(c.a0, c.a1), Xor(c.a2, c.a3), Dbl(Xor(c.a0, c.a2)));
  }

  lemma TrickTwice(c: Column)
    ensures Trick(Mix(c)) == Xor(c.a0, Quad(Xor(c.a0, c.a2)))
  {
    SumKept(c);
    NextSum(c);
    DblXor(Xor(c.a0, c.a1), Dbl(Xor(c.a0, c.a2)));
    Collapse(c.a0, c.Sum(), Dbl(Xor(c.a0, c.a1)), Quad(Xor(c.a0, c.a2)));
  }

  lemma MixTwice(c: Column)
    ensures Mix(Mix(c)) == Square(c)
  {
    var c1 := c.Rotate();
    var c2 := c1.Rotate();
    var c3 := c2.Rotate();
    TrickTwice(c);
    TrickTwice(c1);
    TrickTwice(c2);
    TrickTwice(c3);
    assert Mix(c1) == Mix(c).Rotate() && Mix(c2) == Mix(c1).Rotate() && Mix(c3) == Mix(c2).Rotate();
    Comm(c.a0, c.a2);
    Comm(c.a1, c.a3);
  }

  lemma SquareTwice(c: Column)
    ensures Square(Square(c)) == c
  {
    var u := Quad(Xor(c.a0, c.a2));
    var w := Quad(Xor(c.a1, c.a3));
    Drop(c.a0, c.a2, u);
    Drop(c.a1, c.a3, w);
    Cancel(c.a0, u);
    Cancel(c.a1, w);
    Cancel(c.a2, u);
    Cancel(c.a3, w);
  }

  // ---- Three applications are the inverse matrix --------------------------------------

  lemma TrickOfSquare(c: Column)
    ensures Trick(Square(c)) == Xor(Xor(c.a0, Quad(Xor(c.a0, c.a2))),
                                     Xor(c.Sum(), Xor(Dbl(Xor(c.a0, c.a1)), Dbl(Quad(c.Sum())))))
  {
    var u := Quad(Xor(c.a0, c.a2));
    var w := Quad(Xor(c.a1, c.a3));
    Exchange(c.a0, u, c.a1, w);
    Exchange(c.a2, u, c.a3, w);
    Drop(Xor(c.a0, c.a1), Xor(c.a2, c.a3), Xor(u, w));
    QuadXor(Xor(c.a0, c.a2), Xor(c.a1, c.a3));
    Exchange(c.a0, c.a2, c.a1, c.a3);
    DblXor(Xor(c.a0, c.a1), Xor(u, w));
  }

  lemma FirstOut(a: Byte, q: Byte, s: Byte, x: Byte, t: Byte)
    ensures Xor(Xor(a, q), Xor(s, Xor(x, t))) == Xor(Xor(Xor(q, x), t), Xor(a, s))
  {
    Exchange(a, q, s, Xor(x, t));
    Comm(Xor(a, s), Xor(q, Xor(x, t)));
    Assoc(q, x, t);
  }

  /** Collects the twelve terms of the expanded left side matrix entry by matrix entry. */
  lemma Gather(a0: Byte, a1: Byte, a2: Byte, a3: Byte, x0: Byte, x1: Byte, q0: Byte, q2: Byte,
               t0: Byte, t1: Byte, t2: Byte, t3: Byte)
    ensures Xor(Xor(a0, Xor(q0, q2)),
                 Xor(Xor(Xor(a0, a1), Xor(a2, a3)),
                      Xor(Xor(x0, x1), Xor(Xor(t0, t1), Xor(t2, t3)))))
         == Xor(Xor(Xor(Xor(Xor(t0, q0), x0), Xor(Xor(t1, x1), a1)), Xor(Xor(t2, q2), a2)),
                 Xor(t3, a3))
  {
    var q, x, t := Xor(q0, q2), Xor(x0, x1), Xor(t0, t1);
    // the left side is ((q + x) + (t + (t2 + t3))) + ((a1 + a2) + a3)
    FirstOut(a0, q, Xor(Xor(a0, a1), Xor(a2, a3)), x, Xor(t, Xor(t2, t3)));
    Assoc(a0, Xor(a0, a1), Xor(a2, a3));
    Cancel(a1, a0);
    Assoc(a1, a2, a3);
    // the right side is (((p0 + p1) + p2) + t3) + ((a1 + a2) + a3)
    var p0, p1, p2 := Xor(Xor(t0, q0), x0), Xor(t1, x1), Xor(t2, q2);
    Assoc(p0, p1, a1);
    Exchange(Xor(p0, p1), a1, p2, a2);
    Exchange(Xor(Xor(p0, p1), p2), Xor(a1, a2), t3, a3);
    // p0 + p1 == (t + q0) + x, then (p0 + p1) + p2 == (t + t2) + (q + x)
    Exchange(Xor(t0, q0), x0, t1, x1);
    Swap(t0, q0, t1);
    Assoc(t, q0, x);
    Exchange(t, Xor(q0, x), t2, q2);
    Swap(q0, x, q2);
    // and with t3 at the end
    Swap(Xor(t, t2), Xor(q, x), t3);
    Assoc(t, t2, t3);
    Comm(Xor(t, Xor(t2, t3)), Xor(q, x));
  }

  lemma TrickOfSquareIsFipsInvMix(c: Column)
    ensures Trick(Square(c)) == FipsInvMix(c)
  {
    var Column(a0, a1, a2, a3) := c;
    TrickOfSquare(c);
    TimesLarge(a0);
    TimesLarge(a1);
    TimesLarge(a2);
    TimesLarge(a3);
    QuadXor(a0, a2);
    DblXor(a0, a1);
    QuadXor(Xor(a0, a1), Xor(a2, a3));
    QuadXor(a0, a1);
    QuadXor(a2, a3);
    DblXor(Quad(Xor(a0, a1)), Quad(Xor(a2, a3)));
    DblXor(Quad(a0), Quad(a1));
    DblXor(Quad(a2), Quad(a3));
    Gather(a0, a1, a2, a3, Dbl(a0), Dbl(a1), Quad(a0), Quad(a2),
           Dbl(Quad(a0)), Dbl(Quad(a1)), Dbl(Quad(a2)), Dbl(Quad(a3)));
  }

  lemma InvMixIsMixOfSquare(c: Column)
    ensures InvMix(c) == Mix(Square(c))
  {
    var c1 := c.Rotate();
    var c2 := c1.Rotate();
    var c3 := c2.Rotate();
    TrickOfSquareIsFipsInvMix(c);
    TrickOfSquareIsFipsInvMix(c1);
    TrickOfSquareIsFipsInvMix(c2);
    TrickOfSquareIsFipsInvMix(c3);
    Comm(c.a0, c.a2);
    Comm(c.a1, c.a3);
    assert Square(c1) == Square(c).Rotate() && Square(c2) == Square(c1).Rotate() && Square(c3) == Square(c2).Rotate();
  }

  /** The two matrices are inverse to each other, either way round. */
  lemma MixInverse(c: Column)
    ensures InvMix(Mix(c)) == c
    ensures Mix(InvMix(c)) == c
  {
    InvMixIsMixOfSquare(Mix(c));
    MixTwice(Mix(c));
    MixTwice(c);
    MixTwice(Square(c));
    SquareTwice(c);
    assert Mix(Mix(Mix(c))) == Square(Mix(c));
    InvMixIsMixOfSquare(c);
  }
}
