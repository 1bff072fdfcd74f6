// MixColumns and its inverse on one column of four bytes.
module AesColumns {
  import opened Bytes
  import opened AesTables

  datatype Column = Column(b0: Byte, b1: Byte, b2: Byte, b3: Byte)

  function Sum4(a: Byte, b: Byte, c: Byte, d: Byte): Byte { Xor8(Xor8(Xor8(a, b), c), d) }

  function MixColumn(c: Column): Column {
    Column(
      Sum4(Mul02(c.b0), Mul03(c.b1), c.b2, c.b3),
      Sum4(c.b0, Mul02(c.b1), Mul03(c.b2), c.b3),
      Sum4(c.b0, c.b1, Mul02(c.b2), Mul03(c.b3)),
      Sum4(Mul03(c.b0), c.b1, c.b2, Mul02(c.b3)))
  }

  function InvMixColumn(c: Column): Column {
    Column(
      Sum4(Mul0E(c.b0), Mul0B(c.b1), Mul0D(c.b2), Mul09(c.b3)),
      Sum4(Mul09(c.b0), Mul0E(c.b1), Mul0B(c.b2), Mul0D(c.b3)),
      Sum4(Mul0D(c.b0), Mul09(c.b1), Mul0E(c.b2), Mul0B(c.b3)),
      Sum4(Mul0B(c.b0), Mul0D(c.b1), Mul09(c.b2), Mul0E(c.b3)))
  }

  // ---- both are linear maps on columns ----

  function AddColumns(c: Column, d: Column): Column {
    Column(Xor8(c.b0, d.b0), Xor8(c.b1, d.b1), Xor8(c.b2, d.b2), Xor8(c.b3, d.b3))
  }

  lemma Sum4Linear(a: Byte, b: Byte, c: Byte, d: Byte, e: Byte, f: Byte, g: Byte, h: Byte)
    ensures Sum4(Xor8(a, e), Xor8(b, f), Xor8(c, g), Xor8(d, h)) == Xor8(Sum4(a, b, c, d), Sum4(e, f, g, h))
  {
    hide Xor8;
    XorMedial(a, e, b, f);
    XorMedial(Xor8(a, b), Xor8(e, f), c, g);
    XorMedial(Xor8(Xor8(a, b), c), Xor8(Xor8(e, f), g), d, h);
  }

  lemma MixColumnLinear(c: Column, d: Column)
    ensures MixColumn(AddColumns(c, d)) == AddColumns(MixColumn(c), MixColumn(d))
  {
    hide Xor8, Sum4, Mul02, Mul03;
    Mul02Linear(c.b0, d.b0); Mul02Linear(c.b1, d.b1); Mul02Linear(c.b2, d.b2); Mul02Linear(c.b3, d.b3);
    Mul03Linear(c.b0, d.b0); Mul03Linear(c.b1, d.b1); Mul03Linear(c.b2, d.b2); Mul03Linear(c.b3, d.b3);
    Sum4Linear(Mul02(c.b0), Mul03(c.b1), c.b2, c.b3, Mul02(d.b0), Mul03(d.b1), d.b2, d.b3);
    Sum4Linear(c.b0, Mul02(c.b1), Mul03(c.b2), c.b3, d.b0, Mul02(d.b1), Mul03(d.b2), d.b3);
    Sum4Linear(c.b0, c.b1, Mul02(c.b2), Mul03(c.b3), d.b0, d.b1, Mul02(d.b2), Mul03(d.b3));
    Sum4Linear(Mul03(c.b0), c.b1, c.b2, Mul02(c.b3), Mul03(d.b0), d.b1, d.b2, Mul02(d.b3));
  }

  lemma InvMixColumnLinear(c: Column, d: Column)
    ensures InvMixColumn(AddColumns(c, d)) == AddColumns(InvMixColumn(c), InvMixColumn(d))
  {
    hide Xor8, Sum4, Mul09, Mul0B, Mul0D, Mul0E;
    Mul09Linear(c.b0, d.b0); Mul09Linear(c.b1, d.b1); Mul09Linear(c.b2, d.b2); Mul09Linear(c.b3, d.b3);
    Mul0BLinear(c.b0, d.b0); Mul0BLinear(c.b1, d.b1); Mul0BLinear(c.b2, d.b2); Mul0BLinear(c.b3, d.b3);
    Mul0DLinear(c.b0, d.b0); Mul0DLinear(c.b1, d.b1); Mul0DLinear(c.b2, d.b2); Mul0DLinear(c.b3, d.b3);
    Mul0ELinear(c.b0, d.b0); Mul0ELinear(c.b1, d.b1); Mul0ELinear(c.b2, d.b2); Mul0ELinear(c.b3, d.b3);
    Sum4Linear(Mul0E(c.b0), Mul0B(c.b1), Mul0D(c.b2), Mul09(c.b3), Mul0E(d.b0), Mul0B(d.b1), Mul0D(d.b2), Mul09(d.b3));
    Sum4Linear(Mul09(c.b0), Mul0E(c.b1), Mul0B(c.b2), Mul0D(c.b3), Mul09(d.b0), Mul0E(d.b1), Mul0B(d.b2), Mul0D(d.b3));
    Sum4Linear(Mul0D(c.b0), Mul09(c.b1), Mul0E(c.b2), Mul0B(c.b3), Mul0D(d.b0), Mul09(d.b1), Mul0E(d.b2), Mul0B(d.b3));
    Sum4Linear(Mul0B(c.b0), Mul0D(c.b1), Mul09(c.b2), Mul0E(c.b3), Mul0B(d.b0), Mul0D(d.b1), Mul09(d.b2), Mul0E(d.b3));
  }

  // ---- the inverse, on columns with one nonzero byte ----

  // The cancellations behind the coefficient identities, for the powers p of doubling.
  lemma Cancel0(p0: Byte, p1: Byte, p2: Byte, p3: Byte, p4: Byte)
    ensures Sum4(Xor8(p4, Xor8(p3, p2)), Xor8(p3, Xor8(p1, p0)),
                 Xor8(p3, Xor8(p2, p0)), Xor8(Xor8(p4, p1), Xor8(p3, p0))) == p0
  {
  }

  lemma Cancel1(p0: Byte, p1: Byte, p2: Byte, p3: Byte, p4: Byte)
    ensures Sum4(Xor8(p4, p1), Xor8(p3, Xor8(p2, p1)),
                 Xor8(p3, Xor8(p1, p0)), Xor8(Xor8(p4, Xor8(p3, p1)), Xor8(p3, Xor8(p2, p0)))) == 0
  {
  }

  lemma Cancel2(p0: Byte, p1: Byte, p2: Byte, p3: Byte, p4: Byte)
    ensures Sum4(Xor8(p4, Xor8(p3, p1)), Xor8(p3, p0),
                 Xor8(p3, Xor8(p2, p1)), Xor8(Xor8(p4, Xor8(p2, p1)), Xor8(p3, Xor8(p1, p0)))) == 0
  {
    assert (((p4 ^ (p3 ^ p1)) ^ (p3 ^ p0)) ^ (p3 ^ (p2 ^ p1))) ^ ((p4 ^ (p2 ^ p1)) ^ (p3 ^ (p1 ^ p0))) == 0;
  }

  lemma Cancel3(p0: Byte, p1: Byte, p2: Byte, p3: Byte, p4: Byte)
    ensures Sum4(Xor8(p4, Xor8(p2, p1)), Xor8(p3, Xor8(p2, p0)),
                 Xor8(p3, p0), Xor8(Xor8(p4, Xor8(p3, p2)), Xor8(p3, Xor8(p2, p1)))) == 0
  {
    assert (((p4 ^ (p2 ^ p1)) ^ (p3 ^ (p2 ^ p0))) ^ (p3 ^ p0)) ^ ((p4 ^ (p3 ^ p2)) ^ (p3 ^ (p2 ^ p1))) == 0;
  }

  // The rows of the inverse matrix against the column 02 01 01 03: one, and three times zero.
  lemma Coefficients(x: Byte)
    ensures Sum4(Mul0E(Mul02(x)), Mul0B(x), Mul0D(x), Mul09(Mul03(x))) == x
    ensures Sum4(Mul09(Mul02(x)), Mul0E(x), Mul0B(x), Mul0D(Mul03(x))) == 0
    ensures Sum4(Mul0D(Mul02(x)), Mul09(x), Mul0E(x), Mul0B(Mul03(x))) == 0
    ensures Sum4(Mul0B(Mul02(x)), Mul0D(x), Mul09(x), Mul0E(Mul03(x))) == 0
  {
    hide Sum4, Xor8, Xtime, Mul02, Mul03, Mul09, Mul0B, Mul0D, Mul0E;
    var p1 := Xtime(x);
    var p2 := Xtime(p1);
    var p3 := Xtime(p2);
    var p4 := Xtime(p3);
    Mul02IsDouble(x);
    Mul03IsTriple(x);
    Mul09IsNine(x); Mul09IsNine(p1); Mul09Linear(p1, x);
    Mul0BIsEleven(x); Mul0BIsEleven(p1); Mul0BLinear(p1, x);
    Mul0DIsThirteen(x); Mul0DIsThirteen(p1); Mul0DLinear(p1, x);
    Mul0EIsFourteen(x); Mul0EIsFourteen(p1); Mul0ELinear(p1, x);
    Cancel0(x, p1, p2, p3, p4);
    Cancel1(x, p1, p2, p3, p4);
    Cancel2(x, p1, p2, p3, p4);
    Cancel3(x, p1, p2, p3, p4);
  }

  lemma Sum4Rotate(a: Byte, b: Byte, c: Byte, d: Byte)
    ensures Sum4(a, b, c, d) == Sum4(b, c, d, a)
  {
    hide Xor8;
    XorCommutes(a, b);
    XorAssociates(Xor8(b, a), c, d);
    XorAssociates(b, a, Xor8(c, d));
    XorCommutes(a, Xor8(c, d));
    XorAssociates(c, d, a);
    XorAssociates(b, c, Xor8(d, a));
    XorAssociates(Xor8(b, c), d, a);
  }

  lemma Rotations(a: Byte, b: Byte, c: Byte, d: Byte)
    ensures Sum4(a, b, c, d) == Sum4(b, c, d, a) == Sum4(c, d, a, b) == Sum4(d, a, b, c)
  {
    hide Sum4;
    Sum4Rotate(a, b, c, d);
    Sum4Rotate(b, c, d, a);
    Sum4Rotate(c, d, a, b);
  }

  lemma ProductsOfZero()
    ensures Mul02(0) == 0 && Mul03(0) == 0
  {
  }

  lemma Sum4Zero(x: Byte)
    ensures Sum4(x, 0, 0, 0) == x && Sum4(0, x, 0, 0) == x && Sum4(0, 0, x, 0) == x && Sum4(0, 0, 0, x) == x
  {
  }

  // A single byte in any of the four places survives mixing and unmixing.
  lemma UnmixOne(x: Byte)
    ensures InvMixColumn(MixColumn(Column(x, 0, 0, 0))) == Column(x, 0, 0, 0)
    ensures InvMixColumn(MixColumn(Column(0, x, 0, 0))) == Column(0, x, 0, 0)
    ensures InvMixColumn(MixColumn(Column(0, 0, x, 0))) == Column(0, 0, x, 0)
    ensures InvMixColumn(MixColumn(Column(0, 0, 0, x))) == Column(0, 0, 0, x)
  {
    hide Sum4, Xor8, Mul02, Mul03, Mul09, Mul0B, Mul0D, Mul0E;
    ProductsOfZero();
    Coefficients(x);
    var u, t := Mul02(x), Mul03(x);
    Sum4Zero(u);
    Sum4Zero(t);
    Sum4Zero(x);
    assert MixColumn(Column(x, 0, 0, 0)) == Column(u, x, x, t);
    assert MixColumn(Column(0, x, 0, 0)) == Column(t, u, x, x);
    assert MixColumn(Column(0, 0, x, 0)) == Column(x, t, u, x);
    assert MixColumn(Column(0, 0, 0, x)) == Column(x, x, t, u);
    Rotations(Mul0E(u), Mul0B(x), Mul0D(x), Mul09(t));
    Rotations(Mul09(u), Mul0E(x), Mul0B(x), Mul0D(t));
    Rotations(Mul0D(u), Mul09(x), Mul0E(x), Mul0B(t));
    Rotations(Mul0B(u), Mul0D(x), Mul09(x), Mul0E(t));
  }

  lemma AddColumnsZero(b0: Byte, b1: Byte, b2: Byte, b3: Byte)
    ensures Column(b0, b1, b2, b3) ==
      AddColumns(AddColumns(Column(b0, 0, 0, 0), Column(0, b1, 0, 0)),
                 AddColumns(Column(0, 0, b2, 0), Column(0, 0, 0, b3)))
  {
    hide Xor8;
    XorWithZero(b0); XorWithZero(b1); XorWithZero(b2); XorWithZero(b3); XorWithZero(0);
  }

  lemma XorWithZero(b: Byte)
    ensures Xor8(b, 0) == b && Xor8(0, b) == b
  {
  }

  // InvMixColumns undoes MixColumns on every column.
  lemma InvMixOfMix(c: Column)
    ensures InvMixColumn(MixColumn(c)) == c
  {
    hide MixColumn, InvMixColumn, AddColumns;
    var c0, c1, c2, c3 := Column(c.b0, 0, 0, 0), Column(0, c.b1, 0, 0), Column(0, 0, c.b2, 0), Column(0, 0, 0, c.b3);
    var left, right := AddColumns(c0, c1), AddColumns(c2, c3);
    AddColumnsZero(c.b0, c.b1, c.b2, c.b3);
    MixColumnLinear(c0, c1);
    MixColumnLinear(c2, c3);
    MixColumnLinear(left, right);
    InvMixColumnLinear(MixColumn(c0), MixColumn(c1));
    InvMixColumnLinear(MixColumn(c2), MixColumn(c3));
    InvMixColumnLinear(MixColumn(left), MixColumn(right));
    UnmixOne(c.b0);
    UnmixOne(c.b1);
    UnmixOne(c.b2);
    UnmixOne(c.b3);
  }
}
