/** One column of the AES state: the column mix and its inverse
    (`mixColumns` and `invMixColumns`, QuickDesk/base/qaesencryption.cpp). */
module AesColumn {
  import opened AesField

  datatype Column = Column(b0: bv8, b1: bv8, b2: bv8, b3: bv8)

  function Add(x: Column, y: Column): (r: Column) {
    Column(Xor(x.b0, y.b0), Xor(x.b1, y.b1), Xor(x.b2, y.b2), Xor(x.b3, y.b3))
  }

  function Mix(c: Column): (r: Column) {
    Column(
      Xor4(XTime(c.b0), By03(c.b1), c.b2, c.b3),
      Xor4(c.b0, XTime(c.b1), By03(c.b2), c.b3),
      Xor4(c.b0, c.b1, XTime(c.b2), By03(c.b3)),
      Xor4(By03(c.b0), c.b1, c.b2, XTime(c.b3)))
  }

  function InvMix(c: Column): (r: Column) {
    Column(
      Xor4(By0e(c.b0), By0b(c.b1), By0d(c.b2), By09(c.b3)),
      Xor4(By09(c.b0), By0e(c.b1), By0b(c.b2), By0d(c.b3)),
      Xor4(By0d(c.b0), By09(c.b1), By0e(c.b2), By0b(c.b3)),
      Xor4(By0b(c.b0), By0d(c.b1), By09(c.b2), By0e(c.b3)))
  }

  // ---- Both are the matrix products of FIPS 197 ----

  /** A row of coefficients times a column, in the field. */
  function RowProduct(m0: bv8, m1: bv8, m2: bv8, m3: bv8, c: Column): (r: bv8) {
    Xor4(FieldProduct(c.b0, m0), FieldProduct(c.b1, m1), FieldProduct(c.b2, m2), FieldProduct(c.b3, m3))
  }

  /** The column mix is the matrix product of section 5.1.3 of FIPS 197. */
  lemma MixIsMatrixProduct(c: Column)
    ensures Mix(c).b0 == RowProduct(0x02, 0x03, 0x01, 0x01, c)
    ensures Mix(c).b1 == RowProduct(0x01, 0x02, 0x03, 0x01, c)
    ensures Mix(c).b2 == RowProduct(0x01, 0x01, 0x02, 0x03, c)
    ensures Mix(c).b3 == RowProduct(0x03, 0x01, 0x01, 0x02, c)
  {
    hide Xor4, XTime, By03, FieldProduct;
    MixMultipliers(c.b0);
    MixMultipliers(c.b1);
    MixMultipliers(c.b2);
    MixMultipliers(c.b3);
  }

  lemma MixMultipliers(x: bv8)
    ensures FieldProduct(x, 0x01) == x
    ensures FieldProduct(x, 0x02) == XTime(x)
    ensures FieldProduct(x, 0x03) == By03(x)
  {
    hide XTime, By03, FieldProduct;
    FieldProductBy01(x);
    FieldProductBy02(x);
    FieldProductBy03(x);
  }

  /** The inverse mix is the matrix product of section 5.3.3 of FIPS 197. */
  lemma InvMixIsMatrixProduct(c: Column)
    ensures InvMix(c).b0 == RowProduct(0x0e, 0x0b, 0x0d, 0x09, c)
    ensures InvMix(c).b1 == RowProduct(0x09, 0x0e, 0x0b, 0x0d, c)
    ensures InvMix(c).b2 == RowProduct(0x0d, 0x09, 0x0e, 0x0b, c)
    ensures InvMix(c).b3 == RowProduct(0x0b, 0x0d, 0x09, 0x0e, c)
  {
    hide Xor4, By09, By0b, By0d, By0e, FieldProduct;
    InvMixMultipliers(c.b0);
    InvMixMultipliers(c.b1);
    InvMixMultipliers(c.b2);
    InvMixMultipliers(c.b3);
  }

  lemma InvMixMultipliers(x: bv8)
    ensures FieldProduct(x, 0x09) == By09(x) && FieldProduct(x, 0x0b) == By0b(x)
    ensures FieldProduct(x, 0x0d) == By0d(x) && FieldProduct(x, 0x0e) == By0e(x)
  {
    hide By09, By0b, By0d, By0e, FieldProduct;
    FieldProductBy09(x);
    FieldProductBy0b(x);
    FieldProductBy0d(x);
    FieldProductBy0e(x);
  }

  // ---- Both are linear ----

  lemma MixLinear(x: Column, y: Column)
    ensures Mix(Add(x, y)) == Add(Mix(x), Mix(y))
  {
    hide Xor, Xor4, XTime, By03;
    LinearAt(x.b0, y.b0);
    LinearAt(x.b1, y.b1);
    LinearAt(x.b2, y.b2);
    LinearAt(x.b3, y.b3);
    Xor4Swap(XTime(x.b0), By03(x.b1), x.b2, x.b3, XTime(y.b0), By03(y.b1), y.b2, y.b3);
    Xor4Swap(x.b0, XTime(x.b1), By03(x.b2), x.b3, y.b0, XTime(y.b1), By03(y.b2), y.b3);
    Xor4Swap(x.b0, x.b1, XTime(x.b2), By03(x.b3), y.b0, y.b1, XTime(y.b2), By03(y.b3));
    Xor4Swap(By03(x.b0), x.b1, x.b2, XTime(x.b3), By03(y.b0), y.b1, y.b2, XTime(y.b3));
  }

  lemma LinearAt(a: bv8, b: bv8)
    ensures XTime(Xor(a, b)) == Xor(XTime(a), XTime(b))
    ensures By03(Xor(a, b)) == Xor(By03(a), By03(b))
    ensures By09(Xor(a, b)) == Xor(By09(a), By09(b))
    ensures By0b(Xor(a, b)) == Xor(By0b(a), By0b(b))
    ensures By0d(Xor(a, b)) == Xor(By0d(a), By0d(b))
    ensures By0e(Xor(a, b)) == Xor(By0e(a), By0e(b))
  {
    hide Xor, XTime, By03, By09, By0b, By0d, By0e;
    XTimeLinear(a, b);
    MultipliersLinear(a, b);
  }

  lemma InvMixLinear(x: Column, y: Column)
    ensures InvMix(Add(x, y)) == Add(InvMix(x), InvMix(y))
  {
    hide Xor, Xor4, By09, By0b, By0d, By0e;
    LinearAt(x.b0, y.b0);
    LinearAt(x.b1, y.b1);
    LinearAt(x.b2, y.b2);
    LinearAt(x.b3, y.b3);
    Xor4Swap(By0e(x.b0), By0b(x.b1), By0d(x.b2), By09(x.b3), By0e(y.b0), By0b(y.b1), By0d(y.b2), By09(y.b3));
    Xor4Swap(By09(x.b0), By0e(x.b1), By0b(x.b2), By0d(x.b3), By09(y.b0), By0e(y.b1), By0b(y.b2), By0d(y.b3));
    Xor4Swap(By0d(x.b0), By09(x.b1), By0e(x.b2), By0b(x.b3), By0d(y.b0), By09(y.b1), By0e(y.b2), By0b(y.b3));
    Xor4Swap(By0b(x.b0), By0d(x.b1), By09(x.b2), By0e(x.b3), By0b(y.b0), By0d(y.b1), By09(y.b2), By0e(y.b3));
  }

  // ---- Both commute with rotating the column ----

  function Rotate(c: Column): (r: Column) {
    Column(c.b3, c.b0, c.b1, c.b2)
  }

  lemma Xor4Rotate(a: bv8, b: bv8, c: bv8, d: bv8)
    ensures Xor4(d, a, b, c) == Xor4(a, b, c, d)
  {
    hide Xor;
    XorAssociative(d, a, b);
    XorAssociative(d, Xor(a, b), c);
    XorCommutative(d, Xor(Xor(a, b), c));
  }

  lemma MixRotates(c: Column)
    ensures Mix(Rotate(c)) == Rotate(Mix(c))
  {
    hide Xor4, XTime, By03;
    Xor4Rotate(XTime(c.b0), By03(c.b1), c.b2, c.b3);
    Xor4Rotate(c.b0, XTime(c.b1), By03(c.b2), c.b3);
    Xor4Rotate(c.b0, c.b1, XTime(c.b2), By03(c.b3));
    Xor4Rotate(By03(c.b0), c.b1, c.b2, XTime(c.b3));
  }

  lemma InvMixRotates(c: Column)
    ensures InvMix(Rotate(c)) == Rotate(InvMix(c))
  {
    hide Xor4, By09, By0b, By0d, By0e;
    Xor4Rotate(By0e(c.b0), By0b(c.b1), By0d(c.b2), By09(c.b3));
    Xor4Rotate(By09(c.b0), By0e(c.b1), By0b(c.b2), By0d(c.b3));
    Xor4Rotate(By0d(c.b0), By09(c.b1), By0e(c.b2), By0b(c.b3));
    Xor4Rotate(By0b(c.b0), By0d(c.b1), By09(c.b2), By0e(c.b3));
  }

  // ---- The optimised mix ----

  /** Byte `x` of a column, mixed with the sum of the column and one doubling. */
  function Shared(x: bv8, next: bv8, sum: bv8): (r: bv8) {
    Xor(Xor(x, XTime(Xor(x, next))), sum)
  }

  lemma SharedByte(x: bv8, y: bv8, u: bv8, v: bv8)
    ensures Shared(x, y, Xor4(x, y, u, v)) == Xor4(XTime(x), By03(y), u, v)
  {
    hide Xor, XTime;
    var p, c := Xor(x, XTime(Xor(x, y))), Xor(x, y);
    XTimeLinear(x, y);
    XorAssociative(p, Xor(c, u), v);
    XorAssociative(p, c, u);
    XorSwap(x, XTime(c), x, y);
    XorSelf(x);
    XorZero(Xor(XTime(c), y));
    XorAssociative(XTime(x), XTime(y), y);
    XorCommutative(XTime(y), y);
  }

  /** One doubling for each byte and one shared sum give the mixed column. */
  lemma SharedMix(c: Column, sum: bv8)
    requires sum == Xor4(c.b0, c.b1, c.b2, c.b3)
    ensures Mix(c) == Column(Shared(c.b0, c.b1, sum), Shared(c.b1, c.b2, sum),
                             Shared(c.b2, c.b3, sum), Shared(c.b3, c.b0, sum))
  {
    hide Xor4, XTime, By03, Shared;
    SharedByte(c.b0, c.b1, c.b2, c.b3);
    SharedByte(c.b1, c.b2, c.b3, c.b0);
    SharedByte(c.b2, c.b3, c.b0, c.b1);
    SharedByte(c.b3, c.b0, c.b1, c.b2);
    Xor4Rotate(c.b0, c.b1, c.b2, c.b3);
    Xor4Rotate(c.b3, c.b0, c.b1, c.b2);
    Xor4Rotate(c.b2, c.b3, c.b0, c.b1);
    Xor4Rotate(XTime(c.b1), By03(c.b2), c.b3, c.b0);
    Xor4Rotate(XTime(c.b2), By03(c.b3), c.b0, c.b1);
    Xor4Rotate(c.b1, XTime(c.b2), By03(c.b3), c.b0);
    Xor4Rotate(By03(c.b0), c.b1, c.b2, XTime(c.b3));
  }

  lemma UndoRotates(c: Column)
    requires InvMix(Mix(c)) == c
    ensures InvMix(Mix(Rotate(c))) == Rotate(c)
  {
    hide Mix, InvMix;
    MixRotates(c);
    InvMixRotates(Mix(c));
  }

  lemma UndoAdds(x: Column, y: Column)
    requires InvMix(Mix(x)) == x && InvMix(Mix(y)) == y
    ensures InvMix(Mix(Add(x, y))) == Add(x, y)
  {
    hide Mix, InvMix, Add;
    MixLinear(x, y);
    InvMixLinear(Mix(x), Mix(y));
  }

  // ---- So it is enough to undo the mix of a single non-zero byte ----

  /** The first column of the product of the two matrices is (1, 0, 0, 0). */
  lemma MatrixEntry0(a: bv8)
    ensures Xor4(By0e(XTime(a)), By0b(a), By0d(a), By09(By03(a))) == a
  {
  }

  lemma MatrixEntry1(a: bv8)
    ensures Xor4(By09(XTime(a)), By0e(a), By0b(a), By0d(By03(a))) == 0
  {
  }

  lemma MatrixEntry2(a: bv8)
    ensures Xor4(By0d(XTime(a)), By09(a), By0e(a), By0b(By03(a))) == 0
  {
  }

  lemma MatrixEntry3(a: bv8)
    ensures Xor4(By0b(XTime(a)), By0d(a), By09(a), By0e(By03(a))) == 0
  {
  }

  /** A byte alone in its row of a column. */
  lemma InvMixUndoesMix0(a: bv8)
    ensures InvMix(Mix(Column(a, 0, 0, 0))) == Column(a, 0, 0, 0)
  {
    hide Xor, Xor4, XTime, By03, By09, By0b, By0d, By0e;
    MixOfZero();
    XorZeros(XTime(a));
    XorZeros(a);
    XorZeros(By03(a));
    assert Mix(Column(a, 0, 0, 0)) == Column(XTime(a), a, a, By03(a));
    MatrixEntry0(a);
    MatrixEntry1(a);
    MatrixEntry2(a);
    MatrixEntry3(a);
  }

  lemma MixOfZero()
    ensures XTime(0) == 0 && By03(0) == 0
  {
  }

  lemma XorZeros(a: bv8)
    ensures Xor4(a, 0, 0, 0) == a && Xor4(0, a, 0, 0) == a && Xor4(0, 0, a, 0) == a && Xor4(0, 0, 0, a) == a
  {
    hide Xor;
    XorZero(a);
    XorZero(0);
  }

  lemma AddSingles(c: Column)
    ensures c == Add(Add(Column(c.b0, 0, 0, 0), Column(0, c.b1, 0, 0)),
                     Add(Column(0, 0, c.b2, 0), Column(0, 0, 0, c.b3)))
  {
    hide Xor;
    XorZero(c.b0);
    XorZero(c.b1);
    XorZero(c.b2);
    XorZero(c.b3);
    XorZero(0);
  }

  /** The inverse column mix undoes the column mix, on every column. */
  lemma InvMixUndoesMix(c: Column)
    ensures InvMix(Mix(c)) == c
  {
    hide Mix, InvMix, Add;
    var c0, c1 := Column(c.b0, 0, 0, 0), Column(c.b1, 0, 0, 0);
    var c2, c3 := Column(c.b2, 0, 0, 0), Column(c.b3, 0, 0, 0);
    InvMixUndoesMix0(c.b0);
    InvMixUndoesMix0(c.b1);
    UndoRotates(c1);
    InvMixUndoesMix0(c.b2);
    UndoRotates(c2);
    UndoRotates(Rotate(c2));
    InvMixUndoesMix0(c.b3);
    UndoRotates(c3);
    UndoRotates(Rotate(c3));
    UndoRotates(Rotate(Rotate(c3)));
    UndoAdds(c0, Rotate(c1));
    UndoAdds(Rotate(Rotate(c2)), Rotate(Rotate(Rotate(c3))));
    UndoAdds(Add(c0, Rotate(c1)), Add(Rotate(Rotate(c2)), Rotate(Rotate(Rotate(c3)))));
    AddSingles(c);
  }
}
