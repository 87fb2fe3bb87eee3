/** Arithmetic on AES bytes (the anonymous namespace of QuickDesk/base/qaesencryption.cpp),
    and the finite field of section 4 of FIPS 197 that it stands for. */
module AesField {

  function Xor(a: bv8, b: bv8): (r: bv8) { a ^ b }

  /** `xTime`: shift left one bit and fold the carry back with 0x1b. */
  function XTime(x: bv8): (r: bv8) {
    (x << 1) ^ (((x >> 7) & 1) * 0x1b)
  }

  /** A term of `multiply`: `v` or nothing, by a bit. */
  function Select(bit: bv8, v: bv8): (r: bv8) { bit * v }

  /** `multiply`: the sum of the doublings of `x` picked out by the five low bits of `y`. */
  function Multiply(x: bv8, y: bv8): (r: bv8) {
    var x1 := XTime(x);
    var x2 := XTime(x1);
    var x3 := XTime(x2);
    var x4 := XTime(x3);
    Xor(Xor4(Select(y & 1, x), Select((y >> 1) & 1, x1), Select((y >> 2) & 1, x2), Select((y >> 3) & 1, x3)),
        Select((y >> 4) & 1, x4))
  }

  // ---- Xor makes the bytes a group in which every element undoes itself ----

  lemma XorAssociative(a: bv8, b: bv8, c: bv8)
    ensures Xor(Xor(a, b), c) == Xor(a, Xor(b, c))
  {
  }

  lemma XorCommutative(a: bv8, b: bv8)
    ensures Xor(a, b) == Xor(b, a)
  {
  }

  lemma XorZero(a: bv8)
    ensures Xor(a, 0) == a && Xor(0, a) == a
  {
  }

  lemma XorSelf(a: bv8)
    ensures Xor(a, a) == 0
  {
  }

  lemma XorCancels(a: bv8, b: bv8)
    ensures Xor(Xor(a, b), b) == a
  {
  }

  lemma XorSwap(a: bv8, b: bv8, c: bv8, d: bv8)
    ensures Xor(Xor(a, b), Xor(c, d)) == Xor(Xor(a, c), Xor(b, d))
  {
    hide Xor;
    XorAssociative(a, b, Xor(c, d));
    XorAssociative(b, c, d);
    XorCommutative(b, c);
    XorAssociative(c, b, d);
    XorAssociative(a, c, Xor(b, d));
  }

  function Xor4(a: bv8, b: bv8, c: bv8, d: bv8): (r: bv8) {
    Xor(Xor(Xor(a, b), c), d)
  }

  lemma Xor4Swap(a: bv8, b: bv8, c: bv8, d: bv8, e: bv8, f: bv8, g: bv8, h: bv8)
    ensures Xor4(Xor(a, e), Xor(b, f), Xor(c, g), Xor(d, h)) == Xor(Xor4(a, b, c, d), Xor4(e, f, g, h))
  {
    hide Xor;
    XorSwap(a, e, b, f);
    XorSwap(Xor(a, b), Xor(e, f), c, g);
    XorSwap(Xor(Xor(a, b), c), Xor(Xor(e, f), g), d, h);
  }

  // ---- The field, independently of `xTime` ----

  /** The product of two bytes read as polynomials over GF(2), before reduction. */
  function PolynomialProduct(x: bv8, y: bv8): (p: bv16) {
    var w := x as bv16;
    (if y & 0x01 == 0 then 0 else w)
    ^ (if y & 0x02 == 0 then 0 else w << 1)
    ^ (if y & 0x04 == 0 then 0 else w << 2)
    ^ (if y & 0x08 == 0 then 0 else w << 3)
    ^ (if y & 0x10 == 0 then 0 else w << 4)
    ^ (if y & 0x20 == 0 then 0 else w << 5)
    ^ (if y & 0x40 == 0 then 0 else w << 6)
    ^ (if y & 0x80 == 0 then 0 else w << 7)
  }

  /** One step of the long division by x^8 + x^4 + x^3 + x + 1: clear the bit `top`. */
  function Cancel(p: bv16, top: bv16, multiple: bv16): (q: bv16) {
    if p & top == 0 then p else p ^ multiple
  }

  /** Multiplication in GF(2^8), section 4.2 of FIPS 197: the polynomial product modulo 0x11b. */
  function FieldProduct(x: bv8, y: bv8): (r: bv8) {
    var p6 := Cancel(PolynomialProduct(x, y), 0x4000, 0x46c0);
    var p5 := Cancel(p6, 0x2000, 0x2360);
    var p4 := Cancel(p5, 0x1000, 0x11b0);
    var p3 := Cancel(p4, 0x0800, 0x08d8);
    var p2 := Cancel(p3, 0x0400, 0x046c);
    var p1 := Cancel(p2, 0x0200, 0x0236);
    var p0 := Cancel(p1, 0x0100, 0x011b);
    (p0 & 0xff) as bv8
  }

  // ---- The multipliers of the two column matrices ----

  function By03(x: bv8): (r: bv8) { Xor(x, XTime(x)) }

  function By08(x: bv8): (r: bv8) { XTime(XTime(XTime(x))) }

  function By09(x: bv8): (r: bv8) { Xor(x, By08(x)) }

  function By0b(x: bv8): (r: bv8) { Xor(By03(x), By08(x)) }

  function By0d(x: bv8): (r: bv8) { Xor(Xor(x, XTime(XTime(x))), By08(x)) }

  function By0e(x: bv8): (r: bv8) { Xor(Xor(XTime(x), XTime(XTime(x))), By08(x)) }

  lemma SelectByBit(v: bv8)
    ensures Select(0, v) == 0 && Select(1, v) == v
    ensures Xor(v, 0) == v && Xor(0, v) == v
  {
  }

  /** `multiply` by a constant of the inverse matrix adds up the doublings its bits select. */
  lemma MultiplySelects(x: bv8)
    ensures Multiply(x, 0x09) == By09(x)
    ensures Multiply(x, 0x0b) == By0b(x)
    ensures Multiply(x, 0x0d) == By0d(x)
    ensures Multiply(x, 0x0e) == By0e(x)
  {
    hide Xor, XTime, Select;
    var x1, x2 := XTime(x), XTime(XTime(x));
    SelectByBit(0);
    SelectByBit(x);
    SelectByBit(x1);
    SelectByBit(x2);
    SelectByBit(XTime(x2));
    SelectByBit(XTime(XTime(x2)));
    SelectByBit(By03(x));
    SelectByBit(By09(x));
    SelectByBit(By0b(x));
    SelectByBit(By0d(x));
    SelectByBit(By0e(x));
  }

  lemma FieldProductBy01(x: bv8)
    ensures FieldProduct(x, 0x01) == x
  {
  }

  lemma FieldProductBy02(x: bv8)
    ensures FieldProduct(x, 0x02) == XTime(x)
  {
  }

  lemma FieldProductBy03(x: bv8)
    ensures FieldProduct(x, 0x03) == By03(x)
  {
  }

  lemma FieldProductBy09(x: bv8)
    ensures FieldProduct(x, 0x09) == By09(x)
  {
  }

  lemma FieldProductBy0b(x: bv8)
    ensures FieldProduct(x, 0x0b) == By0b(x)
  {
  }

  lemma FieldProductBy0d(x: bv8)
    ensures FieldProduct(x, 0x0d) == By0d(x)
  {
  }

  lemma FieldProductBy0e(x: bv8)
    ensures FieldProduct(x, 0x0e) == By0e(x)
  {
  }

  // ---- Linearity over xor ----

  lemma XTimeLinear(a: bv8, b: bv8)
    ensures XTime(Xor(a, b)) == Xor(XTime(a), XTime(b))
  {
  }

  /** Multiplication by each matrix constant is linear. */
  lemma MultipliersLinear(a: bv8, b: bv8)
    ensures By03(Xor(a, b)) == Xor(By03(a), By03(b))
    ensures By08(Xor(a, b)) == Xor(By08(a), By08(b))
    ensures By09(Xor(a, b)) == Xor(By09(a), By09(b))
    ensures By0b(Xor(a, b)) == Xor(By0b(a), By0b(b))
    ensures By0d(Xor(a, b)) == Xor(By0d(a), By0d(b))
    ensures By0e(Xor(a, b)) == Xor(By0e(a), By0e(b))
  {
    hide Xor, XTime;
    var a1, b1 := XTime(a), XTime(b);
    var a2, b2 := XTime(a1), XTime(b1);
    XTimeLinear(a, b);
    XTimeLinear(a1, b1);
    XTimeLinear(a2, b2);
    XorSwap(a, b, a1, b1);
    XorSwap(a, b, By08(a), By08(b));
    XorSwap(By03(a), By03(b), By08(a), By08(b));
    XorSwap(a, b, a2, b2);
    XorSwap(Xor(a, a2), Xor(b, b2), By08(a), By08(b));
    XorSwap(a1, b1, a2, b2);
    XorSwap(Xor(a1, a2), Xor(b1, b2), By08(a), By08(b));
  }
}
