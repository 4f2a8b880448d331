/** Bytes as elements of GF(2^8) (section 4 of FIPS 197) and the column matrices of
    MixColumns and its inverse.  Only the first lemmas look at bits; the rest is algebra. */
module AesField {

  type u8 = bv8

  /** Addition. */
  function Xor(a: u8, b: u8): u8 { a ^ b }

  /** Multiplication by x modulo x^8 + x^4 + x^3 + x + 1 (section 4.2.1). */
  function XTime(a: u8): u8 {
    (a << 1) ^ (if a & 0x80 == 0x80 then 0x1b else 0)
  }

  lemma {:induction false} XorComm(a: u8, b: u8)
    ensures Xor(a, b) == Xor(b, a)
  {
  }

  lemma {:induction false} XorAssoc(a: u8, b: u8, c: u8)
    ensures Xor(Xor(a, b), c) == Xor(a, Xor(b, c))
  {
  }

  lemma {:induction false} XorCancel(a: u8, b: u8)
    ensures Xor(a, a) == 0 && Xor(0, a) == a && Xor(a, 0) == a && Xor(Xor(a, b), b) == a
  {
  }

  lemma {:induction false} XTimeBits(a: u8, b: u8)
    ensures XTime(a ^ b) == XTime(a) ^ XTime(b)
  {
    if a & 0x80 == 0x80 {
      if b & 0x80 == 0x80 { } else { }
    } else {
      if b & 0x80 == 0x80 { } else { }
    }
  }

  lemma {:induction false} XTimeXor(a: u8, b: u8)
    ensures XTime(Xor(a, b)) == Xor(XTime(a), XTime(b))
  {
    hide XTime;
    XTimeBits(a, b);
  }

  lemma {:induction false} XorSwap(a: u8, b: u8, c: u8, d: u8)
    ensures Xor(Xor(a, b), Xor(c, d)) == Xor(Xor(a, c), Xor(b, d))
  {
    hide Xor;
    XorAssoc(a, b, Xor(c, d));
    XorAssoc(b, c, d);
    XorComm(b, c);
    XorAssoc(c, b, d);
    XorAssoc(a, c, Xor(b, d));
  }

  // ----------------------------------------------------------- polynomials

  function Pick(c: bool, x: u8): u8 { if c then x else 0 }

  lemma {:induction false} PickSum(c: bool, d: bool, x: u8)
    ensures Xor(Pick(c, x), Pick(d, x)) == Pick(c != d, x)
  {
    hide Xor;
    XorCancel(x, x);
    XorCancel(0, 0);
  }

  lemma {:induction false} PickXor(c: bool, x: u8, y: u8)
    ensures Pick(c, Xor(x, y)) == Xor(Pick(c, x), Pick(c, y))
  {
    hide Xor;
    XorCancel(0, 0);
  }

  function X2(a: u8): u8 { XTime(XTime(a)) }
  function X3(a: u8): u8 { XTime(X2(a)) }
  function X4(a: u8): u8 { XTime(X3(a)) }

  /** The product of a with c4 x^4 + c3 x^3 + c2 x^2 + c1 x + c0. */
  function Poly(c4: bool, c3: bool, c2: bool, c1: bool, c0: bool, a: u8): u8 {
    Xor(Pick(c4, X4(a)), Xor(Pick(c3, X3(a)), Xor(Pick(c2, X2(a)), Xor(Pick(c1, XTime(a)), Pick(c0, a)))))
  }

  /** Coefficients add. */
  lemma {:induction false} PolySum(c4: bool, c3: bool, c2: bool, c1: bool, c0: bool, d4: bool, d3: bool, d2: bool,
                                   d1: bool, d0: bool, a: u8)
    ensures Xor(Poly(c4, c3, c2, c1, c0, a), Poly(d4, d3, d2, d1, d0, a))
            == Poly(c4 != d4, c3 != d3, c2 != d2, c1 != d1, c0 != d0, a)
  {
    hide Xor, XTime, X2, X3, X4, Pick;
    var x1, x2, x3, x4 := XTime(a), X2(a), X3(a), X4(a);
    var s0, t0 := Pick(c0, a), Pick(d0, a);
    var s1, t1 := Xor(Pick(c1, x1), s0), Xor(Pick(d1, x1), t0);
    var s2, t2 := Xor(Pick(c2, x2), s1), Xor(Pick(d2, x2), t1);
    var s3, t3 := Xor(Pick(c3, x3), s2), Xor(Pick(d3, x3), t2);
    XorSwap(Pick(c4, x4), s3, Pick(d4, x4), t3);
    XorSwap(Pick(c3, x3), s2, Pick(d3, x3), t2);
    XorSwap(Pick(c2, x2), s1, Pick(d2, x2), t1);
    XorSwap(Pick(c1, x1), s0, Pick(d1, x1), t0);
    PickSum(c4, d4, x4);
    PickSum(c3, d3, x3);
    PickSum(c2, d2, x2);
    PickSum(c1, d1, x1);
    PickSum(c0, d0, a);
  }

  lemma {:induction false} PowersXor(a: u8, b: u8)
    ensures X2(Xor(a, b)) == Xor(X2(a), X2(b)) && X3(Xor(a, b)) == Xor(X3(a), X3(b))
            && X4(Xor(a, b)) == Xor(X4(a), X4(b))
  {
    hide Xor, XTime;
    XTimeXor(a, b);
    XTimeXor(XTime(a), XTime(b));
    XTimeXor(X2(a), X2(b));
    XTimeXor(X3(a), X3(b));
  }

  /** Multiplication distributes over addition. */
  lemma {:induction false} PolyXor(c4: bool, c3: bool, c2: bool, c1: bool, c0: bool, a: u8, b: u8)
    ensures Poly(c4, c3, c2, c1, c0, Xor(a, b)) == Xor(Poly(c4, c3, c2, c1, c0, a), Poly(c4, c3, c2, c1, c0, b))
  {
    hide Xor, XTime, X2, X3, X4, Pick;
    PowersXor(a, b);
    XTimeXor(a, b);
    PickXor(c4, X4(a), X4(b));
    PickXor(c3, X3(a), X3(b));
    PickXor(c2, X2(a), X2(b));
    PickXor(c1, XTime(a), XTime(b));
    PickXor(c0, a, b);
    var s0, t0 := Pick(c0, a), Pick(c0, b);
    var s1, t1 := Xor(Pick(c1, XTime(a)), s0), Xor(Pick(c1, XTime(b)), t0);
    var s2, t2 := Xor(Pick(c2, X2(a)), s1), Xor(Pick(c2, X2(b)), t1);
    var s3, t3 := Xor(Pick(c3, X3(a)), s2), Xor(Pick(c3, X3(b)), t2);
    XorSwap(Pick(c4, X4(a)), Pick(c4, X4(b)), s3, t3);
    XorSwap(Pick(c3, X3(a)), Pick(c3, X3(b)), s2, t2);
    XorSwap(Pick(c2, X2(a)), Pick(c2, X2(b)), s1, t1);
    XorSwap(Pick(c1, XTime(a)), Pick(c1, XTime(b)), s0, t0);
  }

  /** Multiplying by x raises every power. */
  lemma {:induction false} PolyShift(c3: bool, c2: bool, c1: bool, c0: bool, a: u8)
    ensures Poly(false, c3, c2, c1, c0, XTime(a)) == Poly(c3, c2, c1, c0, false, a)
  {
    hide Xor, XTime;
    XorCancel(Pick(c0, XTime(a)), 0);
    XorCancel(Xor(Pick(c3, X4(a)), Xor(Pick(c2, X3(a)), Xor(Pick(c1, X2(a)), Pick(c0, XTime(a))))), 0);
  }

  // ---------------------------------------------------------------- columns

  // Multiplication by the constants of the two column matrices
  function M2(a: u8): u8 { Poly(false, false, false, true, false, a) }   // {02}
  function M3(a: u8): u8 { Poly(false, false, false, true, true, a) }    // {03}
  function M9(a: u8): u8 { Poly(false, true, false, false, true, a) }    // {09}
  function Mb(a: u8): u8 { Poly(false, true, false, true, true, a) }     // {0b}
  function Md(a: u8): u8 { Poly(false, true, true, false, true, a) }     // {0d}
  function Me(a: u8): u8 { Poly(false, true, true, true, false, a) }     // {0e}

  lemma {:induction false} PolyOne(a: u8)
    ensures Poly(false, false, false, false, true, a) == a && Poly(false, false, false, false, false, a) == 0
  {
    hide Xor, XTime;
    XorCancel(a, a);
    XorCancel(0, 0);
  }

  lemma {:induction false} M2Times(a: u8)
    ensures M2(a) == XTime(a) && M3(a) == Xor(XTime(a), a)
  {
    hide Xor, XTime;
    XorCancel(XTime(a), a);
    XorCancel(Xor(XTime(a), a), a);
    XorCancel(0, 0);
  }

  /** Multiplying by {02} or {03} first multiplies the polynomials. */
  lemma {:induction false} PolyTwoThree(c3: bool, c2: bool, c1: bool, c0: bool, a: u8)
    ensures Poly(false, c3, c2, c1, c0, M2(a)) == Poly(c3, c2, c1, c0, false, a)
    ensures Poly(false, c3, c2, c1, c0, M3(a)) == Poly(c3, c2 != c3, c1 != c2, c0 != c1, c0, a)
  {
    hide Xor, XTime, Poly, M2, M3;
    M2Times(a);
    PolyShift(c3, c2, c1, c0, a);
    PolyXor(false, c3, c2, c1, c0, XTime(a), a);
    PolySum(c3, c2, c1, c0, false, false, c3, c2, c1, c0, a);
  }

  /** A row of the MixColumns matrix, rotated to its column. */
  function MixRow(a: u8, b: u8, c: u8, d: u8): u8 { Xor(Xor(M2(a), M3(b)), Xor(c, d)) }

  /** A row of the InvMixColumns matrix. */
  function InvRow(a: u8, b: u8, c: u8, d: u8): u8 { Xor(Xor(Me(a), Mb(b)), Xor(Md(c), M9(d))) }

  lemma {:induction false} Poly4(c3: bool, c2: bool, c1: bool, c0: bool, a: u8, b: u8, c: u8, d: u8)
    ensures Poly(false, c3, c2, c1, c0, Xor(Xor(a, b), Xor(c, d)))
            == Xor(Xor(Poly(false, c3, c2, c1, c0, a), Poly(false, c3, c2, c1, c0, b)),
                   Xor(Poly(false, c3, c2, c1, c0, c), Poly(false, c3, c2, c1, c0, d)))
  {
    hide Xor, XTime, Poly;
    PolyXor(false, c3, c2, c1, c0, Xor(a, b), Xor(c, d));
    PolyXor(false, c3, c2, c1, c0, a, b);
    PolyXor(false, c3, c2, c1, c0, c, d);
  }

  /** The diagonal of the product of the two matrices is 1 ... */
  lemma {:induction false} ProductOne(a: u8)
    ensures Xor(Xor(Me(M2(a)), Mb(a)), Xor(Md(a), M9(M3(a)))) == a
  {
    hide Xor, XTime, Poly, M2, M3;
    PolyTwoThree(true, true, true, false, a);
    PolyTwoThree(true, false, false, true, a);
    PolySum(true, true, true, false, false, false, true, false, true, true, a);
    PolySum(false, true, true, false, true, true, true, false, true, true, a);
    PolySum(true, false, true, true, true, true, false, true, true, false, a);
    PolyOne(a);
  }

  /** ... and everything off it is 0. */
  lemma {:induction false} ProductZero(a: u8)
    ensures Xor(Xor(Me(M3(a)), Mb(M2(a))), Xor(Md(a), M9(a))) == 0
    ensures Xor(Xor(Me(a), Mb(M3(a))), Xor(Md(M2(a)), M9(a))) == 0
    ensures Xor(Xor(Me(a), Mb(a)), Xor(Md(M3(a)), M9(M2(a)))) == 0
  {
    hide Xor, XTime, Poly, M2, M3;
    PolyTwoThree(true, true, true, false, a);
    PolyTwoThree(true, false, true, true, a);
    PolyTwoThree(true, true, false, true, a);
    PolyTwoThree(true, false, false, true, a);
    PolyOne(a);
    // e*3 + b*2, d + 9
    PolySum(true, false, false, true, false, true, false, true, true, false, a);
    PolySum(false, true, true, false, true, false, true, false, false, true, a);
    PolySum(false, false, true, false, false, false, false, true, false, false, a);
    // e + b*3, d*2 + 9
    PolySum(false, true, true, true, false, true, true, true, false, true, a);
    PolySum(true, true, false, true, false, false, true, false, false, true, a);
    PolySum(true, false, false, true, true, true, false, false, true, true, a);
    // e + b, d*3 + 9*2
    PolySum(false, true, true, true, false, false, true, false, true, true, a);
    PolySum(true, false, true, true, true, true, false, false, true, false, a);
    PolySum(false, false, true, false, true, false, false, true, false, true, a);
  }

  /** Sixteen summands added by rows or by columns. */
  lemma {:induction false} Transpose(a1: u8, b1: u8, c1: u8, d1: u8, a2: u8, b2: u8, c2: u8, d2: u8,
                  a3: u8, b3: u8, c3: u8, d3: u8, a4: u8, b4: u8, c4: u8, d4: u8)
    ensures Xor(Xor(Xor(Xor(a1, b1), Xor(c1, d1)), Xor(Xor(a2, b2), Xor(c2, d2))),
                Xor(Xor(Xor(a3, b3), Xor(c3, d3)), Xor(Xor(a4, b4), Xor(c4, d4))))
            == Xor(Xor(Xor(Xor(a1, a2), Xor(a3, a4)), Xor(Xor(b1, b2), Xor(b3, b4))),
                   Xor(Xor(Xor(c1, c2), Xor(c3, c4)), Xor(Xor(d1, d2), Xor(d3, d4))))
  {
    hide Xor;
    XorSwap(Xor(a1, b1), Xor(c1, d1), Xor(a2, b2), Xor(c2, d2));
    XorSwap(Xor(a3, b3), Xor(c3, d3), Xor(a4, b4), Xor(c4, d4));
    XorSwap(a1, b1, a2, b2);
    XorSwap(c1, d1, c2, d2);
    XorSwap(a3, b3, a4, b4);
    XorSwap(c3, d3, c4, d4);
    XorSwap(Xor(Xor(a1, a2), Xor(b1, b2)), Xor(Xor(c1, c2), Xor(d1, d2)),
            Xor(Xor(a3, a4), Xor(b3, b4)), Xor(Xor(c3, c4), Xor(d3, d4)));
    XorSwap(Xor(a1, a2), Xor(b1, b2), Xor(a3, a4), Xor(b3, b4));
    XorSwap(Xor(c1, c2), Xor(d1, d2), Xor(c3, c4), Xor(d3, d4));
  }

  /** InvMixColumns undoes MixColumns, one row. */
  lemma {:induction false} InvMixRow(a: u8, b: u8, c: u8, d: u8)
    ensures InvRow(MixRow(a, b, c, d), MixRow(b, c, d, a), MixRow(c, d, a, b), MixRow(d, a, b, c)) == a
  {
    hide Xor, XTime, Poly, M2, M3;
    Poly4(true, true, true, false, M2(a), M3(b), c, d);
    Poly4(true, false, true, true, M2(b), M3(c), d, a);
    Poly4(true, true, false, true, M2(c), M3(d), a, b);
    Poly4(true, false, false, true, M2(d), M3(a), b, c);
    RotateSum(Mb(M2(b)), Mb(M3(c)), Mb(d), Mb(a));
    HalfSum(Md(M2(c)), Md(M3(d)), Md(a), Md(b));
    RotateSum2(M9(M2(d)), M9(M3(a)), M9(b), M9(c));
    Transpose(Me(M2(a)), Me(M3(b)), Me(c), Me(d), Mb(a), Mb(M2(b)), Mb(M3(c)), Mb(d),
              Md(a), Md(b), Md(M2(c)), Md(M3(d)), M9(M3(a)), M9(b), M9(c), M9(M2(d)));
    ProductOne(a);
    ProductZero(b);
    ProductZero(c);
    ProductZero(d);
    XorCancel(a, a);
    XorCancel(0, 0);
  }

  lemma {:induction false} RotateSum(b: u8, c: u8, d: u8, a: u8)
    ensures Xor(Xor(b, c), Xor(d, a)) == Xor(Xor(a, b), Xor(c, d))
  {
    hide Xor;
    XorComm(d, a);
    XorComm(Xor(b, c), Xor(a, d));
    XorSwap(a, d, b, c);
    XorComm(d, c);
  }

  lemma {:induction false} HalfSum(c: u8, d: u8, a: u8, b: u8)
    ensures Xor(Xor(c, d), Xor(a, b)) == Xor(Xor(a, b), Xor(c, d))
  {
    hide Xor;
    XorComm(Xor(c, d), Xor(a, b));
  }

  lemma {:induction false} RotateSum2(d: u8, a: u8, b: u8, c: u8)
    ensures Xor(Xor(d, a), Xor(b, c)) == Xor(Xor(a, b), Xor(c, d))
  {
    hide Xor;
    RotateSum(a, b, c, d);
  }

  lemma {:induction false} InvRowXor(a: u8, b: u8, c: u8, d: u8, e: u8, f: u8, g: u8, h: u8)
    ensures InvRow(Xor(a, e), Xor(b, f), Xor(c, g), Xor(d, h)) == Xor(InvRow(a, b, c, d), InvRow(e, f, g, h))
  {
    hide Xor, XTime, Poly;
    PolyXor(false, true, true, true, false, a, e);
    PolyXor(false, true, false, true, true, b, f);
    PolyXor(false, true, true, false, true, c, g);
    PolyXor(false, true, false, false, true, d, h);
    XorSwap(Me(a), Me(e), Mb(b), Mb(f));
    XorSwap(Md(c), Md(g), M9(d), M9(h));
    XorSwap(Xor(Me(a), Mb(b)), Xor(Me(e), Mb(f)), Xor(Md(c), M9(d)), Xor(Md(g), M9(h)));
  }
}
