/** The lookup tables of aes.c, built from the formulas at its top, and the proof that a
    table round is a round of FIPS 197. */
module AesTables {
  import opened AesField
  import opened AesSpec

  // aes.c:47-50
  function Te0(t: Sbox, x: u8): Word { Word(M2(t.S(x)), t.S(x), t.S(x), M3(t.S(x))) }
  function Te1(t: Sbox, x: u8): Word { Word(M3(t.S(x)), M2(t.S(x)), t.S(x), t.S(x)) }
  function Te2(t: Sbox, x: u8): Word { Word(t.S(x), M3(t.S(x)), M2(t.S(x)), t.S(x)) }
  function Te3(t: Sbox, x: u8): Word { Word(t.S(x), t.S(x), M3(t.S(x)), M2(t.S(x))) }

  // aes.c:53-56
  function Td0(t: Sbox, x: u8): Word { Word(Me(t.Si(x)), M9(t.Si(x)), Md(t.Si(x)), Mb(t.Si(x))) }
  function Td1(t: Sbox, x: u8): Word { Word(Mb(t.Si(x)), Me(t.Si(x)), M9(t.Si(x)), Md(t.Si(x))) }
  function Td2(t: Sbox, x: u8): Word { Word(Md(t.Si(x)), Mb(t.Si(x)), Me(t.Si(x)), M9(t.Si(x))) }
  function Td3(t: Sbox, x: u8): Word { Word(M9(t.Si(x)), Md(t.Si(x)), Mb(t.Si(x)), Me(t.Si(x))) }

  // Te4 and Td4 hold a byte four times over (aes.c:51, 57)
  function Four(x: u8): Word { Word(x, x, x, x) }

  // Masks 0xff000000, 0x00ff0000, 0x0000ff00, 0x000000ff
  function Mask0(w: Word): Word { Word(w.b0, 0, 0, 0) }
  function Mask1(w: Word): Word { Word(0, w.b1, 0, 0) }
  function Mask2(w: Word): Word { Word(0, 0, w.b2, 0) }
  function Mask3(w: Word): Word { Word(0, 0, 0, w.b3) }

  function Xor5(a: Word, b: Word, c: Word, d: Word, e: Word): Word {
    XorWord(XorWord(XorWord(XorWord(a, b), c), d), e)
  }

  /** One word of an encryption round (aes.c:982-987). */
  function EncWord(t: Sbox, s0: Word, s1: Word, s2: Word, s3: Word, k: Word): Word {
    Xor5(Te0(t, s0.b0), Te1(t, s1.b1), Te2(t, s2.b2), Te3(t, s3.b3), k)
  }

  /** One word of the last encryption round (aes.c:1042-1047). */
  function EncLastWord(t: Sbox, s0: Word, s1: Word, s2: Word, s3: Word, k: Word): Word {
    Xor5(Mask0(Four(t.S(s0.b0))), Mask1(Four(t.S(s1.b1))), Mask2(Four(t.S(s2.b2))), Mask3(Four(t.S(s3.b3))), k)
  }

  /** One word of a decryption round (aes.c:1173-1178). */
  function DecWord(t: Sbox, s0: Word, s3: Word, s2: Word, s1: Word, k: Word): Word {
    Xor5(Td0(t, s0.b0), Td1(t, s3.b1), Td2(t, s2.b2), Td3(t, s1.b3), k)
  }

  /** One word of the last decryption round (aes.c:1233-1238). */
  function DecLastWord(t: Sbox, s0: Word, s3: Word, s2: Word, s1: Word, k: Word): Word {
    Xor5(Mask0(Four(t.Si(s0.b0))), Mask1(Four(t.Si(s3.b1))), Mask2(Four(t.Si(s2.b2))), Mask3(Four(t.Si(s1.b3))), k)
  }

  /** One word of the decryption key schedule (aes.c:856-860). */
  function InvMixWord(t: Sbox, w: Word): Word {
    XorWord(XorWord(XorWord(Td0(t, t.S(w.b0)), Td1(t, t.S(w.b1))), Td2(t, t.S(w.b2))), Td3(t, t.S(w.b3)))
  }

  // ------------------------------------------------------------------- proofs

  /** A sum of four may start anywhere. */
  lemma {:induction false} Sum4(a: u8, b: u8, c: u8, d: u8)
    ensures Xor(Xor(Xor(a, b), c), d) == Xor(Xor(a, b), Xor(c, d))
    ensures Xor(Xor(Xor(a, b), c), d) == Xor(Xor(b, c), Xor(d, a))
    ensures Xor(Xor(Xor(a, b), c), d) == Xor(Xor(c, d), Xor(a, b))
    ensures Xor(Xor(Xor(a, b), c), d) == Xor(Xor(d, a), Xor(b, c))
  {
    hide Xor;
    XorAssoc(Xor(a, b), c, d);
    XorComm(Xor(a, b), Xor(c, d));
    RotateSum(b, c, d, a);
    RotateSum(d, a, b, c);
  }

  lemma {:induction false} EncWordIsMix(t: Sbox, s0: Word, s1: Word, s2: Word, s3: Word, k: Word)
    ensures EncWord(t, s0, s1, s2, s3, k) == XorWord(MixColumn(Word(t.S(s0.b0), t.S(s1.b1), t.S(s2.b2), t.S(s3.b3))), k)
  {
    hide Xor, M2, M3;
    var a, b, c, d := t.S(s0.b0), t.S(s1.b1), t.S(s2.b2), t.S(s3.b3);
    Sum4(M2(a), M3(b), c, d);
    Sum4(a, M2(b), M3(c), d);
    Sum4(a, b, M2(c), M3(d));
    Sum4(M3(a), b, c, M2(d));
  }

  lemma {:induction false} DecColumn(t: Sbox, x0: u8, x1: u8, x2: u8, x3: u8)
    ensures XorWord(XorWord(XorWord(Td0(t, x0), Td1(t, x1)), Td2(t, x2)), Td3(t, x3))
            == InvMixColumn(Word(t.Si(x0), t.Si(x1), t.Si(x2), t.Si(x3)))
  {
    hide Xor, M9, Mb, Md, Me;
    var a, b, c, d := t.Si(x0), t.Si(x1), t.Si(x2), t.Si(x3);
    Sum4(Me(a), Mb(b), Md(c), M9(d));
    Sum4(M9(a), Me(b), Mb(c), Md(d));
    Sum4(Md(a), M9(b), Me(c), Mb(d));
    Sum4(Mb(a), Md(b), M9(c), Me(d));
  }

  lemma {:induction false} MaskedWord(a: u8, b: u8, c: u8, d: u8)
    ensures XorWord(XorWord(XorWord(Mask0(Four(a)), Mask1(Four(b))), Mask2(Four(c))), Mask3(Four(d)))
            == Word(a, b, c, d)
  {
    hide Xor;
    XorCancel(a, a);
    XorCancel(b, b);
    XorCancel(c, c);
    XorCancel(d, d);
    XorCancel(0, 0);
  }

  /** A table round is SubBytes, ShiftRows, MixColumns, AddRoundKey. */
  lemma {:induction false} EncRound(t: Sbox, s: Block, k: Block)
    ensures Block(EncWord(t, s.w0, s.w1, s.w2, s.w3, k.w0), EncWord(t, s.w1, s.w2, s.w3, s.w0, k.w1),
                  EncWord(t, s.w2, s.w3, s.w0, s.w1, k.w2), EncWord(t, s.w3, s.w0, s.w1, s.w2, k.w3))
            == XorBlock(MixColumns(ShiftRows(SubBytes(t.S, s))), k)
  {
    hide EncWord, XorWord, MixColumn;
    EncWordIsMix(t, s.w0, s.w1, s.w2, s.w3, k.w0);
    EncWordIsMix(t, s.w1, s.w2, s.w3, s.w0, k.w1);
    EncWordIsMix(t, s.w2, s.w3, s.w0, s.w1, k.w2);
    EncWordIsMix(t, s.w3, s.w0, s.w1, s.w2, k.w3);
  }

  lemma {:induction false} EncLastRound(t: Sbox, s: Block, k: Block)
    ensures Block(EncLastWord(t, s.w0, s.w1, s.w2, s.w3, k.w0), EncLastWord(t, s.w1, s.w2, s.w3, s.w0, k.w1),
                  EncLastWord(t, s.w2, s.w3, s.w0, s.w1, k.w2), EncLastWord(t, s.w3, s.w0, s.w1, s.w2, k.w3))
            == XorBlock(ShiftRows(SubBytes(t.S, s)), k)
  {
    hide XorWord, Mask0, Mask1, Mask2, Mask3, Four;
    MaskedWord(t.S(s.w0.b0), t.S(s.w1.b1), t.S(s.w2.b2), t.S(s.w3.b3));
    MaskedWord(t.S(s.w1.b0), t.S(s.w2.b1), t.S(s.w3.b2), t.S(s.w0.b3));
    MaskedWord(t.S(s.w2.b0), t.S(s.w3.b1), t.S(s.w0.b2), t.S(s.w1.b3));
    MaskedWord(t.S(s.w3.b0), t.S(s.w0.b1), t.S(s.w1.b2), t.S(s.w2.b3));
  }

  /** The mirror image for decryption: InvShiftRows, InvSubBytes, InvMixColumns, then a
      key that went through InvMixColumns itself. */
  lemma {:induction false} DecRound(t: Sbox, s: Block, k: Block)
    ensures Block(DecWord(t, s.w0, s.w3, s.w2, s.w1, k.w0), DecWord(t, s.w1, s.w0, s.w3, s.w2, k.w1),
                  DecWord(t, s.w2, s.w1, s.w0, s.w3, k.w2), DecWord(t, s.w3, s.w2, s.w1, s.w0, k.w3))
            == XorBlock(InvMixColumns(InvShiftRows(SubBytes(t.Si, s))), k)
  {
    hide XorWord, InvMixColumn, Td0, Td1, Td2, Td3;
    DecColumn(t, s.w0.b0, s.w3.b1, s.w2.b2, s.w1.b3);
    DecColumn(t, s.w1.b0, s.w0.b1, s.w3.b2, s.w2.b3);
    DecColumn(t, s.w2.b0, s.w1.b1, s.w0.b2, s.w3.b3);
    DecColumn(t, s.w3.b0, s.w2.b1, s.w1.b2, s.w0.b3);
  }

  lemma {:induction false} DecLastRound(t: Sbox, s: Block, k: Block)
    ensures Block(DecLastWord(t, s.w0, s.w3, s.w2, s.w1, k.w0), DecLastWord(t, s.w1, s.w0, s.w3, s.w2, k.w1),
                  DecLastWord(t, s.w2, s.w1, s.w0, s.w3, k.w2), DecLastWord(t, s.w3, s.w2, s.w1, s.w0, k.w3))
            == XorBlock(InvShiftRows(SubBytes(t.Si, s)), k)
  {
    hide XorWord, Mask0, Mask1, Mask2, Mask3, Four;
    MaskedWord(t.Si(s.w0.b0), t.Si(s.w3.b1), t.Si(s.w2.b2), t.Si(s.w1.b3));
    MaskedWord(t.Si(s.w1.b0), t.Si(s.w0.b1), t.Si(s.w3.b2), t.Si(s.w2.b3));
    MaskedWord(t.Si(s.w2.b0), t.Si(s.w1.b1), t.Si(s.w0.b2), t.Si(s.w3.b3));
    MaskedWord(t.Si(s.w3.b0), t.Si(s.w2.b1), t.Si(s.w1.b2), t.Si(s.w0.b3));
  }

  /** Looking up Td of S is InvMixColumn: S and Si cancel. */
  lemma {:induction false} InvMixWordIsInvMix(t: Sbox, w: Word)
    requires t.Inverse()
    ensures InvMixWord(t, w) == InvMixColumn(w)
  {
    hide XorWord, InvMixColumn, Td0, Td1, Td2, Td3;
    DecColumn(t, t.S(w.b0), t.S(w.b1), t.S(w.b2), t.S(w.b3));
  }
}
