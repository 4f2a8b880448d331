/** FIPS 197 as the reference: the cipher, its inverse, and why the equivalent inverse
    cipher of section 5.3.5 decrypts.  The S-box enters as a pair of byte tables. */
module AesSpec {
  import opened AesField

  /** Four bytes: a column of the state, or a 32-bit word with its most significant byte
      first. */
  datatype Word = Word(b0: u8, b1: u8, b2: u8, b3: u8)

  datatype Block = Block(w0: Word, w1: Word, w2: Word, w3: Word)

  /** S and the table that is meant to be its inverse. */
  datatype Sbox = Sbox(S: u8 -> u8, Si: u8 -> u8) {
    ghost predicate Inverse() { forall x: u8 :: Si(S(x)) == x }
  }

  function XorWord(a: Word, b: Word): Word {
    Word(Xor(a.b0, b.b0), Xor(a.b1, b.b1), Xor(a.b2, b.b2), Xor(a.b3, b.b3))
  }

  function XorBlock(a: Block, b: Block): Block {
    Block(XorWord(a.w0, b.w0), XorWord(a.w1, b.w1), XorWord(a.w2, b.w2), XorWord(a.w3, b.w3))
  }

  function SubWord(f: u8 -> u8, w: Word): Word { Word(f(w.b0), f(w.b1), f(w.b2), f(w.b3)) }

  function SubBytes(f: u8 -> u8, s: Block): Block {
    Block(SubWord(f, s.w0), SubWord(f, s.w1), SubWord(f, s.w2), SubWord(f, s.w3))
  }

  /** Row r moves r columns to the left (section 5.1.2). */
  function ShiftRows(s: Block): Block {
    Block(Word(s.w0.b0, s.w1.b1, s.w2.b2, s.w3.b3), Word(s.w1.b0, s.w2.b1, s.w3.b2, s.w0.b3),
          Word(s.w2.b0, s.w3.b1, s.w0.b2, s.w1.b3), Word(s.w3.b0, s.w0.b1, s.w1.b2, s.w2.b3))
  }

  /** Row r moves r columns to the right (section 5.3.1). */
  function InvShiftRows(s: Block): Block {
    Block(Word(s.w0.b0, s.w3.b1, s.w2.b2, s.w1.b3), Word(s.w1.b0, s.w0.b1, s.w3.b2, s.w2.b3),
          Word(s.w2.b0, s.w1.b1, s.w0.b2, s.w3.b3), Word(s.w3.b0, s.w2.b1, s.w1.b2, s.w0.b3))
  }

  function MixColumn(c: Word): Word {
    Word(MixRow(c.b0, c.b1, c.b2, c.b3), MixRow(c.b1, c.b2, c.b3, c.b0),
         MixRow(c.b2, c.b3, c.b0, c.b1), MixRow(c.b3, c.b0, c.b1, c.b2))
  }

  function InvMixColumn(c: Word): Word {
    Word(InvRow(c.b0, c.b1, c.b2, c.b3), InvRow(c.b1, c.b2, c.b3, c.b0),
         InvRow(c.b2, c.b3, c.b0, c.b1), InvRow(c.b3, c.b0, c.b1, c.b2))
  }

  function MixColumns(s: Block): Block {
    Block(MixColumn(s.w0), MixColumn(s.w1), MixColumn(s.w2), MixColumn(s.w3))
  }

  function InvMixColumns(s: Block): Block {
    Block(InvMixColumn(s.w0), InvMixColumn(s.w1), InvMixColumn(s.w2), InvMixColumn(s.w3))
  }

  // ------------------------------------------------------------------ ciphers

  /** A key schedule: one block per round, 0 to Nr. */
  type Schedule = seq<Block>

  /** The full rounds 1 .. r of Cipher (section 5.1), after the initial AddRoundKey. */
  function Rounds(t: Sbox, k: Schedule, s: Block, r: nat): Block
    requires r < |k|
  {
    if r == 0 then XorBlock(s, k[0])
    else XorBlock(MixColumns(ShiftRows(SubBytes(t.S, Rounds(t, k, s, r - 1)))), k[r])
  }

  function Cipher(t: Sbox, k: Schedule, s: Block): Block
    requires |k| >= 2
  {
    XorBlock(ShiftRows(SubBytes(t.S, Rounds(t, k, s, |k| - 2))), k[|k| - 1])
  }

  /** InvCipher (section 5.3) after undoing rounds Nr .. r + 1, before InvSubBytes of
      round r is reached from below. */
  function InvRounds(t: Sbox, k: Schedule, s: Block, r: nat): Block
    requires r < |k|
    decreases |k| - r
  {
    if r == |k| - 1 then XorBlock(s, k[r])
    else InvMixColumnsUnlessLast(XorBlock(SubBytes(t.Si, InvShiftRows(InvRounds(t, k, s, r + 1))), k[r]), r)
  }

  function InvMixColumnsUnlessLast(s: Block, r: nat): Block {
    if r == 0 then s else InvMixColumns(s)
  }

  function InvCipher(t: Sbox, k: Schedule, s: Block): Block
    requires |k| >= 2
  {
    InvRounds(t, k, s, 0)
  }

  /** The equivalent inverse cipher (section 5.3.5) runs on a schedule of its own, forward
      like the cipher. */
  function EqRounds(t: Sbox, dk: Schedule, s: Block, r: nat): Block
    requires r < |dk|
  {
    if r == 0 then XorBlock(s, dk[0])
    else XorBlock(InvMixColumns(InvShiftRows(SubBytes(t.Si, EqRounds(t, dk, s, r - 1)))), dk[r])
  }

  function EqInvCipher(t: Sbox, dk: Schedule, s: Block): Block
    requires |dk| >= 2
  {
    XorBlock(InvShiftRows(SubBytes(t.Si, EqRounds(t, dk, s, |dk| - 2))), dk[|dk| - 1])
  }

  /** Its schedule: the round keys reversed, all but the outer two through InvMixColumns. */
  predicate IsDecryptSchedule(dk: Schedule, k: Schedule) {
    && |dk| == |k| >= 2
    && dk[0] == k[|k| - 1] && dk[|k| - 1] == k[0]
    && forall r :: 0 < r < |k| - 1 ==> dk[r] == InvMixColumns(k[|k| - 1 - r])
  }

  // ----------------------------------------------------------------- inverses

  lemma {:induction false} MixInverts(c: Word)
    ensures InvMixColumn(MixColumn(c)) == c
  {
    hide MixRow, InvRow;
    InvMixRow(c.b0, c.b1, c.b2, c.b3);
    InvMixRow(c.b1, c.b2, c.b3, c.b0);
    InvMixRow(c.b2, c.b3, c.b0, c.b1);
    InvMixRow(c.b3, c.b0, c.b1, c.b2);
  }

  lemma {:induction false} InvMixXor(a: Word, b: Word)
    ensures InvMixColumn(XorWord(a, b)) == XorWord(InvMixColumn(a), InvMixColumn(b))
  {
    hide InvRow, Xor;
    InvRowXor(a.b0, a.b1, a.b2, a.b3, b.b0, b.b1, b.b2, b.b3);
    InvRowXor(a.b1, a.b2, a.b3, a.b0, b.b1, b.b2, b.b3, b.b0);
    InvRowXor(a.b2, a.b3, a.b0, a.b1, b.b2, b.b3, b.b0, b.b1);
    InvRowXor(a.b3, a.b0, a.b1, a.b2, b.b3, b.b0, b.b1, b.b2);
  }

  lemma {:induction false} XorWordInverts(a: Word, b: Word)
    ensures XorWord(XorWord(a, b), b) == a
  {
    hide Xor;
    XorCancel(a.b0, b.b0);
    XorCancel(a.b1, b.b1);
    XorCancel(a.b2, b.b2);
    XorCancel(a.b3, b.b3);
  }

  lemma {:induction false} XorBlockInverts(a: Block, b: Block)
    ensures XorBlock(XorBlock(a, b), b) == a
  {
    hide XorWord;
    XorWordInverts(a.w0, b.w0);
    XorWordInverts(a.w1, b.w1);
    XorWordInverts(a.w2, b.w2);
    XorWordInverts(a.w3, b.w3);
  }

  lemma {:induction false} MixColumnsInverts(a: Block)
    ensures InvMixColumns(MixColumns(a)) == a
  {
    hide InvMixColumn, MixColumn;
    MixInverts(a.w0);
    MixInverts(a.w1);
    MixInverts(a.w2);
    MixInverts(a.w3);
  }

  lemma {:induction false} InvMixColumnsXor(a: Block, b: Block)
    ensures InvMixColumns(XorBlock(a, b)) == XorBlock(InvMixColumns(a), InvMixColumns(b))
  {
    hide XorWord, InvMixColumn;
    InvMixXor(a.w0, b.w0);
    InvMixXor(a.w1, b.w1);
    InvMixXor(a.w2, b.w2);
    InvMixXor(a.w3, b.w3);
  }

  lemma {:induction false} SubShiftInvert(t: Sbox, a: Block)
    ensures InvShiftRows(ShiftRows(a)) == a
    ensures t.Inverse() ==> SubBytes(t.Si, SubBytes(t.S, a)) == a
    ensures InvShiftRows(SubBytes(t.Si, a)) == SubBytes(t.Si, InvShiftRows(a))
  {
  }

  lemma {:induction false} BlockInverses(t: Sbox, a: Block, b: Block)
    ensures XorBlock(XorBlock(a, b), b) == a
    ensures InvMixColumns(MixColumns(a)) == a
    ensures InvMixColumns(XorBlock(a, b)) == XorBlock(InvMixColumns(a), InvMixColumns(b))
    ensures InvShiftRows(ShiftRows(a)) == a
    ensures t.Inverse() ==> SubBytes(t.Si, SubBytes(t.S, a)) == a
    ensures InvShiftRows(SubBytes(t.Si, a)) == SubBytes(t.Si, InvShiftRows(a))
  {
    hide XorBlock, MixColumns, InvMixColumns, SubBytes, ShiftRows, InvShiftRows;
    XorBlockInverts(a, b);
    MixColumnsInverts(a);
    InvMixColumnsXor(a, b);
    SubShiftInvert(t, a);
  }

  /** The state InvCipher holds after round r is the one Cipher held before it. */
  lemma {:induction false} InvRoundsUndo(t: Sbox, k: Schedule, s: Block, r: nat)
    requires t.Inverse() && |k| >= 2 && r < |k|
    ensures InvRounds(t, k, Cipher(t, k, s), r)
            == if r == 0 then s else ShiftRows(SubBytes(t.S, Rounds(t, k, s, r - 1)))
    decreases |k| - r
  {
    hide XorBlock, MixColumns, InvMixColumns, SubBytes, ShiftRows, InvShiftRows;
    if r == |k| - 1 {
      BlockInverses(t, ShiftRows(SubBytes(t.S, Rounds(t, k, s, r - 1))), k[r]);
    } else {
      InvRoundsUndo(t, k, s, r + 1);
      var before := Rounds(t, k, s, r);
      BlockInverses(t, SubBytes(t.S, before), k[r]);
      BlockInverses(t, before, k[r]);
      if r == 0 {
        BlockInverses(t, s, k[0]);
      } else {
        var u := ShiftRows(SubBytes(t.S, Rounds(t, k, s, r - 1)));
        BlockInverses(t, MixColumns(u), k[r]);
        BlockInverses(t, u, k[r]);
      }
    }
  }

  /** Section 5.3: InvCipher is the inverse of Cipher, for every schedule. */
  lemma {:induction false} CipherInverts(t: Sbox, k: Schedule, s: Block)
    requires t.Inverse() && |k| >= 2
    ensures InvCipher(t, k, Cipher(t, k, s)) == s
  {
    InvRoundsUndo(t, k, s, 0);
  }

  /** Section 5.3.5: reversing the round keys and passing them through InvMixColumns lets
      the inverse rounds run in the order of the cipher's. */
  lemma {:induction false} EqRoundsFollow(t: Sbox, k: Schedule, dk: Schedule, s: Block, r: nat)
    requires IsDecryptSchedule(dk, k) && r < |k| - 1
    ensures EqRounds(t, dk, s, r) == InvRounds(t, k, s, |k| - 1 - r)
  {
    hide XorBlock, MixColumns, InvMixColumns, SubBytes, ShiftRows, InvShiftRows;
    if r > 0 {
      EqRoundsFollow(t, k, dk, s, r - 1);
      var u := EqRounds(t, dk, s, r - 1);
      BlockInverses(t, u, u);
      BlockInverses(t, InvShiftRows(SubBytes(t.Si, u)), k[|k| - 1 - r]);
    }
  }

  lemma {:induction false} EqInvCipherIsInvCipher(t: Sbox, k: Schedule, dk: Schedule, s: Block)
    requires IsDecryptSchedule(dk, k)
    ensures EqInvCipher(t, dk, s) == InvCipher(t, k, s)
  {
    hide XorBlock, InvMixColumns, SubBytes, InvShiftRows;
    EqRoundsFollow(t, k, dk, s, |k| - 2);
    BlockInverses(t, EqRounds(t, dk, s, |k| - 2), k[0]);
  }

  lemma {:induction false} EqInvCipherDecrypts(t: Sbox, k: Schedule, dk: Schedule, s: Block)
    requires t.Inverse() && IsDecryptSchedule(dk, k)
    ensures EqInvCipher(t, dk, Cipher(t, k, s)) == s
  {
    EqInvCipherIsInvCipher(t, k, dk, Cipher(t, k, s));
    CipherInverts(t, k, s);
  }
}
