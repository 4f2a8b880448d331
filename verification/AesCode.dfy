/** aes.c as it runs: key schedules filled in place and the two block functions, each
    proved to compute what FIPS 197 says. */
module AesCode {
  import opened Common
  import opened AesField
  import opened AesSpec
  import opened AesTables

  // ------------------------------------------------------------ key expansion

  /** GETU32 (aes.c:43). */
  function GetWord(b: seq<u8>, i: nat): Word
    requires i + 4 <= |b|
  {
    Word(b[i], b[i + 1], b[i + 2], b[i + 3])
  }

  function RotWord(w: Word): Word { Word(w.b1, w.b2, w.b3, w.b0) }

  // rcon (aes.c:722-726)
  const RCON: seq<u8> := [0x01, 0x02, 0x04, 0x08, 0x10, 0x20, 0x40, 0x80, 0x1B, 0x36]

  /** Rcon holds the powers of x (section 5.2 of FIPS 197). */
  lemma {:induction false} RconPowers(i: nat)
    requires i < 9
    ensures RCON[0] == 1 && RCON[i + 1] == XTime(RCON[i])
  {
  }

  // i mod Nk, i / Nk and Nk * g for the three key sizes
  function Rem(i: nat, nk: nat): nat { if nk == 4 then i % 4 else if nk == 6 then i % 6 else i % 8 }
  function Quot(i: nat, nk: nat): nat { if nk == 4 then i / 4 else if nk == 6 then i / 6 else i / 8 }
  function Start(g: nat, nk: nat): nat { if nk == 4 then 4 * g else if nk == 6 then 6 * g else 8 * g }

  /** Word i of KeyExpansion (section 5.2) for a key of nk words. */
  function KeyWord(t: Sbox, key: seq<u8>, nk: nat, i: nat): Word
    requires nk in {4, 6, 8} && |key| == 4 * nk && i < 4 * (nk + 7)
    decreases i
  {
    if i < nk then GetWord(key, 4 * i)
    else
      var temp := KeyWord(t, key, nk, i - 1);
      var mixed :=
        if Rem(i, nk) == 0 then XorWord(SubWord(t.S, RotWord(temp)), Word(Rcon(nk, i), 0, 0, 0))
        else if nk > 6 && Rem(i, nk) == 4 then SubWord(t.S, temp)
        else temp;
      XorWord(KeyWord(t, key, nk, i - nk), mixed)
  }

  function Rcon(nk: nat, i: nat): u8
    requires nk in {4, 6, 8} && nk <= i < 4 * (nk + 7)
  {
    RconIndex(nk, i);
    RCON[Quot(i, nk) - 1]
  }

  /** The first word of a group in the source's notation (aes.c:759-764). */
  function RotSubRcon(t: Sbox, w: Word, prev: Word, i: nat): Word
    requires i < 10
  {
    XorWord(XorWord(XorWord(XorWord(XorWord(prev, Mask0(Four(t.S(w.b1)))), Mask1(Four(t.S(w.b2)))),
                            Mask2(Four(t.S(w.b3)))), Mask3(Four(t.S(w.b0)))), Word(RCON[i], 0, 0, 0))
  }

  /** The extra substitution of 256-bit keys (aes.c:814-818). */
  function SubXor(t: Sbox, w: Word, prev: Word): Word {
    XorWord(XorWord(XorWord(XorWord(prev, Mask0(Four(t.S(w.b0)))), Mask1(Four(t.S(w.b1)))),
                    Mask2(Four(t.S(w.b2)))), Mask3(Four(t.S(w.b3))))
  }

  lemma {:induction false} XorWordAssoc(a: Word, b: Word, c: Word)
    ensures XorWord(XorWord(a, b), c) == XorWord(a, XorWord(b, c))
  {
    hide Xor;
    XorAssoc(a.b0, b.b0, c.b0);
    XorAssoc(a.b1, b.b1, c.b1);
    XorAssoc(a.b2, b.b2, c.b2);
    XorAssoc(a.b3, b.b3, c.b3);
  }

  lemma {:induction false} SubXorIs(t: Sbox, w: Word, prev: Word)
    ensures SubXor(t, w, prev) == XorWord(prev, SubWord(t.S, w))
  {
    hide XorWord, Mask0, Mask1, Mask2, Mask3, Four;
    var a, b, c, d := Mask0(Four(t.S(w.b0))), Mask1(Four(t.S(w.b1))), Mask2(Four(t.S(w.b2))), Mask3(Four(t.S(w.b3)));
    MaskedWord(t.S(w.b0), t.S(w.b1), t.S(w.b2), t.S(w.b3));
    XorWordAssoc(prev, a, b);
    XorWordAssoc(prev, XorWord(a, b), c);
    XorWordAssoc(prev, XorWord(XorWord(a, b), c), d);
  }

  lemma {:induction false} RotSubRconIs(t: Sbox, w: Word, prev: Word, i: nat)
    requires i < 10
    ensures RotSubRcon(t, w, prev, i) == XorWord(prev, XorWord(SubWord(t.S, RotWord(w)), Word(RCON[i], 0, 0, 0)))
  {
    hide XorWord, Mask0, Mask1, Mask2, Mask3, Four;
    SubXorIs(t, RotWord(w), prev);
    XorWordAssoc(prev, SubWord(t.S, RotWord(w)), Word(RCON[i], 0, 0, 0));
  }

  /** The words of the expanded key. */
  ghost predicate Expanded(t: Sbox, key: seq<u8>, nk: nat, rk: seq<Word>, n: nat)
  {
    && nk in {4, 6, 8} && |key| == 4 * nk && n <= |rk| && n <= 4 * (nk + 7)
    && forall i :: 0 <= i < n ==> rk[i] == KeyWord(t, key, nk, i)
  }

  lemma {:induction false} PlainStep(t: Sbox, key: seq<u8>, nk: nat, rk: seq<Word>, i: nat)
    requires Expanded(t, key, nk, rk, i) && nk <= i < 4 * (nk + 7) && i < |rk| && Rem(i, nk) != 0
             && !(nk > 6 && Rem(i, nk) == 4)
    ensures Expanded(t, key, nk, rk[i := XorWord(rk[i - nk], rk[i - 1])], i + 1)
  {
  }

  lemma {:induction false} RconIndex(nk: nat, i: nat)
    requires nk in {4, 6, 8} && nk <= i < 4 * (nk + 7)
    ensures 0 <= Quot(i, nk) - 1 < 10
  {
  }

  lemma {:induction false} FirstStep(t: Sbox, key: seq<u8>, nk: nat, rk: seq<Word>, i: nat)
    requires Expanded(t, key, nk, rk, i) && nk <= i < 4 * (nk + 7) && i < |rk| && Rem(i, nk) == 0
    requires Quot(i, nk) - 1 < 10
    ensures Expanded(t, key, nk, rk[i := RotSubRcon(t, rk[i - 1], rk[i - nk], Quot(i, nk) - 1)], i + 1)
  {
    hide RotSubRcon, XorWord;
    RotSubRconIs(t, rk[i - 1], rk[i - nk], Quot(i, nk) - 1);
  }

  lemma {:induction false} SubStep(t: Sbox, key: seq<u8>, rk: seq<Word>, i: nat)
    requires Expanded(t, key, 8, rk, i) && 8 <= i < 60 && i < |rk| && Rem(i, 8) == 4
    ensures Expanded(t, key, 8, rk[i := SubXor(t, rk[i - 1], rk[i - 8])], i + 1)
  {
    SubXorIs(t, rk[i - 1], rk[i - 8]);
  }

  /** One group of four words: aes.c:758-767, 778-787 and 800-809. */
  lemma {:induction false} GroupStep(t: Sbox, key: seq<u8>, nk: nat, rk: seq<Word>, p: nat, i: nat)
    requires Expanded(t, key, nk, rk, p + nk) && p == Start(i, nk) && p + nk + 4 <= |rk| && p + nk + 4 <= 4 * (nk + 7)
             && i < 10
    ensures var a := RotSubRcon(t, rk[p + nk - 1], rk[p], i);
            var b := XorWord(rk[p + 1], a);
            var c := XorWord(rk[p + 2], b);
            var d := XorWord(rk[p + 3], c);
            Expanded(t, key, nk, rk[p + nk := a][p + nk + 1 := b][p + nk + 2 := c][p + nk + 3 := d], p + nk + 4)
  {
    hide RotSubRcon, XorWord, KeyWord, Rem, Quot;
    var n := p + nk;
    AtIndex(nk, i + 1, 0);
    AtIndex(nk, i + 1, 1);
    AtIndex(nk, i + 1, 2);
    AtIndex(nk, i + 1, 3);
    assert n == Start(i + 1, nk);
    var a := RotSubRcon(t, rk[n - 1], rk[p], i);
    FirstStep(t, key, nk, rk, n);
    var r1 := rk[n := a];
    var b := XorWord(rk[p + 1], a);
    PlainStep(t, key, nk, r1, n + 1);
    var r2 := r1[n + 1 := b];
    assert r1[n + 1 - nk] == rk[p + 1] && r1[n] == a;
    var c := XorWord(rk[p + 2], b);
    PlainStep(t, key, nk, r2, n + 2);
    var r3 := r2[n + 2 := c];
    PlainStep(t, key, nk, r3, n + 3);
  }

  lemma {:induction false} AtIndex(nk: nat, g: nat, j: nat)
    requires nk in {4, 6, 8} && j < nk
    ensures Rem(Start(g, nk) + j, nk) == j && Quot(Start(g, nk) + j, nk) == g
  {
    if nk == 4 { assert (4 * g + j) / 4 == g; }
    else if nk == 6 { assert (6 * g + j) / 6 == g; }
    else { assert (8 * g + j) / 8 == g; }
  }

  /** The four words of round r. */
  function BlockAt(rk: seq<Word>, r: nat): Block
    requires 4 * r + 4 <= |rk|
  {
    Block(rk[4 * r], rk[4 * r + 1], rk[4 * r + 2], rk[4 * r + 3])
  }

  function ToSchedule(rk: seq<Word>, nr: nat): (k: Schedule)
    requires 4 * (nr + 1) <= |rk|
    ensures |k| == nr + 1 && forall r :: 0 <= r <= nr ==> k[r] == BlockAt(rk, r)
  {
    seq(nr + 1, r requires 0 <= r <= nr => BlockAt(rk, r))
  }

  /** KeyExpansion as one block per round. */
  function KeySchedule(t: Sbox, key: seq<u8>, nk: nat): (k: Schedule)
    requires nk in {4, 6, 8} && |key| == 4 * nk
    ensures |k| == nk + 7
  {
    seq(nk + 7, r requires 0 <= r < nk + 7 =>
      Block(KeyWord(t, key, nk, 4 * r), KeyWord(t, key, nk, 4 * r + 1), KeyWord(t, key, nk, 4 * r + 2),
            KeyWord(t, key, nk, 4 * r + 3)))
  }

  lemma {:induction false} ExpandedSchedule(t: Sbox, key: seq<u8>, nk: nat, rk: seq<Word>)
    requires Expanded(t, key, nk, rk, 4 * (nk + 7))
    ensures ToSchedule(rk, nk + 6) == KeySchedule(t, key, nk)
  {
    hide KeyWord;
  }

  // ------------------------------------------------------------------- blocks

  function ToBlock(b: seq<u8>): Block
    requires |b| == 16
  {
    Block(GetWord(b, 0), GetWord(b, 4), GetWord(b, 8), GetWord(b, 12))
  }

  function WordBytes(w: Word): seq<u8> { [w.b0, w.b1, w.b2, w.b3] }

  function ToBytes(s: Block): (b: seq<u8>)
    ensures |b| == 16
  {
    WordBytes(s.w0) + WordBytes(s.w1) + WordBytes(s.w2) + WordBytes(s.w3)
  }

  lemma {:induction false} BytesRoundTrip(b: seq<u8>, s: Block)
    requires |b| == 16
    ensures ToBytes(ToBlock(b)) == b && ToBlock(ToBytes(s)) == s
  {
  }

  /** The outer i elements of a[..n + 1] on both sides are exchanged. */
  predicate HalfReversed(a: Schedule, b: Schedule, i: nat, n: nat) {
    && |a| == |b| == 15 && n < 15
    && (forall r {:trigger b[r]} :: i <= r <= n - i ==> b[r] == a[r])
    && (forall r {:trigger b[r]} :: 0 <= r <= n && !(i <= r <= n - i) ==> b[r] == a[n - r])
  }

  /** Reversed, and rounds 1 .. i - 1 through InvMixColumns. */
  /** Writing the next byte of a stretch that replaces part of a buffer. */
  lemma {:induction false} OneMore(was: seq<u8>, bytes: seq<u8>, o: nat, n: nat)
    requires n < |bytes| && o + n < |was|
    ensures (was[..o] + bytes[..n] + was[o + n..])[o + n := bytes[n]] == was[..o] + bytes[..n + 1] + was[o + n + 1..]
  {
  }

  predicate HalfMixed(a: Schedule, b: Schedule, i: nat, n: nat) {
    && |a| == |b| == 15 && n < 15
    && forall r :: 0 <= r <= n ==> b[r] == if 0 < r < i then InvMixColumns(a[n - r]) else a[n - r]
  }

  lemma {:induction false} HalfMixedStep(a: Schedule, b: Schedule, i: nat, n: nat)
    requires HalfMixed(a, b, i, n) && 0 < i < n
    ensures HalfMixed(a, b[i := InvMixColumns(b[i])], i + 1, n)
  {
    hide InvMixColumns;
  }

  lemma {:induction false} HalfReversedStep(a: Schedule, b: Schedule, i: nat, n: nat)
    requires HalfReversed(a, b, i, n) && i < n - i
    ensures HalfReversed(a, b[i := b[n - i]][n - i := b[i]], i + 1, n)
  {
  }

  /** The first n words from i and from j have changed places. */
  predicate Exchanged(was: seq<Word>, now: seq<Word>, i: nat, j: nat, n: nat)
    requires |was| == |now| && i + n <= j && j + n <= |was|
  {
    && (forall x {:trigger now[x]} :: i <= x < i + n ==> now[x] == was[x - i + j])
    && (forall x {:trigger now[x]} :: j <= x < j + n ==> now[x] == was[x - j + i])
    && (forall x {:trigger now[x]} :: 0 <= x < |now| && !(i <= x < i + n) && !(j <= x < j + n) ==> now[x] == was[x])
  }

  lemma {:induction false} ExchangedStep(was: seq<Word>, now: seq<Word>, i: nat, j: nat, n: nat)
    requires |was| == |now| && i + n < j && j + n < |was| && Exchanged(was, now, i, j, n)
    ensures Exchanged(was, now[i + n := now[j + n]][j + n := now[i + n]], i, j, n + 1)
  {
  }

  lemma {:induction false} SwappedSchedule(was: seq<Word>, now: seq<Word>, a: nat, b: nat)
    requires |was| == |now| == 60 && a < b < 15
    requires Exchanged(was, now, 4 * a, 4 * b, 4)
    ensures var k := ToSchedule(was, 14); ToSchedule(now, 14) == k[a := k[b]][b := k[a]]
  {
    var k, l := ToSchedule(was, 14), ToSchedule(now, 14);
    forall r | 0 <= r < 15 ensures l[r] == k[a := k[b]][b := k[a]][r] {
      assert l[r] == BlockAt(now, r);
    }
  }

  class AesKey {
    const rdKey: array<Word>
    var rounds: nat

    constructor ()
      ensures fresh(rdKey) && rdKey.Length == 60
    {
      rdKey := new Word[60](_ => Word(0, 0, 0, 0));
      rounds := 0;
    }

    /** A schedule is in place. */
    predicate Ready()
      reads this, rdKey
    {
      rdKey.Length == 60 && rounds in {10, 12, 14}
    }

    function Keys(): (k: Schedule)
      requires Ready()
      reads this, rdKey
      ensures |k| == rounds + 1
    {
      ToSchedule(rdKey[..], rounds)
    }

    /** rk[p + nk .. p + nk + 3] from the group before them. */
    method ExpandGroup(t: Sbox, ghost key: seq<u8>, nk: nat, p: nat, i: nat)
      requires rdKey.Length == 60 && Expanded(t, key, nk, rdKey[..], p + nk)
      requires p == Start(i, nk) && i < 10 && p + nk + 4 <= 4 * (nk + 7)
      modifies rdKey
      ensures Expanded(t, key, nk, rdKey[..], p + nk + 4)
    {
      GroupStep(t, key, nk, rdKey[..], p, i);
      hide KeyWord, RotSubRcon, XorWord;
      ghost var was := rdKey[..];
      var temp := rdKey[p + nk - 1];
      rdKey[p + nk] := RotSubRcon(t, temp, rdKey[p], i);
      rdKey[p + nk + 1] := XorWord(rdKey[p + 1], rdKey[p + nk]);
      rdKey[p + nk + 2] := XorWord(rdKey[p + 2], rdKey[p + nk + 1]);
      rdKey[p + nk + 3] := XorWord(rdKey[p + 3], rdKey[p + nk + 2]);
      ghost var a := RotSubRcon(t, was[p + nk - 1], was[p], i);
      ghost var b := XorWord(was[p + 1], a);
      ghost var c := XorWord(was[p + 2], b);
      ghost var d := XorWord(was[p + 3], c);
      assert rdKey[..] == was[p + nk := a][p + nk + 1 := b][p + nk + 2 := c][p + nk + 3 := d];
    }

    /** One word by the plain rule. */
    method ExpandWord(t: Sbox, ghost key: seq<u8>, nk: nat, i: nat)
      requires rdKey.Length == 60 && Expanded(t, key, nk, rdKey[..], i)
      requires nk <= i < 4 * (nk + 7) && Rem(i, nk) != 0 && !(nk > 6 && Rem(i, nk) == 4)
      modifies rdKey
      ensures Expanded(t, key, nk, rdKey[..], i + 1)
    {
      PlainStep(t, key, nk, rdKey[..], i);
      hide KeyWord, XorWord, Rem;
      ghost var was := rdKey[..];
      rdKey[i] := XorWord(rdKey[i - nk], rdKey[i - 1]);
      assert rdKey[..] == was[i := XorWord(was[i - nk], was[i - 1])];
    }

    /** The fifth word of a 256-bit group (aes.c:813-818). */
    method ExpandSubWord(t: Sbox, ghost key: seq<u8>, i: nat)
      requires rdKey.Length == 60 && Expanded(t, key, 8, rdKey[..], i) && 8 <= i < 60 && Rem(i, 8) == 4
      modifies rdKey
      ensures Expanded(t, key, 8, rdKey[..], i + 1)
    {
      SubStep(t, key, rdKey[..], i);
      hide KeyWord, SubXor, Rem;
      ghost var was := rdKey[..];
      var temp := rdKey[i - 1];
      rdKey[i] := SubXor(t, temp, rdKey[i - 8]);
      assert rdKey[..] == was[i := SubXor(t, was[i - 1], was[i - 8])];
    }

    /** The user key itself (aes.c:752-755, 774-775, 796-797). */
    method LoadUserKey(t: Sbox, key: seq<u8>, nk: nat)
      requires rdKey.Length == 60 && nk in {4, 6, 8} && |key| == 4 * nk
      modifies rdKey
      ensures Expanded(t, key, nk, rdKey[..], nk)
    {
      for i := 0 to nk
        invariant Expanded(t, key, nk, rdKey[..], i)
      {
        rdKey[i] := GetWord(key, 4 * i);
      }
    }

    /** AES_set_encrypt_key (aes.c:731-827): 128, 192 and 256-bit keys, -2 for other sizes and -1 for no
        key at all (a NULL userKey). */
    method SetEncryptKey(t: Sbox, userKey: Option<seq<u8>>, bits: int) returns (status: int)
      requires rdKey.Length == 60 && (userKey.Some? && bits in {128, 192, 256} ==> |userKey.value| == bits / 8)
      modifies this, rdKey
      ensures status == if userKey.None? then -1 else if bits in {128, 192, 256} then 0 else -2
      ensures status != 0 ==> rdKey[..] == old(rdKey[..]) && rounds == old(rounds)
      ensures status == 0 ==> Ready() && rounds == bits / 32 + 6 && Keys() == KeySchedule(t, userKey.value, bits / 32)
    {
      if userKey.None? {
        return -1;
      }
      if bits != 128 && bits != 192 && bits != 256 {
        return -2;
      }
      var key := userKey.value;
      if bits == 128 {
        rounds := 10;
        Expand128(t, key);
      } else if bits == 192 {
        rounds := 12;
        Expand192(t, key);
      } else {
        rounds := 14;
        Expand256(t, key);
      }
      ExpandedSchedule(t, key, bits / 32, rdKey[..]);
      status := 0;
    }

    method Expand128(t: Sbox, key: seq<u8>)
      requires rdKey.Length == 60 && |key| == 16
      modifies rdKey
      ensures Expanded(t, key, 4, rdKey[..], 44)
    {
      hide Expanded;
      LoadUserKey(t, key, 4);
      for i := 0 to 10
        invariant Expanded(t, key, 4, rdKey[..], 4 * i + 4)
      {
        ExpandGroup(t, key, 4, 4 * i, i);
      }
    }

    method Expand192(t: Sbox, key: seq<u8>)
      requires rdKey.Length == 60 && |key| == 24
      modifies rdKey
      ensures Expanded(t, key, 6, rdKey[..], 52)
    {
      hide Expanded;
      LoadUserKey(t, key, 6);
      var i := 0;
      while true
        invariant 0 <= i < 8 && Expanded(t, key, 6, rdKey[..], 6 * i + 6)
        decreases 8 - i
      {
        ExpandGroup(t, key, 6, 6 * i, i);
        i := i + 1;
        if i == 8 {
          return;
        }
        AtIndex(6, i, 4);
        AtIndex(6, i, 5);
        ExpandWord(t, key, 6, 6 * i + 4);
        ExpandWord(t, key, 6, 6 * i + 5);
      }
    }

    method Expand256(t: Sbox, key: seq<u8>)
      requires rdKey.Length == 60 && |key| == 32
      modifies rdKey
      ensures Expanded(t, key, 8, rdKey[..], 60)
    {
      hide Expanded;
      LoadUserKey(t, key, 8);
      var i := 0;
      while true
        invariant 0 <= i < 7 && Expanded(t, key, 8, rdKey[..], 8 * i + 8)
        decreases 7 - i
      {
        ExpandGroup(t, key, 8, 8 * i, i);
        i := i + 1;
        if i == 7 {
          return;
        }
        AtIndex(8, i, 4);
        AtIndex(8, i, 5);
        AtIndex(8, i, 6);
        AtIndex(8, i, 7);
        ExpandSubWord(t, key, 8 * i + 4);
        ExpandWord(t, key, 8, 8 * i + 5);
        ExpandWord(t, key, 8, 8 * i + 6);
        ExpandWord(t, key, 8, 8 * i + 7);
      }
    }

    /** All fifteen round keys there is room for. */
    function All(): (k: Schedule)
      requires rdKey.Length == 60
      reads rdKey
      ensures |k| == 15
    {
      ToSchedule(rdKey[..], 14)
    }

    /** Exchange the round keys a and b (aes.c:848-851). */
    method SwapRounds(a: nat, b: nat)
      requires rdKey.Length == 60 && a < b < 15
      modifies rdKey
      ensures All() == old(All())[a := old(All())[b]][b := old(All())[a]]
    {
      var i, j := 4 * a, 4 * b;
      ghost var was := rdKey[..];
      for q := 0 to 4
        invariant Exchanged(was, rdKey[..], i, j, q)
      {
        hide Exchanged;
        ExchangedStep(was, rdKey[..], i, j, q);
        var temp := rdKey[i + q];
        rdKey[i + q] := rdKey[j + q];
        rdKey[j + q] := temp;
      }
      SwappedSchedule(was, rdKey[..], a, b);
    }

    /** Invert the order of the round keys (aes.c:846-852). */
    method ReverseRounds()
      requires Ready()
      modifies rdKey
      ensures forall r :: 0 <= r <= rounds ==> All()[r] == old(All())[rounds - r]
    {
      hide ToSchedule;
      var i, j := 0, rounds;
      while i < j
        invariant 0 <= i && i + j == rounds && i <= j + 1 && HalfReversed(old(All()), All(), i, rounds)
      {
        HalfReversedStep(old(All()), All(), i, rounds);
        SwapRounds(i, j);
        i, j := i + 1, j - 1;
      }
    }

    /** InvMixColumn on one round key (aes.c:856-875). */
    method InvMixRound(t: Sbox, r: nat)
      requires rdKey.Length == 60 && r < 15 && t.Inverse()
      modifies rdKey
      ensures All() == old(All())[r := InvMixColumns(old(All())[r])]
    {
      hide InvMixWord, InvMixColumn;
      var p := 4 * r;
      ghost var was := rdKey[..];
      InvMixOne(t, p);
      InvMixOne(t, p + 1);
      InvMixOne(t, p + 2);
      InvMixOne(t, p + 3);
      assert rdKey[..] == was[p := InvMixColumn(was[p])][p + 1 := InvMixColumn(was[p + 1])]
                             [p + 2 := InvMixColumn(was[p + 2])][p + 3 := InvMixColumn(was[p + 3])];
    }

    method InvMixOne(t: Sbox, i: nat)
      requires rdKey.Length == 60 && i < 60 && t.Inverse()
      modifies rdKey
      ensures rdKey[..] == old(rdKey[..])[i := InvMixColumn(old(rdKey[i]))]
    {
      hide InvMixWord, InvMixColumn;
      InvMixWordIsInvMix(t, rdKey[i]);
      rdKey[i] := InvMixWord(t, rdKey[i]);
    }

    /** AES_set_decrypt_key (aes.c:832-878): the schedule of the equivalent inverse cipher. */
    method SetDecryptKey(t: Sbox, userKey: Option<seq<u8>>, bits: int) returns (status: int)
      requires rdKey.Length == 60 && (userKey.Some? && bits in {128, 192, 256} ==> |userKey.value| == bits / 8)
      requires t.Inverse()
      modifies this, rdKey
      ensures status == if userKey.None? then -1 else if bits in {128, 192, 256} then 0 else -2
      ensures status == 0 ==> Ready() && rounds == bits / 32 + 6
                              && IsDecryptSchedule(Keys(), KeySchedule(t, userKey.value, bits / 32))
    {
      status := SetEncryptKey(t, userKey, bits);
      if status < 0 {
        return;
      }
      ghost var k := Keys();
      InvertSchedule(t);
    }

    /** The two loops of AES_set_decrypt_key (aes.c:846-876). */
    method InvertSchedule(t: Sbox)
      requires Ready() && t.Inverse()
      modifies rdKey
      ensures IsDecryptSchedule(Keys(), old(Keys()))
    {
      hide InvMixColumns, ToSchedule;
      ghost var k := All();
      KeysOfAll();
      ReverseRounds();
      for i := 1 to rounds
        invariant HalfMixed(k, All(), i, rounds)
      {
        hide HalfMixed;
        HalfMixedStep(k, All(), i, rounds);
        InvMixRound(t, i);
      }
      KeysOfAll();
    }

    lemma {:induction false} KeysOfAll()
      requires Ready()
      ensures Keys() == All()[..rounds + 1]
    {
    }

    /** Round key r as the code addresses it. */
    method RoundKey(r: nat) returns (k: Block)
      requires Ready() && r <= rounds
      ensures k == Keys()[r]
    {
      k := Block(rdKey[4 * r], rdKey[4 * r + 1], rdKey[4 * r + 2], rdKey[4 * r + 3]);
    }

    /** The rounds of AES_encrypt (aes.c:897-904, 977-1036, 1042-1068), two per turn. */
    method EncryptRounds(t: Sbox, b: Block) returns (c: Block)
      requires Ready()
      ensures c == Cipher(t, Keys(), b)
    {
      hide EncWord, EncLastWord, MixColumns, ShiftRows, SubBytes, XorBlock, ToSchedule;
      ghost var keys := Keys();
      var k := RoundKey(0);
      var s := XorBlock(b, k);
      var x := s;
      var p, r := 0, rounds / 2;
      while true
        invariant 0 < r && 2 * r + p == rounds && s == Rounds(t, keys, b, p) && keys == Keys()
        decreases r
      {
        k := RoundKey(p + 1);
        x := Block(EncWord(t, s.w0, s.w1, s.w2, s.w3, k.w0), EncWord(t, s.w1, s.w2, s.w3, s.w0, k.w1),
                   EncWord(t, s.w2, s.w3, s.w0, s.w1, k.w2), EncWord(t, s.w3, s.w0, s.w1, s.w2, k.w3));
        EncRound(t, s, k);
        p := p + 2;
        r := r - 1;
        k := RoundKey(p);
        if r == 0 {
          break;
        }
        s := Block(EncWord(t, x.w0, x.w1, x.w2, x.w3, k.w0), EncWord(t, x.w1, x.w2, x.w3, x.w0, k.w1),
                   EncWord(t, x.w2, x.w3, x.w0, x.w1, k.w2), EncWord(t, x.w3, x.w0, x.w1, x.w2, k.w3));
        EncRound(t, x, k);
      }
      c := Block(EncLastWord(t, x.w0, x.w1, x.w2, x.w3, k.w0), EncLastWord(t, x.w1, x.w2, x.w3, x.w0, k.w1),
                 EncLastWord(t, x.w2, x.w3, x.w0, x.w1, k.w2), EncLastWord(t, x.w3, x.w0, x.w1, x.w2, k.w3));
      EncLastRound(t, x, k);
    }

    /** The rounds of AES_decrypt (aes.c:1088-1095, 1168-1227, 1233-1259). */
    method DecryptRounds(t: Sbox, b: Block) returns (c: Block)
      requires Ready()
      ensures c == EqInvCipher(t, Keys(), b)
    {
      hide DecWord, DecLastWord, InvMixColumns, InvShiftRows, SubBytes, XorBlock, ToSchedule;
      ghost var keys := Keys();
      var k := RoundKey(0);
      var s := XorBlock(b, k);
      var x := s;
      var p, r := 0, rounds / 2;
      while true
        invariant 0 < r && 2 * r + p == rounds && s == EqRounds(t, keys, b, p) && keys == Keys()
        decreases r
      {
        k := RoundKey(p + 1);
        x := Block(DecWord(t, s.w0, s.w3, s.w2, s.w1, k.w0), DecWord(t, s.w1, s.w0, s.w3, s.w2, k.w1),
                   DecWord(t, s.w2, s.w1, s.w0, s.w3, k.w2), DecWord(t, s.w3, s.w2, s.w1, s.w0, k.w3));
        DecRound(t, s, k);
        p := p + 2;
        r := r - 1;
        k := RoundKey(p);
        if r == 0 {
          break;
        }
        s := Block(DecWord(t, x.w0, x.w3, x.w2, x.w1, k.w0), DecWord(t, x.w1, x.w0, x.w3, x.w2, k.w1),
                   DecWord(t, x.w2, x.w1, x.w0, x.w3, k.w2), DecWord(t, x.w3, x.w2, x.w1, x.w0, k.w3));
        DecRound(t, x, k);
      }
      c := Block(DecLastWord(t, x.w0, x.w3, x.w2, x.w1, k.w0), DecLastWord(t, x.w1, x.w0, x.w3, x.w2, k.w1),
                 DecLastWord(t, x.w2, x.w1, x.w0, x.w3, k.w2), DecLastWord(t, x.w3, x.w2, x.w1, x.w0, k.w3));
      DecLastRound(t, x, k);
    }

    /** PUTU32 of the four words (aes.c:44, 1048-1069). */
    method PutBlock(b: Block, out: array<u8>, o: nat)
      requires o + 16 <= out.Length
      modifies out
      ensures out[..] == old(out[..o]) + ToBytes(b) + old(out[o + 16..])
    {
      ghost var was := out[..];
      var bytes := ToBytes(b);
      for n := 0 to 16
        invariant out[..] == was[..o] + bytes[..n] + was[o + n..]
      {
        OneMore(was, bytes, o, n);
        ghost var now := out[..];
        out[o + n] := bytes[n];
        assert out[..] == now[o + n := bytes[n]];
      }
      assert bytes[..16] == bytes;
    }

    /** AES_encrypt (aes.c:885-1070); in and out may be the same memory. */
    method Encrypt(t: Sbox, inp: array<u8>, i: nat, out: array<u8>, o: nat)
      requires Ready() && i + 16 <= inp.Length && o + 16 <= out.Length
      modifies out
      ensures out[..] == old(out[..o]) + Encrypted(t, old(Keys()), old(inp[i..i + 16])) + old(out[o + 16..])
    {
      hide ToBlock, ToBytes, Cipher;
      var c := EncryptRounds(t, ToBlock(inp[i..i + 16]));
      PutBlock(c, out, o);
    }

    /** AES_decrypt (aes.c:1076-1261). */
    method Decrypt(t: Sbox, inp: array<u8>, i: nat, out: array<u8>, o: nat)
      requires Ready() && i + 16 <= inp.Length && o + 16 <= out.Length
      modifies out
      ensures out[..] == old(out[..o]) + Decrypted(t, old(Keys()), old(inp[i..i + 16])) + old(out[o + 16..])
    {
      hide ToBlock, ToBytes, EqInvCipher;
      var c := DecryptRounds(t, ToBlock(inp[i..i + 16]));
      PutBlock(c, out, o);
    }
  }

  // ------------------------------------------------------------------ results

  /** What AES_encrypt writes for a key schedule. */
  function Encrypted(t: Sbox, k: Schedule, b: seq<u8>): (c: seq<u8>)
    requires |k| >= 2 && |b| == 16
    ensures |c| == 16
  {
    ToBytes(Cipher(t, k, ToBlock(b)))
  }

  function Decrypted(t: Sbox, dk: Schedule, c: seq<u8>): (b: seq<u8>)
    requires |dk| >= 2 && |c| == 16
    ensures |b| == 16
  {
    ToBytes(EqInvCipher(t, dk, ToBlock(c)))
  }

  /** MAIN RESULT.  For every key of 128, 192 or 256 bits and every block, AES_decrypt under
      the schedule of AES_set_decrypt_key undoes AES_encrypt under that of
      AES_set_encrypt_key. */
  lemma {:induction false} DecryptUndoesEncrypt(t: Sbox, key: seq<u8>, nk: nat, dk: Schedule, b: seq<u8>)
    requires t.Inverse() && nk in {4, 6, 8} && |key| == 4 * nk && |b| == 16
    requires IsDecryptSchedule(dk, KeySchedule(t, key, nk))
    ensures Decrypted(t, dk, Encrypted(t, KeySchedule(t, key, nk), b)) == b
  {
    hide KeySchedule, Cipher, EqInvCipher, ToBlock, ToBytes;
    var k := KeySchedule(t, key, nk);
    BytesRoundTrip(b, Cipher(t, k, ToBlock(b)));
    EqInvCipherDecrypts(t, k, dk, ToBlock(b));
  }
}
