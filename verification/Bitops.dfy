/** bitops.h and bitops.c: word-wise searches over an array of words, proved to answer what a
    plain sequence of bits would. A word is its bits, lowest first; the C operators the source
    uses are given bit by bit. The host word has 32 bits (config-host.h:11). */
module Bitops {

  const BITS_PER_LONG: nat := 32

  type Word = w: seq<bool> | |w| == BITS_PER_LONG witness seq(BITS_PER_LONG, _ => false)

  function Zero(): Word { seq(BITS_PER_LONG, _ => false) }
  function Ones(): Word { seq(BITS_PER_LONG, _ => true) }
  function Not(a: Word): Word { seq(BITS_PER_LONG, i requires 0 <= i < BITS_PER_LONG => !a[i]) }
  function And(a: Word, b: Word): Word { seq(BITS_PER_LONG, i requires 0 <= i < BITS_PER_LONG => a[i] && b[i]) }
  function Or(a: Word, b: Word): Word { seq(BITS_PER_LONG, i requires 0 <= i < BITS_PER_LONG => a[i] || b[i]) }

  /** Shifts by less than the word's width; a wider shift has no meaning in C. */
  function Shl(a: Word, k: nat): Word
    requires k < BITS_PER_LONG
  {
    seq(BITS_PER_LONG, i requires 0 <= i < BITS_PER_LONG => i >= k && a[i - k])
  }

  function Shr(a: Word, k: nat): Word
    requires k < BITS_PER_LONG
  {
    seq(BITS_PER_LONG, i requires 0 <= i < BITS_PER_LONG => i + k < BITS_PER_LONG && a[i + k])
  }

  /** 1 << k */
  function Bit(k: nat): Word
    requires k < BITS_PER_LONG
  {
    seq(BITS_PER_LONG, i => i == k)
  }

  predicate Clear(w: Word, lo: nat, hi: nat)
    requires hi <= BITS_PER_LONG
  {
    forall i :: lo <= i < hi ==> !w[i]
  }

  lemma {:induction false} ZeroIsClear(w: Word)
    ensures w == Zero() <==> Clear(w, 0, BITS_PER_LONG)
  {
    if Clear(w, 0, BITS_PER_LONG) {
      assert forall i :: 0 <= i < BITS_PER_LONG ==> w[i] == Zero()[i];
    }
  }

  /** Testing the low k bits, `word & ((1 << k) - 1)`. */
  lemma {:induction false} LowMask(w: Word, k: nat)
    requires 0 < k <= BITS_PER_LONG
    ensures And(w, Shr(Ones(), BITS_PER_LONG - k)) == Zero() <==> Clear(w, 0, k)
  {
    var m := And(w, Shr(Ones(), BITS_PER_LONG - k));
    ZeroIsClear(m);
    assert forall i :: 0 <= i < BITS_PER_LONG ==> (m[i] <==> w[i] && i < k);
  }

  /** Testing the high k bits, `word & (~0UL << (BITS_PER_LONG - k))`. */
  lemma {:induction false} HighMask(w: Word, k: nat)
    requires 0 < k <= BITS_PER_LONG
    ensures And(w, Shl(Ones(), BITS_PER_LONG - k)) == Zero() <==> Clear(w, BITS_PER_LONG - k, BITS_PER_LONG)
  {
    var m := And(w, Shl(Ones(), BITS_PER_LONG - k));
    ZeroIsClear(m);
    assert forall i :: 0 <= i < BITS_PER_LONG ==> (m[i] <==> w[i] && i >= BITS_PER_LONG - k);
  }

  /** One halving of bitops_ffsl: skip the low k bits when they are clear. `num` bits of the
      original word have been shifted out so far, all clear, and a set bit is below 2k. */
  method FfsHalf(orig: Word, word: Word, num: nat, k: nat) returns (w: Word, n: nat)
    requires num + 2 * k <= BITS_PER_LONG && 0 < k && word == Shr(orig, num)
    requires Clear(orig, 0, num) && !Clear(word, 0, 2 * k)
    ensures n + k <= BITS_PER_LONG && w == Shr(orig, n) && Clear(orig, 0, n) && !Clear(w, 0, k)
  {
    w, n := word, num;
    LowMask(word, k);
    if And(word, Shr(Ones(), BITS_PER_LONG - k)) == Zero() {
      n := n + k;
      w := Shr(w, k);
      var i :| 0 <= i < 2 * k && word[i];
      assert w[i - k];
      assert forall j :: num <= j < n ==> orig[j] == word[j - num];
      assert w == Shr(orig, n);
    }
  }

  /** bitops_ffsl: the lowest set bit of a word that has one. */
  method Ffsl(word: Word) returns (num: nat)
    requires word != Zero()
    ensures num < BITS_PER_LONG && word[num] && Clear(word, 0, num)
  {
    ZeroIsClear(word);
    assert Shr(word, 0) == word;
    var w, n := FfsHalf(word, word, 0, 16);
    w, n := FfsHalf(word, w, n, 8);
    w, n := FfsHalf(word, w, n, 4);
    w, n := FfsHalf(word, w, n, 2);
    w, n := FfsHalf(word, w, n, 1);
    assert w[0];
    num := n;
  }

  /** One halving of bitops_flsl, from the top. */
  method FlsHalf(orig: Word, word: Word, num: nat, k: nat) returns (w: Word, n: nat)
    requires 2 * k <= num + 1 <= BITS_PER_LONG && 0 < k && word == Shl(orig, BITS_PER_LONG - 1 - num)
    requires Clear(orig, num + 1, BITS_PER_LONG) && !Clear(word, BITS_PER_LONG - 2 * k, BITS_PER_LONG)
    ensures k <= n + 1 <= BITS_PER_LONG && w == Shl(orig, BITS_PER_LONG - 1 - n)
    ensures Clear(orig, n + 1, BITS_PER_LONG) && !Clear(w, BITS_PER_LONG - k, BITS_PER_LONG)
  {
    w, n := word, num;
    HighMask(word, k);
    if And(word, Shl(Ones(), BITS_PER_LONG - k)) == Zero() {
      n := n - k;
      w := Shl(w, k);
      var i :| BITS_PER_LONG - 2 * k <= i < BITS_PER_LONG && word[i];
      assert w[i + k];
      assert forall j :: n < j <= num ==> orig[j] == word[j + (BITS_PER_LONG - 1 - num)];
      assert w == Shl(orig, BITS_PER_LONG - 1 - n);
    }
  }

  /** bitops_flsl: the highest set bit of a word that has one. */
  method Flsl(word: Word) returns (num: nat)
    requires word != Zero()
    ensures num < BITS_PER_LONG && word[num] && Clear(word, num + 1, BITS_PER_LONG)
  {
    ZeroIsClear(word);
    assert Shl(word, 0) == word;
    var w, n := FlsHalf(word, word, BITS_PER_LONG - 1, 16);
    w, n := FlsHalf(word, w, n, 8);
    w, n := FlsHalf(word, w, n, 4);
    w, n := FlsHalf(word, w, n, 2);
    w, n := FlsHalf(word, w, n, 1);
    assert w[BITS_PER_LONG - 1];
    num := n;
  }

  lemma {:induction false} NotZero(w: Word)
    ensures Not(w) == Zero() <==> w == Ones()
    ensures w == Ones() <==> forall i :: 0 <= i < BITS_PER_LONG ==> w[i]
  {
    assert forall i {:trigger w[i]} :: 0 <= i < BITS_PER_LONG ==> Not(w)[i] == !w[i];
    ZeroIsClear(Not(w));
    if forall i :: 0 <= i < BITS_PER_LONG ==> w[i] {
      assert w == Ones();
    }
  }

  /** ffz: the lowest clear bit of a word that has one. */
  method Ffz(word: Word) returns (num: nat)
    requires word != Ones()
    ensures num < BITS_PER_LONG && !word[num] && forall i :: 0 <= i < num ==> word[i]
  {
    var flipped := Not(word);
    assert forall i {:trigger word[i]} :: 0 <= i < BITS_PER_LONG ==> flipped[i] == !word[i];
    NotZero(word);
    num := Ffsl(flipped);
  }

  // ------------------------------------------------------------------ bitmaps

  /** The bitmap as a sequence of bits. */
  predicate BitAt(a: seq<Word>, n: nat)
    requires n < |a| * BITS_PER_LONG
  {
    a[n / BITS_PER_LONG][n % BITS_PER_LONG]
  }

  /** No bit in lo..hi has value v. */
  predicate NoneIs(a: seq<Word>, v: bool, lo: nat, hi: nat)
    requires hi <= |a| * BITS_PER_LONG
  {
    forall n :: lo <= n < hi ==> BitAt(a, n) != v
  }

  /** r is the least index in offset..size whose bit is v, or size when there is none. */
  predicate IsNext(a: seq<Word>, v: bool, size: nat, offset: nat, r: nat)
    requires size <= |a| * BITS_PER_LONG
  {
    if offset >= size then r == size
    else offset <= r <= size && NoneIs(a, v, offset, r) && (r < size ==> BitAt(a, r) == v)
  }

  /** r is the greatest set index below size, or size when there is none. */
  predicate IsLast(a: seq<Word>, size: nat, r: nat)
    requires size <= |a| * BITS_PER_LONG
  {
    r <= size && if r == size then NoneIs(a, true, 0, size) else BitAt(a, r) && NoneIs(a, true, r + 1, size)
  }

  /** Bits of word p are the bits from p * BITS_PER_LONG on. */
  lemma {:induction false} InWord(a: seq<Word>, p: nat, n: nat)
    requires p < |a| && p * BITS_PER_LONG <= n < (p + 1) * BITS_PER_LONG
    ensures BitAt(a, n) == a[p][n - p * BITS_PER_LONG]
  {
    assert n / BITS_PER_LONG == p;
  }

  /** A stretch of word p in which no bit is v. */
  lemma {:induction false} WordNone(a: seq<Word>, v: bool, p: nat, lo: nat, hi: nat)
    requires p < |a| && lo <= hi <= BITS_PER_LONG && forall i :: lo <= i < hi ==> a[p][i] != v
    ensures NoneIs(a, v, p * BITS_PER_LONG + lo, p * BITS_PER_LONG + hi)
  {
    forall n | p * BITS_PER_LONG + lo <= n < p * BITS_PER_LONG + hi
      ensures BitAt(a, n) != v
    {
      InWord(a, p, n);
    }
  }

  /** A search that saw nothing up to bit lo of word p, and finds its next v at bit k. */
  lemma {:induction false} FoundAt(a: seq<Word>, v: bool, size: nat, offset: nat, p: nat, lo: nat, k: nat)
    requires size <= |a| * BITS_PER_LONG && p < |a| && lo <= k < BITS_PER_LONG
    requires offset <= p * BITS_PER_LONG + lo && p * BITS_PER_LONG + k < size
    requires NoneIs(a, v, offset, p * BITS_PER_LONG + lo)
    requires a[p][k] == v && forall i :: lo <= i < k ==> a[p][i] != v
    ensures IsNext(a, v, size, offset, p * BITS_PER_LONG + k)
  {
    WordNone(a, v, p, lo, k);
    InWord(a, p, p * BITS_PER_LONG + k);
  }

  /** A search that saw nothing up to bit lo of word p, nor in the word's bits below size. */
  lemma {:induction false} FoundNone(a: seq<Word>, v: bool, size: nat, offset: nat, p: nat, lo: nat, left: nat)
    requires size <= |a| * BITS_PER_LONG && p < |a| && lo <= left <= BITS_PER_LONG
    requires offset <= p * BITS_PER_LONG + lo && p * BITS_PER_LONG + left <= size && offset < size
    requires NoneIs(a, v, offset, p * BITS_PER_LONG + lo)
    requires forall i :: lo <= i < left ==> a[p][i] != v
    ensures NoneIs(a, v, offset, p * BITS_PER_LONG + left)
  {
    WordNone(a, v, p, lo, left);
  }

  /** The found_first tail of find_next_bit: the last, partial word, already masked below lo. */
  method FoundFirst(addr: array<Word>, tmp: Word, size: nat, offset: nat, p: nat, lo: nat) returns (r: nat)
    requires p < addr.Length && p * BITS_PER_LONG < size < (p + 1) * BITS_PER_LONG
    requires size <= addr.Length * BITS_PER_LONG && offset < size
    requires offset <= p * BITS_PER_LONG + lo < size && NoneIs(addr[..], true, offset, p * BITS_PER_LONG + lo)
    requires forall i :: 0 <= i < BITS_PER_LONG ==> (tmp[i] <==> addr[p][i] && lo <= i)
    ensures IsNext(addr[..], true, size, offset, r)
  {
    var left := size - p * BITS_PER_LONG;
    var low := Shr(Ones(), BITS_PER_LONG - left);
    var t := And(tmp, low);
    assert forall i :: 0 <= i < BITS_PER_LONG ==> (t[i] <==> tmp[i] && i < left);
    ZeroIsClear(t);
    if t == Zero() {
      assert forall i :: lo <= i < left ==> addr[..][p][i] == tmp[i] == t[i];
      FoundNone(addr[..], true, size, offset, p, lo, left);
      return size;
    }
    var k := Ffsl(t);
    assert forall i :: lo <= i < k ==> addr[..][p][i] == tmp[i] == t[i];
    FoundAt(addr[..], true, size, offset, p, lo, k);
    r := p * BITS_PER_LONG + k;
  }

  /** find_next_bit */
  method FindNextBit(addr: array<Word>, size: nat, offset: nat) returns (r: nat)
    requires size <= addr.Length * BITS_PER_LONG
    ensures IsNext(addr[..], true, size, offset, r)
  {
    if offset >= size {
      return size;
    }
    var p, off := offset / BITS_PER_LONG, offset % BITS_PER_LONG;
    if off != 0 {
      var tmp := And(addr[p], Shl(Ones(), off));
      assert forall i :: 0 <= i < BITS_PER_LONG ==> (tmp[i] <==> addr[p][i] && off <= i);
      if size - p * BITS_PER_LONG < BITS_PER_LONG {
        r := FoundFirst(addr, tmp, size, offset, p, off);
        return;
      }
      ZeroIsClear(tmp);
      if tmp != Zero() {
        var k := Ffsl(tmp);
        assert forall i :: off <= i < k ==> addr[..][p][i] == tmp[i];
        FoundAt(addr[..], true, size, offset, p, off, k);
        return p * BITS_PER_LONG + k;
      }
      assert forall i :: off <= i < BITS_PER_LONG ==> addr[..][p][i] == tmp[i];
      FoundNone(addr[..], true, size, offset, p, off, BITS_PER_LONG);
      p := p + 1;
    }
    while size - p * BITS_PER_LONG >= BITS_PER_LONG
      invariant offset <= p * BITS_PER_LONG <= size && NoneIs(addr[..], true, offset, p * BITS_PER_LONG)
    {
      ZeroIsClear(addr[p]);
      if addr[p] != Zero() {
        var k := Ffsl(addr[p]);
        FoundAt(addr[..], true, size, offset, p, 0, k);
        return p * BITS_PER_LONG + k;
      }
      FoundNone(addr[..], true, size, offset, p, 0, BITS_PER_LONG);
      p := p + 1;
    }
    if size == p * BITS_PER_LONG {
      return size;
    }
    r := FoundFirst(addr, addr[p], size, offset, p, 0);
  }

  /** The found_first tail of find_next_zero_bit. */
  method FoundFirstZero(addr: array<Word>, tmp: Word, size: nat, offset: nat, p: nat, lo: nat) returns (r: nat)
    requires p < addr.Length && p * BITS_PER_LONG < size < (p + 1) * BITS_PER_LONG
    requires size <= addr.Length * BITS_PER_LONG && offset < size
    requires offset <= p * BITS_PER_LONG + lo < size && NoneIs(addr[..], false, offset, p * BITS_PER_LONG + lo)
    requires forall i :: 0 <= i < BITS_PER_LONG ==> (tmp[i] <==> addr[p][i] || i < lo)
    ensures IsNext(addr[..], false, size, offset, r)
  {
    var left := size - p * BITS_PER_LONG;
    var t := Or(tmp, Shl(Ones(), left));
    assert forall i :: 0 <= i < BITS_PER_LONG ==> (t[i] <==> tmp[i] || i >= left);
    NotZero(t);
    if t == Ones() {
      assert forall i :: lo <= i < left ==> addr[..][p][i] == tmp[i] == t[i];
      FoundNone(addr[..], false, size, offset, p, lo, left);
      return size;
    }
    var k := Ffz(t);
    assert forall i :: lo <= i < k ==> addr[..][p][i] == tmp[i] == t[i];
    FoundAt(addr[..], false, size, offset, p, lo, k);
    r := p * BITS_PER_LONG + k;
  }

  /** find_next_zero_bit */
  method FindNextZeroBit(addr: array<Word>, size: nat, offset: nat) returns (r: nat)
    requires size <= addr.Length * BITS_PER_LONG
    ensures IsNext(addr[..], false, size, offset, r)
  {
    if offset >= size {
      return size;
    }
    var p, off := offset / BITS_PER_LONG, offset % BITS_PER_LONG;
    if off != 0 {
      var tmp := Or(addr[p], Shr(Ones(), BITS_PER_LONG - off));
      assert forall i :: 0 <= i < BITS_PER_LONG ==> (tmp[i] <==> addr[p][i] || i < off);
      if size - p * BITS_PER_LONG < BITS_PER_LONG {
        r := FoundFirstZero(addr, tmp, size, offset, p, off);
        return;
      }
      NotZero(tmp);
      if Not(tmp) != Zero() {
        var k := Ffz(tmp);
        assert forall i :: off <= i < k ==> addr[..][p][i] == tmp[i];
        FoundAt(addr[..], false, size, offset, p, off, k);
        return p * BITS_PER_LONG + k;
      }
      assert forall i :: off <= i < BITS_PER_LONG ==> addr[..][p][i] == tmp[i];
      FoundNone(addr[..], false, size, offset, p, off, BITS_PER_LONG);
      p := p + 1;
    }
    while size - p * BITS_PER_LONG >= BITS_PER_LONG
      invariant offset <= p * BITS_PER_LONG <= size && NoneIs(addr[..], false, offset, p * BITS_PER_LONG)
    {
      hide Or, Shl, Shr;
      NotZero(addr[p]);
      if Not(addr[p]) != Zero() {
        var k := Ffz(addr[p]);
        FoundAt(addr[..], false, size, offset, p, 0, k);
        return p * BITS_PER_LONG + k;
      }
      FoundNone(addr[..], false, size, offset, p, 0, BITS_PER_LONG);
      p := p + 1;
    }
    if size == p * BITS_PER_LONG {
      return size;
    }
    r := FoundFirstZero(addr, addr[p], size, offset, p, 0);
  }

  /** find_last_bit */
  method FindLastBit(addr: array<Word>, size: nat) returns (r: nat)
    requires size <= addr.Length * BITS_PER_LONG
    ensures IsLast(addr[..], size, r)
  {
    var words, part := size / BITS_PER_LONG, size % BITS_PER_LONG;
    if part != 0 {
      var tmp := And(addr[words], Shr(Ones(), BITS_PER_LONG - part));
      assert forall i :: 0 <= i < BITS_PER_LONG ==> (tmp[i] <==> addr[words][i] && i < part);
      ZeroIsClear(tmp);
      if tmp != Zero() {
        var k := Flsl(tmp);
        assert forall i :: k + 1 <= i < part ==> addr[..][words][i] == tmp[i];
        WordNone(addr[..], true, words, k + 1, part);
        InWord(addr[..], words, words * BITS_PER_LONG + k);
        return words * BITS_PER_LONG + k;
      }
      assert forall i :: 0 <= i < part ==> addr[..][words][i] == tmp[i];
      WordNone(addr[..], true, words, 0, part);
    }
    while words > 0
      invariant 0 <= words * BITS_PER_LONG <= size && NoneIs(addr[..], true, words * BITS_PER_LONG, size)
    {
      words := words - 1;
      ZeroIsClear(addr[words]);
      if addr[words] != Zero() {
        var k := Flsl(addr[words]);
        WordNone(addr[..], true, words, k + 1, BITS_PER_LONG);
        InWord(addr[..], words, words * BITS_PER_LONG + k);
        return words * BITS_PER_LONG + k;
      }
      WordNone(addr[..], true, words, 0, BITS_PER_LONG);
    }
    r := size;
  }

  /** The answers are fixed by the bits below size: what lies past it cannot matter. */
  lemma {:induction false} SearchesAgree(a: seq<Word>, b: seq<Word>, v: bool, size: nat, offset: nat, r: nat, s: nat)
    requires size <= |a| * BITS_PER_LONG && size <= |b| * BITS_PER_LONG
    requires forall n :: 0 <= n < size ==> BitAt(a, n) == BitAt(b, n)
    ensures IsNext(a, v, size, offset, r) && IsNext(b, v, size, offset, s) ==> r == s
    ensures IsLast(a, size, r) && IsLast(b, size, s) ==> r == s
  {
    assert r < size ==> BitAt(a, r) == BitAt(b, r);
    assert s < size ==> BitAt(a, s) == BitAt(b, s);
  }
}
