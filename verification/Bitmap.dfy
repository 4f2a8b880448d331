/** bitmap.c: range updates on an array of words and the aligned first-fit search built on the
    word-wise searches; bitops.h: updates and tests of single bits. */
module Bitmap {
  import opened Bitops

  /** b is a with the bits lo..hi made v and every other bit as it was. */
  predicate RangeIs(a: seq<Word>, b: seq<Word>, v: bool, lo: nat, hi: nat) {
    && |a| == |b|
    && forall n :: 0 <= n < |b| * BITS_PER_LONG ==> BitAt(b, n) == if lo <= n < hi then v else BitAt(a, n)
  }

  /** Changing word p by a mask of bits from..to extends a range that reached `from` to `to`. */
  lemma {:induction false} ExtendRange(a: seq<Word>, b: seq<Word>, p: nat, mask: Word, w: Word, v: bool, lo: nat,
                                       from: nat, to: nat)
    requires RangeIs(a, b, v, lo, from) && p < |b| && lo <= from <= to
    requires p * BITS_PER_LONG <= from && to <= (p + 1) * BITS_PER_LONG
    requires forall i :: 0 <= i < BITS_PER_LONG ==> (mask[i] <==> from <= p * BITS_PER_LONG + i < to)
    requires forall i :: 0 <= i < BITS_PER_LONG ==> w[i] == if mask[i] then v else b[p][i]
    ensures RangeIs(a, b[p := w], v, lo, to)
  {
    var c := b[p := w];
    forall n | 0 <= n < |c| * BITS_PER_LONG
      ensures BitAt(c, n) == if lo <= n < to then v else BitAt(a, n)
    {
      if p * BITS_PER_LONG <= n < (p + 1) * BITS_PER_LONG {
        InWord(c, p, n);
        InWord(b, p, n);
      } else {
        assert n / BITS_PER_LONG != p;
        assert BitAt(c, n) == BitAt(b, n);
      }
    }
  }

  // ------------------------------------------------------------------ single bits

  /** set_bit and clear_bit change exactly bit nr. */
  method SetBit(nr: nat, addr: array<Word>)
    requires nr < addr.Length * BITS_PER_LONG
    modifies addr
    ensures RangeIs(old(addr[..]), addr[..], true, nr, nr + 1)
  {
    var p, mask := nr / BITS_PER_LONG, Bit(nr % BITS_PER_LONG);
    ExtendRange(addr[..], addr[..], p, mask, Or(addr[p], mask), true, nr, nr, nr + 1);
    addr[p] := Or(addr[p], mask);
  }

  method ClearBit(nr: nat, addr: array<Word>)
    requires nr < addr.Length * BITS_PER_LONG
    modifies addr
    ensures RangeIs(old(addr[..]), addr[..], false, nr, nr + 1)
  {
    var p, mask := nr / BITS_PER_LONG, Bit(nr % BITS_PER_LONG);
    ExtendRange(addr[..], addr[..], p, mask, And(addr[p], Not(mask)), false, nr, nr, nr + 1);
    addr[p] := And(addr[p], Not(mask));
  }

  /** test_bit: the word shifted right until bit nr is the lowest. */
  method TestBit(nr: nat, addr: array<Word>) returns (r: bool)
    requires nr < addr.Length * BITS_PER_LONG
    ensures r == BitAt(addr[..], nr)
  {
    r := Shr(addr[nr / BITS_PER_LONG], nr % BITS_PER_LONG)[0];
  }

  // ------------------------------------------------------------------ ranges

  /** A word's value as an unsigned number. */
  function Value(w: seq<bool>): nat {
    if w == [] then 0 else (if w[0] then 1 else 0) + 2 * Value(w[1..])
  }

  function Pow2(k: nat): nat {
    if k == 0 then 1 else 2 * Pow2(k - 1)
  }

  /** The word (1 << k) - 1. */
  function Below(k: nat): Word
    requires k <= BITS_PER_LONG
  {
    seq(BITS_PER_LONG, i => i < k)
  }

  lemma {:induction false} BelowValue(n: nat, k: nat)
    requires k <= n
    ensures Value(seq(n, i => i < k)) == Pow2(k) - 1
  {
    var w := seq(n, i => i < k);
    if n > 0 {
      var j := if k == 0 then 0 else k - 1;
      BelowValue(n - 1, j);
      assert w[1..] == seq(n - 1, i => i < j);
    }
  }

  /** BITMAP_FIRST_WORD_MASK and BITMAP_LAST_WORD_MASK */
  function FirstWordMask(start: nat): Word { Shl(Ones(), start % BITS_PER_LONG) }
  function LastWordMask(nbits: nat): Word {
    if nbits % BITS_PER_LONG != 0 then Below(nbits % BITS_PER_LONG) else Ones()
  }

  /** The masks have the values the macros compute, all ones being the largest word. */
  lemma {:induction false} LastWordMaskValue(nbits: nat)
    ensures var k := nbits % BITS_PER_LONG;
            Value(LastWordMask(nbits)) == (if k != 0 then Pow2(k) else Pow2(BITS_PER_LONG)) - 1
  {
    var k := nbits % BITS_PER_LONG;
    BelowValue(BITS_PER_LONG, k);
    BelowValue(BITS_PER_LONG, BITS_PER_LONG);
    assert Ones() == seq(BITS_PER_LONG, i => i < BITS_PER_LONG);
    assert Below(k) == seq(BITS_PER_LONG, i => i < k);
  }

  /** bitmap_set */
  method Set(addr: array<Word>, start: nat, nr: nat)
    requires start + nr <= addr.Length * BITS_PER_LONG
    modifies addr
    ensures RangeIs(old(addr[..]), addr[..], true, start, start + nr)
  {
    var p, size, left := start / BITS_PER_LONG, start + nr, nr;
    var bitsToSet, mask := BITS_PER_LONG - start % BITS_PER_LONG, FirstWordMask(start);
    while left - bitsToSet >= 0
      invariant 0 <= left <= nr && 0 < bitsToSet <= BITS_PER_LONG
      invariant size - left == (p + 1) * BITS_PER_LONG - bitsToSet && p >= 0
      invariant forall i :: 0 <= i < BITS_PER_LONG ==> (mask[i] <==> i >= BITS_PER_LONG - bitsToSet)
      invariant RangeIs(old(addr[..]), addr[..], true, start, size - left)
    {
      hide RangeIs;
      ExtendRange(old(addr[..]), addr[..], p, mask, Or(addr[p], mask), true, start, size - left,
                  (p + 1) * BITS_PER_LONG);
      ghost var was := addr[..];
      addr[p] := Or(addr[p], mask);
      assert addr[..] == was[p := addr[p]];
      left := left - bitsToSet;
      bitsToSet, mask, p := BITS_PER_LONG, Ones(), p + 1;
    }
    if left != 0 {
      LastMask(mask, p, size, left, bitsToSet);
      mask := And(mask, LastWordMask(size));
      ExtendRange(old(addr[..]), addr[..], p, mask, Or(addr[p], mask), true, start, size - left, size);
      addr[p] := Or(addr[p], mask);
    }
  }

  /** The mask for the last, partial word selects exactly what is left. */
  lemma {:induction false} LastMask(mask: Word, p: nat, size: nat, left: nat, bits: nat)
    requires 0 < left < bits <= BITS_PER_LONG && left <= size
    requires size - left == (p + 1) * BITS_PER_LONG - bits
    requires forall i :: 0 <= i < BITS_PER_LONG ==> (mask[i] <==> i >= BITS_PER_LONG - bits)
    ensures forall i :: 0 <= i < BITS_PER_LONG
              ==> (And(mask, LastWordMask(size))[i] <==> size - left <= p * BITS_PER_LONG + i < size)
  {
    assert size / BITS_PER_LONG == p && size % BITS_PER_LONG == size - p * BITS_PER_LONG;
  }

  /** bitmap_clear */
  method Unset(addr: array<Word>, start: nat, nr: nat)
    requires start + nr <= addr.Length * BITS_PER_LONG
    modifies addr
    ensures RangeIs(old(addr[..]), addr[..], false, start, start + nr)
  {
    var p, size, left := start / BITS_PER_LONG, start + nr, nr;
    var bitsToClear, mask := BITS_PER_LONG - start % BITS_PER_LONG, FirstWordMask(start);
    while left - bitsToClear >= 0
      invariant 0 <= left <= nr && 0 < bitsToClear <= BITS_PER_LONG
      invariant size - left == (p + 1) * BITS_PER_LONG - bitsToClear && p >= 0
      invariant forall i :: 0 <= i < BITS_PER_LONG ==> (mask[i] <==> i >= BITS_PER_LONG - bitsToClear)
      invariant RangeIs(old(addr[..]), addr[..], false, start, size - left)
    {
      hide RangeIs;
      ExtendRange(old(addr[..]), addr[..], p, mask, And(addr[p], Not(mask)), false, start, size - left,
                  (p + 1) * BITS_PER_LONG);
      ghost var was := addr[..];
      addr[p] := And(addr[p], Not(mask));
      assert addr[..] == was[p := addr[p]];
      left := left - bitsToClear;
      bitsToClear, mask, p := BITS_PER_LONG, Ones(), p + 1;
    }
    if left != 0 {
      LastMask(mask, p, size, left, bitsToClear);
      mask := And(mask, LastWordMask(size));
      ExtendRange(old(addr[..]), addr[..], p, mask, And(addr[p], Not(mask)), false, start, size - left, size);
      addr[p] := And(addr[p], Not(mask));
    }
  }

  // ------------------------------------------------------------------ alignment

  /** Consecutive multiples of d are d apart. */
  lemma {:induction false} NextMultiple(d: nat, a: int, b: int)
    requires a < b
    ensures d * a + d <= d * b
    decreases b - a
  {
    if a + 1 == b {
      assert d * b == d * a + d;
    } else {
      NextMultiple(d, a, b - 1);
      assert d * b == d * (b - 1) + d;
    }
  }

  lemma {:induction false} ModUnique(x: int, d: nat, q: int, r: int)
    requires d > 0 && x == d * q + r && 0 <= r < d
    ensures x % d == r
  {
    var q' := x / d;
    if q < q' {
      NextMultiple(d, q, q');
    } else if q' < q {
      NextMultiple(d, q', q);
    }
  }

  lemma {:induction false} Pow2Positive(k: nat)
    ensures Pow2(k) > 0
  {
    if k > 0 { Pow2Positive(k - 1); }
  }

  lemma {:induction false} DoubleMod(b: nat, v: nat, d: nat)
    requires d > 0 && b < 2
    ensures (b + 2 * v) % (2 * d) == b + 2 * (v % d)
  {
    assert b + 2 * v == (2 * d) * (v / d) + (b + 2 * (v % d));
    ModUnique(b + 2 * v, 2 * d, v / d, b + 2 * (v % d));
  }

  /** x & ~((1 << k) - 1) takes the remainder by 1 << k away. */
  lemma {:induction false} ClearLow(w: seq<bool>, k: nat)
    requires k <= |w|
    ensures Pow2(k) > 0 && Value(seq(|w|, i requires 0 <= i < |w| => w[i] && i >= k)) == Value(w) - Value(w) % Pow2(k)
  {
    var m := seq(|w|, i requires 0 <= i < |w| => w[i] && i >= k);
    Pow2Positive(k);
    if k == 0 {
      assert m == w;
    } else {
      var w', d := w[1..], Pow2(k - 1);
      ClearLow(w', k - 1);
      assert m[1..] == seq(|w'|, i requires 0 <= i < |w'| => w'[i] && i >= k - 1);
      var b, v := (if w[0] then 1 else 0), Value(w');
      DoubleMod(b, v, d);
    }
  }

  /** Bit by bit, a | b. */
  function OrBits(a: seq<bool>, b: seq<bool>): seq<bool>
    requires |a| == |b|
  {
    seq(|a|, i requires 0 <= i < |a| => a[i] || b[i])
  }

  /** Numbers without a common bit are or-ed by adding them. */
  lemma {:induction false} OrIsSum(a: seq<bool>, b: seq<bool>)
    requires |a| == |b| && forall i :: 0 <= i < |a| ==> !(a[i] && b[i])
    ensures Value(OrBits(a, b)) == Value(a) + Value(b)
  {
    if a != [] {
      OrIsSum(a[1..], b[1..]);
      assert OrBits(a, b)[1..] == OrBits(a[1..], b[1..]);
      assert !(a[0] && b[0]);
    }
  }

  /** A multiple of 1 << k has its k low bits clear. */
  lemma {:induction false} LowClear(a: seq<bool>, k: nat)
    requires Pow2(k) > 0 && Value(a) % Pow2(k) == 0
    ensures forall i :: 0 <= i < k && i < |a| ==> !a[i]
  {
    if k > 0 && a != [] {
      var b, v, d := (if a[0] then 1 else 0), Value(a[1..]), Pow2(k - 1);
      Pow2Positive(k - 1);
      DoubleMod(b, v, d);
      LowClear(a[1..], k - 1);
      assert forall i :: 0 < i < |a| ==> a[i] == a[1..][i - 1];
    }
  }

  /** A number below 1 << k has no other bits. */
  lemma {:induction false} HighClear(a: seq<bool>, k: nat)
    requires Value(a) < Pow2(k)
    ensures forall i :: k <= i < |a| ==> !a[i]
  {
    if a != [] {
      var j := if k == 0 then 0 else k - 1;
      HighClear(a[1..], j);
      assert forall i :: 0 < i < |a| ==> a[i] == a[1..][i - 1];
    }
  }

  /** ALIGN_MASK with mask (1 << k) - 1. */
  function AlignMask(x: nat, k: nat): int {
    Pow2Positive(k);
    var top := x + (Pow2(k) - 1);
    top - top % Pow2(k)
  }

  /** It is what the macro computes: the word of x + mask and the complement of the mask. */
  lemma {:induction false} AlignMaskIsMasking(w: Word, x: nat, k: nat)
    requires k <= BITS_PER_LONG && Value(w) == x + (Pow2(k) - 1)
    ensures AlignMask(x, k) == Value(And(w, Not(Below(k))))
  {
    ClearLow(w, k);
    assert And(w, Not(Below(k))) == seq(|w|, i requires 0 <= i < |w| => w[i] && i >= k);
  }

  predicate Aligned(x: nat, k: nat) {
    Pow2Positive(k);
    x % Pow2(k) == 0
  }

  lemma {:induction false} RoundsUp(x: nat, d: nat, y: nat)
    requires d > 0 && x <= y && y % d == 0
    ensures (x + (d - 1)) - (x + (d - 1)) % d <= y
  {
    var q, s := (x + (d - 1)) / d, y / d;
    if s < q {
      NextMultiple(d, s, q);
    } else if q < s {
      NextMultiple(d, q, s);
    }
  }

  lemma {:induction false} RoundedIsMultiple(x: nat, d: nat)
    requires d > 0
    ensures (x + (d - 1)) - (x + (d - 1)) % d >= x && ((x + (d - 1)) - (x + (d - 1)) % d) % d == 0
  {
    var q := (x + (d - 1)) / d;
    ModUnique(d * q, d, q, 0);
  }

  /** It is the least aligned number from x on. */
  lemma {:induction false} AlignsUp(x: nat, k: nat)
    ensures AlignMask(x, k) >= x && Aligned(AlignMask(x, k), k)
    ensures forall y: nat :: x <= y && Aligned(y, k) ==> AlignMask(x, k) <= y
  {
    Pow2Positive(k);
    RoundedIsMultiple(x, Pow2(k));
    forall y: nat | x <= y && Aligned(y, k)
      ensures AlignMask(x, k) <= y
    {
      RoundsUp(x, Pow2(k), y);
    }
  }

  // ------------------------------------------------------------------ areas

  /** An aligned stretch of nr clear bits inside size. */
  predicate Area(a: seq<Word>, size: nat, nr: nat, k: nat, s: nat)
    requires size <= |a| * BITS_PER_LONG
  {
    Aligned(s, k) && s + nr <= size && NoneIs(a, true, s, s + nr)
  }

  /** No area starts in lo..hi. */
  predicate NoArea(a: seq<Word>, size: nat, nr: nat, k: nat, lo: nat, hi: nat)
    requires size <= |a| * BITS_PER_LONG
  {
    forall s :: lo <= s < hi ==> !Area(a, size, nr, k, s)
  }

  /** bitmap_find_next_zero_area with align_mask (1 << k) - 1: for nr > 0 the least area from start
      on, or a number above size exactly when there is none. */
  method FindNextZeroArea(addr: array<Word>, size: nat, start: nat, nr: nat, k: nat) returns (index: nat)
    requires size <= addr.Length * BITS_PER_LONG
    ensures nr > 0 && index <= size ==> start <= index && Area(addr[..], size, nr, k, index)
                                        && NoArea(addr[..], size, nr, k, start, index)
    ensures nr > 0 && index > size ==> forall s :: start <= s ==> !Area(addr[..], size, nr, k, s)
  {
    var from := start;
    while true
      invariant start <= from && (nr > 0 ==> NoArea(addr[..], size, nr, k, start, from))
      decreases size - from
    {
      hide Area, Aligned, AlignMask, NoneIs;
      var zero := FindNextZeroBit(addr, size, from);
      AlignsUp(zero, k);
      index := AlignMask(zero, k);
      if nr > 0 {
        SkipSet(addr[..], size, nr, k, from, zero, index);
      }
      var end := index + nr;
      if end > size {
        if nr > 0 {
          BeyondEnd(addr[..], size, nr, k, start, from, index);
        }
        return end;
      }
      var i := FindNextBit(addr, end, index);
      if i >= end {
        if nr > 0 {
          Found(addr[..], size, nr, k, from, index, i);
        }
        return;
      }
      Blocked(addr[..], size, nr, k, from, index, i);
      from := i + 1;
    }
  }

  /** Between the search position and the next clear bit, rounded up, no area can start. */
  lemma {:induction false} SkipSet(a: seq<Word>, size: nat, nr: nat, k: nat, from: nat, zero: nat, index: nat)
    requires size <= |a| * BITS_PER_LONG && nr > 0
    requires IsNext(a, false, size, from, zero) && zero <= index
    requires forall y: nat :: zero <= y && Aligned(y, k) ==> index <= y
    ensures NoArea(a, size, nr, k, from, index)
  {
    forall s | from <= s < index
      ensures !Area(a, size, nr, k, s)
    {
      if s < zero {
        assert s < size ==> BitAt(a, s);
      }
    }
  }

  lemma {:induction false} BeyondEnd(a: seq<Word>, size: nat, nr: nat, k: nat, start: nat, from: nat, index: nat)
    requires size <= |a| * BITS_PER_LONG && index + nr > size
    requires NoArea(a, size, nr, k, start, from) && NoArea(a, size, nr, k, from, index)
    ensures forall s :: start <= s ==> !Area(a, size, nr, k, s)
  {
  }

  lemma {:induction false} Found(a: seq<Word>, size: nat, nr: nat, k: nat, from: nat, index: nat, i: nat)
    requires size <= |a| * BITS_PER_LONG && nr > 0 && index + nr <= size && Aligned(index, k)
    requires IsNext(a, true, index + nr, index, i) && i >= index + nr
    ensures Area(a, size, nr, k, index)
  {
  }

  /** A set bit inside the candidate rules out every start up to it. */
  lemma {:induction false} Blocked(a: seq<Word>, size: nat, nr: nat, k: nat, from: nat, index: nat, i: nat)
    requires size <= |a| * BITS_PER_LONG && index + nr <= size
    requires IsNext(a, true, index + nr, index, i) && i < index + nr
    ensures nr > 0 && index <= i && BitAt(a, i)
    ensures NoArea(a, size, nr, k, from, index) ==> NoArea(a, size, nr, k, from, i + 1)
  {
    forall s | index <= s <= i
      ensures !Area(a, size, nr, k, s)
    {
      assert BitAt(a, i);
    }
  }

  // ------------------------------------------------------------------ claiming and releasing

  /** Areas in use, as start and length: each holds only set bits and no two overlap. */
  ghost predicate Held(a: seq<Word>, areas: set<(nat, nat)>) {
    && (forall x :: x in areas ==> x.0 + x.1 <= |a| * BITS_PER_LONG && NoneIs(a, false, x.0, x.0 + x.1))
    && (forall x, y :: x in areas && y in areas && x != y ==> Disjoint(x, y))
  }

  predicate Disjoint(x: (nat, nat), y: (nat, nat)) {
    x.0 + x.1 <= y.0 || y.0 + y.1 <= x.0
  }

  /** Claiming an area of clear bits keeps every area in use apart from every other. */
  lemma {:induction false} ClaimKeeps(a: seq<Word>, b: seq<Word>, areas: set<(nat, nat)>, s: nat, nr: nat)
    requires Held(a, areas) && nr > 0 && s + nr <= |a| * BITS_PER_LONG && NoneIs(a, true, s, s + nr)
    requires RangeIs(a, b, true, s, s + nr) && forall x :: x in areas ==> x.1 > 0
    ensures Held(b, areas + {(s, nr)}) && (s, nr) !in areas
  {
    forall x | x in areas
      ensures Disjoint(x, (s, nr)) && Disjoint((s, nr), x) && NoneIs(b, false, x.0, x.0 + x.1)
    {
      ApartFromClear(a, x, s, nr);
      forall n | x.0 <= n < x.0 + x.1
        ensures BitAt(b, n)
      {
        assert BitAt(a, n);
      }
    }
  }

  /** A stretch of set bits and a stretch of clear bits do not overlap. */
  lemma {:induction false} ApartFromClear(a: seq<Word>, x: (nat, nat), s: nat, nr: nat)
    requires x.0 + x.1 <= |a| * BITS_PER_LONG && x.1 > 0 && NoneIs(a, false, x.0, x.0 + x.1)
    requires nr > 0 && s + nr <= |a| * BITS_PER_LONG && NoneIs(a, true, s, s + nr)
    ensures Disjoint(x, (s, nr))
  {
    var n := if x.0 < s then s else x.0;
    assert n < x.0 + x.1 ==> BitAt(a, n);
    assert n < s + nr ==> !BitAt(a, n);
  }

  /** Releasing one area leaves the others in use. */
  lemma {:induction false} ReleaseKeeps(a: seq<Word>, b: seq<Word>, areas: set<(nat, nat)>, x: (nat, nat))
    requires Held(a, areas) && x in areas && RangeIs(a, b, false, x.0, x.0 + x.1)
    ensures Held(b, areas - {x})
  {
    forall y | y in areas - {x}
      ensures NoneIs(b, false, y.0, y.0 + y.1)
    {
      assert Disjoint(x, y);
      forall n | y.0 <= n < y.0 + y.1
        ensures BitAt(b, n)
      {
        assert BitAt(a, n);
      }
    }
  }

  datatype Request = Alloc(start: nat, nr: nat, k: nat) | Free(area: (nat, nat))

  /** The areas in use after requests answered by `got`; an answer above size is a refusal. */
  function InUse(requests: seq<Request>, got: seq<nat>, size: nat): set<(nat, nat)>
    requires |got| == |requests|
  {
    if requests == [] then {}
    else
      var last := |requests| - 1;
      var before := InUse(requests[..last], got[..last], size);
      match requests[last]
      case Alloc(start, nr, k) => if nr > 0 && got[last] <= size then before + {(got[last], nr)} else before
      case Free(x) => before - {x}
  }

  /** Any sequence of allocations from any position (the search followed by bitmap_set) and releases of
      areas in use (bitmap_clear): the areas in use never overlap, their bits stay set, and a request is
      refused only when no area is free. `maps` is the bitmap after each request. */
  method Serve(addr: array<Word>, size: nat, requests: seq<Request>)
    returns (got: seq<nat>, areas: set<(nat, nat)>, ghost maps: seq<seq<Word>>)
    requires size <= addr.Length * BITS_PER_LONG
    modifies addr
    ensures |got| == |requests| && areas == InUse(requests, got, size) && Held(addr[..], areas)
    ensures |maps| == |requests| + 1 && maps[0] == old(addr[..]) && maps[|requests|] == addr[..]
    ensures forall j :: 0 <= j < |requests|
                        ==> Answered(maps[j], maps[j + 1], size, requests[j], got[j],
                                     InUse(requests[..j], got[..j], size))
  {
    got, areas, maps := [], {}, [addr[..]];
    for j := 0 to |requests|
      invariant |got| == j && areas == InUse(requests[..j], got, size)
      invariant Held(addr[..], areas) && forall x :: x in areas ==> x.1 > 0
      invariant |maps| == j + 1 && maps[0] == old(addr[..]) && maps[j] == addr[..]
      invariant forall i :: 0 <= i < j
                            ==> Answered(maps[i], maps[i + 1], size, requests[i], got[i],
                                         InUse(requests[..i], got[..i], size))
    {
      hide Held, InUse, Answered;
      var s, new_ := ServeOne(addr, size, requests[j], areas);
      InUseStep(requests, got, s, size, j);
      assert (got + [s])[..j] == got;
      assert forall i :: 0 <= i < j ==> (got + [s])[..i] == got[..i];
      got, areas, maps := got + [s], new_, maps + [addr[..]];
    }
    assert requests[..|requests|] == requests;
  }

  /** One request and its answer on the bitmap before and after it: an allocation takes the least area
      from its start on, and is refused exactly when there is none. */
  ghost predicate Answered(a: seq<Word>, b: seq<Word>, size: nat, req: Request, s: nat, areas: set<(nat, nat)>) {
    && |a| == |b| && size <= |a| * BITS_PER_LONG
    && match req {
         case Alloc(start, nr, k) =>
           && (nr > 0 && s <= size ==> start <= s && Area(a, size, nr, k, s) && NoArea(a, size, nr, k, start, s)
                                       && RangeIs(a, b, true, s, s + nr))
           && (nr > 0 && s > size ==> forall i :: start <= i ==> !Area(a, size, nr, k, i))
           && (nr == 0 || s > size ==> a == b)
         case Free(x) => if x in areas then RangeIs(a, b, false, x.0, x.0 + x.1) else a == b
       }
  }

  lemma {:induction false} InUseStep(requests: seq<Request>, got: seq<nat>, s: nat, size: nat, j: nat)
    requires j < |requests| && |got| == j
    ensures InUse(requests[..j + 1], got + [s], size)
            == match requests[j] {
              case Alloc(start, nr, k) =>
                InUse(requests[..j], got, size) + (if nr > 0 && s <= size then {(s, nr)} else {})
              case Free(x) => InUse(requests[..j], got, size) - {x}
            }
  {
    assert requests[..j + 1][..j] == requests[..j] && (got + [s])[..j] == got;
  }

  method ServeOne(addr: array<Word>, size: nat, req: Request, areas: set<(nat, nat)>)
    returns (s: nat, new_: set<(nat, nat)>)
    requires size <= addr.Length * BITS_PER_LONG
    requires Held(addr[..], areas) && forall x :: x in areas ==> x.1 > 0
    modifies addr
    ensures Held(addr[..], new_) && forall x :: x in new_ ==> x.1 > 0
    ensures new_ == match req {
              case Alloc(start, nr, k) => areas + (if nr > 0 && s <= size then {(s, nr)} else {})
              case Free(x) => areas - {x}
            }
    ensures Answered(old(addr[..]), addr[..], size, req, s, areas)
  {
    ghost var was := addr[..];
    s, new_ := 0, areas;
    match req
    case Alloc(start, nr, k) =>
      s := FindNextZeroArea(addr, size, start, nr, k);
      if nr > 0 && s <= size {
        Set(addr, s, nr);
        ClaimKeeps(was, addr[..], areas, s, nr);
        new_ := areas + {(s, nr)};
      }
    case Free(x) =>
      if x in areas {
        Unset(addr, x.0, x.1);
        ReleaseKeeps(was, addr[..], areas, x);
        new_ := areas - {x};
      }
  }
}
