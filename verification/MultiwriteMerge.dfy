/** multiwrite_merge (block.c:2303-2372): joining sorted write requests, and exactly when
    the joined requests write what the originals would have. */
module MultiwriteMerge {
  import opened Common

  type u8 = bv8
  type Iovec = seq<seq<u8>>

  datatype Request = Request(sector: nat, nb: nat, qiov: Iovec) {
    function Start(): nat { sector * SECTOR }
    function Data(): seq<u8> { Flat(qiov) }
    function End(): nat { Start() + |Data()| }
    predicate Formed() { |Data()| == nb * SECTOR }
    predicate Covers(x: nat) { Start() <= x < End() }
  }

  // ------------------------------------------------------------------ vectors

  /** The bytes of a scatter list. */
  function Flat(v: Iovec): seq<u8> {
    if v == [] then [] else v[0] + Flat(v[1..])
  }

  lemma {:induction false} FlatConcat(a: Iovec, b: Iovec)
    ensures Flat(a + b) == Flat(a) + Flat(b)
  {
    if a == [] {
      assert a + b == b;
    } else {
      assert (a + b)[1..] == a[1..] + b;
      FlatConcat(a[1..], b);
    }
  }

  lemma {:induction false} FlatOne(s: seq<u8>)
    ensures Flat([s]) == s
  {
    assert [s][1..] == [];
    assert s + [] == s;
  }

  /** qemu_iovec_concat (cutils.c:177-214 with skip 0): entries of src up to `size` bytes, the
      last one cut to fit. */
  function Prefix(src: Iovec, size: nat): Iovec {
    if src == [] || size == 0 then []
    else if |src[0]| > size then [src[0][..size]]
    else [src[0]] + Prefix(src[1..], size - |src[0]|)
  }

  /** It appends at most `size` bytes of src, in order, with no more entries. */
  lemma {:induction false} PrefixTakes(src: Iovec, size: nat)
    ensures Flat(Prefix(src, size)) == Flat(src)[..Min(size, |Flat(src)|)] && |Prefix(src, size)| <= |src|
  {
    if src == [] || size == 0 {
    } else if |src[0]| > size {
      assert Flat([src[0][..size]]) == src[0][..size] + Flat([]);
    } else {
      PrefixTakes(src[1..], size - |src[0]|);
      var p := Prefix(src[1..], size - |src[0]|);
      assert ([src[0]] + p)[1..] == p;
    }
  }

  // ------------------------------------------------------------------ joining

  /** What the source is told from outside: the driver's bdrv_merge_requests hook, if any,
      and IOV_MAX. */
  datatype Env = Env(hook: (Request, Request) -> bool, iovMax: nat)

  /** The decision of block.c:2315-2334. */
  predicate Join(e: Env, cur: Request, r: Request) {
    && (r.sector <= cur.sector + cur.nb || e.hook(cur, r))
    && |cur.qiov| + |r.qiov| + 1 <= e.iovMax
  }

  /** Zero bytes between the two requests (block.c:2348-2354). */
  function Gap(cur: Request, r: Request): nat {
    if r.sector > cur.sector + cur.nb then (r.sector - (cur.sector + cur.nb)) * SECTOR else 0
  }

  /** The joined request (block.c:2337-2360). */
  function Joined(cur: Request, r: Request): Request
    requires cur.sector <= r.sector
  {
    var qiov := Prefix(cur.qiov, (r.sector - cur.sector) * SECTOR)
                + (if Gap(cur, r) > 0 then [Zeros(Gap(cur, r))] else [])
                + Prefix(r.qiov, |Flat(r.qiov)|);
    Request(cur.sector, |Flat(qiov)| / SECTOR, qiov)
  }

  lemma {:induction false} JoinedData(cur: Request, r: Request)
    requires cur.sector <= r.sector && cur.Formed() && r.Formed()
    ensures var size := (r.sector - cur.sector) * SECTOR;
            Joined(cur, r).Data() == cur.Data()[..Min(size, |cur.Data()|)] + Zeros(Gap(cur, r)) + r.Data()
    ensures Joined(cur, r).Formed() && Joined(cur, r).End() == r.End() && Joined(cur, r).Start() == cur.Start()
  {
    var size := (r.sector - cur.sector) * SECTOR;
    var a, c := Prefix(cur.qiov, size), Prefix(r.qiov, |Flat(r.qiov)|);
    var z: Iovec := if Gap(cur, r) > 0 then [Zeros(Gap(cur, r))] else [];
    PrefixTakes(cur.qiov, size);
    PrefixTakes(r.qiov, |Flat(r.qiov)|);
    FlatConcat(a + z, c);
    FlatConcat(a, z);
    FlatOne(Zeros(Gap(cur, r)));
    assert Flat(z) == Zeros(Gap(cur, r));
    assert Flat(r.qiov)[..|Flat(r.qiov)|] == Flat(r.qiov);
  }

  /** Requests left after merging, starting with group `cur` (block.c:2313-2369). */
  function Merge(e: Env, cur: Request, rest: seq<Request>): (out: seq<Request>)
    requires Sorted([cur] + rest)
    ensures |out| > 0
    decreases |rest|
  {
    if rest == [] then [cur]
    else
      SortedTail(cur, rest);
      if Join(e, cur, rest[0]) then
        SortedJoin(cur, Joined(cur, rest[0]), rest);
        Merge(e, Joined(cur, rest[0]), rest[1..])
      else [cur] + Merge(e, rest[0], rest[1..])
  }

  predicate Sorted(reqs: seq<Request>) {
    forall i, j :: 0 <= i < j < |reqs| ==> reqs[i].sector <= reqs[j].sector
  }

  lemma {:induction false} SortedTail(cur: Request, rest: seq<Request>)
    requires Sorted([cur] + rest) && rest != []
    ensures cur.sector <= rest[0].sector && Sorted([rest[0]] + rest[1..])
  {
    var all := [cur] + rest;
    assert all[0] == cur && all[1] == rest[0];
    assert [rest[0]] + rest[1..] == all[1..];
  }

  lemma {:induction false} SortedJoin(cur: Request, joined: Request, rest: seq<Request>)
    requires Sorted([cur] + rest) && rest != [] && joined.sector == cur.sector
    ensures Sorted([joined] + rest[1..])
  {
    var all, new_ := [cur] + rest, [joined] + rest[1..];
    assert forall i :: 0 < i < |new_| ==> new_[i] == all[i + 1];
    assert all[0] == cur;
  }

  predicate AllFormed(reqs: seq<Request>) {
    forall i :: 0 <= i < |reqs| ==> reqs[i].Formed()
  }

  // ------------------------------------------------------------------ meaning

  /** What byte x of the disk holds after one write. */
  function Put(r: Request, x: nat, v: u8): u8 {
    if r.Covers(x) then r.Data()[x - r.Start()] else v
  }

  /** What byte x, first holding v, holds after the writes are done in order. */
  function After(reqs: seq<Request>, x: nat, v: u8): u8 {
    if reqs == [] then v else After(reqs[1..], x, Put(reqs[0], x, v))
  }

  predicate Covered(reqs: seq<Request>, x: nat) {
    exists i :: 0 <= i < |reqs| && reqs[i].Covers(x)
  }

  /** Writing the zeros of a gap the driver agreed to fill. */
  function GapWrite(cur: Request, r: Request): seq<Request> {
    if Gap(cur, r) > 0 then [Request(cur.sector + cur.nb, Gap(cur, r) / SECTOR, [Zeros(Gap(cur, r))])] else []
  }

  /** The writes the merged list stands for, after `cur`: the original requests in order, each
      preceded by the zeros of the gap it was joined across. */
  function Intended(e: Env, cur: Request, rest: seq<Request>): seq<Request>
    requires Sorted([cur] + rest)
    decreases |rest|
  {
    if rest == [] then []
    else
      SortedTail(cur, rest);
      if Join(e, cur, rest[0]) then
        SortedJoin(cur, Joined(cur, rest[0]), rest);
        GapWrite(cur, rest[0]) + [rest[0]] + Intended(e, Joined(cur, rest[0]), rest[1..])
      else [rest[0]] + Intended(e, rest[0], rest[1..])
  }

  /** Byte x is in a part of a group that a join cut off, and nothing later writes it. */
  predicate Lost(e: Env, cur: Request, rest: seq<Request>, x: nat)
    requires Sorted([cur] + rest)
    decreases |rest|
  {
    rest != [] &&
    (SortedTail(cur, rest);
     if Join(e, cur, rest[0]) then
       SortedJoin(cur, Joined(cur, rest[0]), rest);
       || (rest[0].End() <= x < cur.End() && !Covered(Intended(e, Joined(cur, rest[0]), rest[1..]), x))
       || Lost(e, Joined(cur, rest[0]), rest[1..], x)
     else Lost(e, rest[0], rest[1..], x))
  }

  lemma {:induction false} AfterConcat(a: seq<Request>, b: seq<Request>, x: nat, v: u8)
    ensures After(a + b, x, v) == After(b, x, After(a, x, v))
  {
    if a == [] {
      assert a + b == b;
    } else {
      assert (a + b)[1..] == a[1..] + b;
      AfterConcat(a[1..], b, x, Put(a[0], x, v));
    }
  }

  lemma {:induction false} CoveredCons(r: Request, rest: seq<Request>, x: nat)
    ensures Covered([r] + rest, x) <==> r.Covers(x) || Covered(rest, x)
  {
    var all := [r] + rest;
    if r.Covers(x) {
      assert all[0].Covers(x);
    }
    if i :| 0 <= i < |rest| && rest[i].Covers(x) {
      assert all[i + 1].Covers(x);
    }
    if i :| 0 <= i < |all| && all[i].Covers(x) {
      assert i > 0 ==> all[i] == rest[i - 1];
    }
  }

  /** Where something is written the old byte does not matter; elsewhere it stays. */
  lemma {:induction false} AfterCovered(reqs: seq<Request>, x: nat, v: u8, w: u8)
    ensures Covered(reqs, x) ==> After(reqs, x, v) == After(reqs, x, w)
    ensures !Covered(reqs, x) ==> After(reqs, x, v) == v
  {
    if reqs != [] {
      assert [reqs[0]] + reqs[1..] == reqs;
      CoveredCons(reqs[0], reqs[1..], x);
      AfterCovered(reqs[1..], x, Put(reqs[0], x, v), Put(reqs[0], x, w));
    }
  }

  lemma {:induction false} FormedTail(cur: Request, rest: seq<Request>)
    requires AllFormed([cur] + rest) && rest != [] && Sorted([cur] + rest) && cur.sector <= rest[0].sector
    ensures cur.Formed() && rest[0].Formed()
    ensures AllFormed([rest[0]] + rest[1..]) && AllFormed([Joined(cur, rest[0])] + rest[1..])
  {
    var all := [cur] + rest;
    assert all[0] == cur && all[1] == rest[0];
    JoinedData(cur, rest[0]);
    var a, b := [rest[0]] + rest[1..], [Joined(cur, rest[0])] + rest[1..];
    assert forall i :: 0 < i < |a| ==> a[i] == all[i + 1];
    assert forall i :: 0 < i < |b| ==> b[i] == all[i + 1];
  }

  /** One join is the two writes and the gap's zeros, except on the bytes it cuts off. */
  lemma {:induction false} JoinPut(cur: Request, r: Request, x: nat, v: u8)
    requires cur.sector <= r.sector && cur.Formed() && r.Formed()
    ensures !(r.End() <= x < cur.End())
            ==> Put(Joined(cur, r), x, v) == After(GapWrite(cur, r) + [r], x, Put(cur, x, v))
  {
    JoinedData(cur, r);
    AfterConcat(GapWrite(cur, r), [r], x, Put(cur, x, v));
    assert After([r], x, After(GapWrite(cur, r), x, Put(cur, x, v)))
           == Put(r, x, After(GapWrite(cur, r), x, Put(cur, x, v)));
    GapPut(cur, r, x, Put(cur, x, v));
  }

  lemma {:induction false} GapPut(cur: Request, r: Request, x: nat, v: u8)
    requires cur.sector <= r.sector && cur.Formed() && r.Formed()
    ensures After(GapWrite(cur, r), x, v) == if cur.End() <= x < r.Start() then 0 else v
    ensures Covered(GapWrite(cur, r), x) <==> cur.End() <= x < r.Start()
  {
    var g := GapWrite(cur, r);
    if Gap(cur, r) > 0 {
      FlatOne(Zeros(Gap(cur, r)));
      assert g[1..] == [];
      assert After(g, x, v) == Put(g[0], x, v);
      assert g[0].Start() == cur.End() && g[0].End() == r.Start();
      assert Covered(g, x) <==> g[0].Covers(x);
    }
  }

  /** Bytes that are not lost hold what the intended writes leave there. */
  lemma {:induction false} MergeKeeps(e: Env, cur: Request, rest: seq<Request>, x: nat, v: u8)
    requires Sorted([cur] + rest) && AllFormed([cur] + rest) && !Lost(e, cur, rest, x)
    ensures After(Merge(e, cur, rest), x, v) == After([cur] + Intended(e, cur, rest), x, v)
    decreases |rest|
  {
    if rest != [] {
      SortedTail(cur, rest);
      var r, rest' := rest[0], rest[1..];
      FormedTail(cur, rest);
      AfterConcat([cur], Intended(e, cur, rest), x, v);
      assert After([cur], x, v) == Put(cur, x, v);
      if Join(e, cur, r) {
        var j := Joined(cur, r);
        SortedJoin(cur, j, rest);
        var tail := Intended(e, j, rest');
        MergeKeeps(e, j, rest', x, v);
        AfterConcat([j], tail, x, v);
        assert After([j], x, v) == Put(j, x, v);
        var w := After(GapWrite(cur, r) + [r], x, Put(cur, x, v));
        AfterConcat(GapWrite(cur, r) + [r], tail, x, Put(cur, x, v));
        JoinPut(cur, r, x, v);
        AfterCovered(tail, x, Put(j, x, v), w);
      } else {
        MergeKeeps(e, r, rest', x, Put(cur, x, v));
        var m := Merge(e, r, rest');
        AfterConcat([cur], m, x, v);
      }
    }
  }

  /** Merging writes nowhere the intended writes do not. */
  lemma {:induction false} MergeCovers(e: Env, cur: Request, rest: seq<Request>, x: nat)
    requires Sorted([cur] + rest) && AllFormed([cur] + rest)
    ensures Covered(Merge(e, cur, rest), x) ==> cur.Covers(x) || Covered(Intended(e, cur, rest), x)
    decreases |rest|
  {
    CoveredCons(cur, [], x);
    if rest != [] {
      SortedTail(cur, rest);
      var r, rest' := rest[0], rest[1..];
      FormedTail(cur, rest);
      if Join(e, cur, r) {
        var j := Joined(cur, r);
        SortedJoin(cur, j, rest);
        MergeCovers(e, j, rest', x);
        IntendedJoin(e, cur, rest, x);
        JoinedData(cur, r);
      } else {
        MergeCovers(e, r, rest', x);
        CoveredCons(cur, Merge(e, r, rest'), x);
        CoveredCons(r, Intended(e, r, rest'), x);
      }
    }
  }

  /** The intended writes of a joined step cover the gap, the request and what follows. */
  lemma {:induction false} IntendedJoin(e: Env, cur: Request, rest: seq<Request>, x: nat)
    requires Sorted([cur] + rest) && AllFormed([cur] + rest) && rest != []
    requires cur.sector <= rest[0].sector && Join(e, cur, rest[0])
    requires Sorted([Joined(cur, rest[0])] + rest[1..])
    ensures Covered(Intended(e, cur, rest), x)
            <==> cur.End() <= x < rest[0].Start() || rest[0].Covers(x)
                 || Covered(Intended(e, Joined(cur, rest[0]), rest[1..]), x)
  {
    FormedTail(cur, rest);
    var r, g := rest[0], GapWrite(cur, rest[0]);
    var tail := Intended(e, Joined(cur, r), rest[1..]);
    GapPut(cur, r, x, 0);
    CoveredCons(r, tail, x);
    if Gap(cur, r) > 0 {
      CoveredCons(g[0], [r] + tail, x);
      CoveredCons(g[0], [], x);
      assert g == [g[0]] + [];
      assert g + [r] + tail == [g[0]] + ([r] + tail);
    } else {
      assert g + [r] + tail == [r] + tail;
    }
  }

  ghost predicate SameWrites(a: seq<Request>, b: seq<Request>) {
    forall x: nat, v: u8 :: After(a, x, v) == After(b, x, v)
  }

  lemma {:induction false} Differ(a: seq<Request>, b: seq<Request>, x: nat, v: u8)
    requires After(a, x, v) != After(b, x, v)
    ensures !SameWrites(a, b)
  {
  }

  /** Merging never changes what is written unless a byte is lost. */
  lemma {:induction false} MergeSound(e: Env, cur: Request, rest: seq<Request>)
    requires Sorted([cur] + rest) && AllFormed([cur] + rest)
    requires forall x: nat :: !Lost(e, cur, rest, x)
    ensures SameWrites(Merge(e, cur, rest), [cur] + Intended(e, cur, rest))
  {
    forall x: nat, v: u8
      ensures After(Merge(e, cur, rest), x, v) == After([cur] + Intended(e, cur, rest), x, v)
    {
      MergeKeeps(e, cur, rest, x, v);
    }
  }

  /** Sorted requests none of which ends before an earlier one. */
  predicate NoneNested(reqs: seq<Request>) {
    forall i, j :: 0 <= i < j < |reqs| ==> reqs[i].End() <= reqs[j].End()
  }

  /** A caller's check: without nested requests nothing is lost. */
  lemma {:induction false} NoneNestedKeeps(e: Env, cur: Request, rest: seq<Request>, x: nat)
    requires Sorted([cur] + rest) && AllFormed([cur] + rest) && NoneNested([cur] + rest)
    ensures !Lost(e, cur, rest, x)
    decreases |rest|
  {
    if rest != [] {
      SortedTail(cur, rest);
      FormedTail(cur, rest);
      NestedTail(cur, rest);
      hide Sorted, AllFormed, NoneNested, Joined, Join;
      if Join(e, cur, rest[0]) {
        SortedJoin(cur, Joined(cur, rest[0]), rest);
        NoneNestedKeeps(e, Joined(cur, rest[0]), rest[1..], x);
      } else {
        NoneNestedKeeps(e, rest[0], rest[1..], x);
      }
    }
  }

  lemma {:induction false} NestedTail(cur: Request, rest: seq<Request>)
    requires NoneNested([cur] + rest) && rest != [] && cur.sector <= rest[0].sector
    requires cur.Formed() && rest[0].Formed()
    ensures cur.End() <= rest[0].End()
    ensures NoneNested([rest[0]] + rest[1..]) && NoneNested([Joined(cur, rest[0])] + rest[1..])
  {
    JoinedData(cur, rest[0]);
    var all, a, b := [cur] + rest, [rest[0]] + rest[1..], [Joined(cur, rest[0])] + rest[1..];
    assert all[0] == cur && all[1] == rest[0];
    assert a == all[1..];
    assert forall i :: 0 <= i < |b| ==> b[i].End() == all[i + 1].End();
  }

  /** When no gap is filled the intended writes are the original requests. */
  lemma {:induction false} IntendedIsOriginal(e: Env, cur: Request, rest: seq<Request>)
    requires Sorted([cur] + rest) && AllFormed([cur] + rest)
    requires forall a: Request, b: Request :: !e.hook(a, b)
    ensures Intended(e, cur, rest) == rest
    decreases |rest|
  {
    if rest != [] {
      SortedTail(cur, rest);
      FormedTail(cur, rest);
      if Join(e, cur, rest[0]) {
        SortedJoin(cur, Joined(cur, rest[0]), rest);
        IntendedIsOriginal(e, Joined(cur, rest[0]), rest[1..]);
      } else {
        IntendedIsOriginal(e, rest[0], rest[1..]);
      }
    }
  }

  /** A request joined inside the one before it: the bytes past its end are never written, though
      the requests one after the other would have written them. */
  lemma {:induction false} NestingLoses(e: Env, cur: Request, r: Request, x: nat, v: u8)
    requires cur.Formed() && r.Formed() && cur.sector <= r.sector && Join(e, cur, r)
    requires r.End() <= x < cur.End()
    ensures Sorted([cur] + [r]) && After(Merge(e, cur, [r]), x, v) == v
    ensures After([cur, r], x, v) == cur.Data()[x - cur.Start()]
  {
    JoinedData(cur, r);
    var j, rest := Joined(cur, r), [r];
    assert rest[1..] == [];
    assert Merge(e, j, []) == [j];
    assert After([j], x, v) == Put(j, x, v);
    assert [cur, r][1..] == [r];
    assert After([r], x, Put(cur, x, v)) == Put(r, x, Put(cur, x, v));
  }

  /** Sectors 0 and 1 followed by sector 0 alone, for one. */
  lemma {:induction false} NestingExample(e: Env, a: seq<u8>, b: seq<u8>)
    requires |a| == 2 * SECTOR && |b| == SECTOR && e.iovMax >= 3 && a[SECTOR] != 0
    ensures var cur, r := Request(0, 2, [a]), Request(0, 1, [b]);
            Sorted([cur] + [r]) && !SameWrites(Merge(e, cur, [r]), [cur, r])
  {
    var cur, r := Request(0, 2, [a]), Request(0, 1, [b]);
    FlatOne(a);
    FlatOne(b);
    NestingLoses(e, cur, r, SECTOR, 0);
    Differ(Merge(e, cur, [r]), [cur, r], SECTOR, 0);
  }

  /** Every request handed to the driver has exactly its sectors of payload. */
  lemma {:induction false} MergeFormed(e: Env, cur: Request, rest: seq<Request>)
    requires Sorted([cur] + rest) && AllFormed([cur] + rest)
    ensures AllFormed(Merge(e, cur, rest)) && |Merge(e, cur, rest)| <= 1 + |rest|
    decreases |rest|
  {
    if rest == [] {
      assert [cur] + rest == [cur];
    } else {
      SortedTail(cur, rest);
      FormedTail(cur, rest);
      if Join(e, cur, rest[0]) {
        SortedJoin(cur, Joined(cur, rest[0]), rest);
        MergeFormed(e, Joined(cur, rest[0]), rest[1..]);
      } else {
        MergeFormed(e, rest[0], rest[1..]);
      }
    }
  }

  // ------------------------------------------------------------------ the loop

  /** multiwrite_merge: `sorted` is the arrangement qsort leaves in the array, any one that is
      sorted by start sector. The first `num` entries end up as the merged requests. */
  method MultiwriteMerge(e: Env, reqs: array<Request>, sorted: seq<Request>) returns (num: nat)
    requires reqs.Length > 0 && |sorted| == reqs.Length
    requires Sorted([sorted[0]] + sorted[1..]) && multiset(sorted) == multiset(reqs[..])
    modifies reqs
    ensures 0 < num <= reqs.Length && reqs[..num] == Merge(e, sorted[0], sorted[1..])
  {
    forall k | 0 <= k < reqs.Length {
      reqs[k] := sorted[k];
    }
    var outidx, i := 0, 1;
    while i < reqs.Length
      invariant 0 <= outidx < i <= reqs.Length
      invariant forall k :: i <= k < reqs.Length ==> reqs[k] == sorted[k]
      invariant Sorted([reqs[outidx]] + sorted[i..])
      invariant reqs[..outidx] + Merge(e, reqs[outidx], sorted[i..]) == Merge(e, sorted[0], sorted[1..])
    {
      hide Sorted, Joined, Join, Merge;
      MergeStep(e, reqs[..outidx], reqs[outidx], sorted[i..]);
      assert sorted[i..][0] == reqs[i] && sorted[i..][1..] == sorted[i + 1..];
      ghost var was, cur := reqs[..outidx], reqs[outidx];
      if Join(e, reqs[outidx], reqs[i]) {
        reqs[outidx] := Joined(reqs[outidx], reqs[i]);
        assert reqs[..outidx] == was;
      } else {
        outidx := outidx + 1;
        reqs[outidx] := reqs[i];
        assert reqs[..outidx] == was + [cur];
      }
      i := i + 1;
    }
    assert sorted[i..] == [];
    num := outidx + 1;
    assert reqs[..num] == reqs[..outidx] + [reqs[outidx]];
  }

  /** One turn of the loop, on the requests finished so far. */
  lemma {:induction false} MergeStep(e: Env, done: seq<Request>, cur: Request, rest: seq<Request>)
    requires Sorted([cur] + rest) && rest != []
    ensures cur.sector <= rest[0].sector && Sorted([rest[0]] + rest[1..])
    ensures Join(e, cur, rest[0])
            ==> Sorted([Joined(cur, rest[0])] + rest[1..])
                && done + Merge(e, cur, rest) == done + Merge(e, Joined(cur, rest[0]), rest[1..])
    ensures !Join(e, cur, rest[0])
            ==> done + Merge(e, cur, rest) == (done + [cur]) + Merge(e, rest[0], rest[1..])
  {
    SortedTail(cur, rest);
    if Join(e, cur, rest[0]) {
      SortedJoin(cur, Joined(cur, rest[0]), rest);
    } else {
      var m := Merge(e, rest[0], rest[1..]);
      assert done + ([cur] + m) == (done + [cur]) + m;
    }
  }
}
