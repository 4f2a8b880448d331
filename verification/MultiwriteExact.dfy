/** Exactly when merging write requests (block.c:2303-2372) preserves what is written, whatever the
    requests carry: it depends only on where they lie, and it is when no byte is lost. */
module MultiwriteExact {
  import opened Common
  import opened MultiwriteMerge

  // ------------------------------------------------------------------ geometry

  predicate SameLengths(a: Iovec, b: Iovec) {
    |a| == |b| && forall i :: 0 <= i < |a| ==> |a[i]| == |b[i]|
  }

  /** Requests that differ at most in their payload. */
  predicate SameShape(a: Request, b: Request) {
    a.sector == b.sector && a.nb == b.nb && SameLengths(a.qiov, b.qiov)
  }

  predicate SameShapes(a: seq<Request>, b: seq<Request>) {
    |a| == |b| && forall i :: 0 <= i < |a| ==> SameShape(a[i], b[i])
  }

  /** The driver's hook looks at where requests lie, not at what they write. */
  ghost predicate SeesGeometry(e: Env) {
    forall a: Request, b: Request, c: Request, d: Request ::
      SameShape(a, c) && SameShape(b, d) ==> e.hook(a, b) == e.hook(c, d)
  }

  lemma {:induction false} FlatLength(a: Iovec, b: Iovec)
    requires SameLengths(a, b)
    ensures |Flat(a)| == |Flat(b)|
  {
    if a != [] {
      FlatLength(a[1..], b[1..]);
    }
  }

  lemma {:induction false} PrefixShape(a: Iovec, b: Iovec, size: nat)
    requires SameLengths(a, b)
    ensures SameLengths(Prefix(a, size), Prefix(b, size))
    decreases |a|
  {
    if a != [] && size > 0 && |a[0]| <= size {
      PrefixShape(a[1..], b[1..], size - |a[0]|);
    }
  }

  lemma {:induction false} ConcatShape(a: Iovec, b: Iovec, c: Iovec, d: Iovec)
    requires SameLengths(a, b) && SameLengths(c, d)
    ensures SameLengths(a + c, b + d)
  {
  }

  lemma {:induction false} ShapeCovers(a: Request, b: Request, x: nat)
    requires SameShape(a, b)
    ensures a.Covers(x) == b.Covers(x) && a.End() == b.End() && a.Formed() == b.Formed()
  {
    FlatLength(a.qiov, b.qiov);
  }

  lemma {:induction false} JoinedShape(a: Request, r: Request, b: Request, q: Request)
    requires SameShape(a, b) && SameShape(r, q) && a.sector <= r.sector
    ensures SameShape(Joined(a, r), Joined(b, q))
  {
    var size := (r.sector - a.sector) * SECTOR;
    var z: Iovec := if Gap(a, r) > 0 then [Zeros(Gap(a, r))] else [];
    PrefixShape(a.qiov, b.qiov, size);
    FlatLength(r.qiov, q.qiov);
    PrefixShape(r.qiov, q.qiov, |Flat(r.qiov)|);
    ConcatShape(Prefix(a.qiov, size), Prefix(b.qiov, size), z, z);
    ConcatShape(Prefix(a.qiov, size) + z, Prefix(b.qiov, size) + z,
                Prefix(r.qiov, |Flat(r.qiov)|), Prefix(q.qiov, |Flat(q.qiov)|));
    FlatLength(Joined(a, r).qiov, Joined(b, q).qiov);
  }

  lemma {:induction false} ShapeTail(a: seq<Request>, b: seq<Request>)
    requires SameShapes(a, b) && a != []
    ensures SameShape(a[0], b[0]) && SameShapes(a[1..], b[1..])
  {
  }

  lemma {:induction false} ShapeSorted(a: Request, ra: seq<Request>, b: Request, rb: seq<Request>)
    requires SameShape(a, b) && SameShapes(ra, rb)
    ensures Sorted([a] + ra) ==> Sorted([b] + rb)
    ensures AllFormed([a] + ra) ==> AllFormed([b] + rb)
  {
    var s, t := [a] + ra, [b] + rb;
    assert forall i :: 0 <= i < |s| ==> SameShape(s[i], t[i]);
    forall i | 0 <= i < |s| ensures s[i].Formed() == t[i].Formed() { ShapeCovers(s[i], t[i], 0); }
  }

  lemma {:induction false} CoveredShape(a: seq<Request>, b: seq<Request>, x: nat)
    requires SameShapes(a, b)
    ensures Covered(a, x) == Covered(b, x)
  {
    forall i | 0 <= i < |a| ensures a[i].Covers(x) == b[i].Covers(x) { ShapeCovers(a[i], b[i], x); }
  }

  /** The joins, and so the intended writes, depend on the geometry only. */
  lemma {:induction false} IntendedShape(e: Env, a: Request, ra: seq<Request>, b: Request, rb: seq<Request>)
    requires SeesGeometry(e) && SameShape(a, b) && SameShapes(ra, rb) && Sorted([a] + ra) && Sorted([b] + rb)
    ensures SameShapes(Intended(e, a, ra), Intended(e, b, rb))
    decreases |ra|
  {
    if ra != [] {
      SortedTail(a, ra);
      SortedTail(b, rb);
      ShapeTail(ra, rb);
      var r, q := ra[0], rb[0];
      if Join(e, a, r) {
        JoinedShape(a, r, b, q);
        SortedJoin(a, Joined(a, r), ra);
        SortedJoin(b, Joined(b, q), rb);
        IntendedShape(e, Joined(a, r), ra[1..], Joined(b, q), rb[1..]);
        GapShape(a, r, b, q);
        AppendShapes(GapWrite(a, r) + [r], GapWrite(b, q) + [q],
                     Intended(e, Joined(a, r), ra[1..]), Intended(e, Joined(b, q), rb[1..]));
      } else {
        IntendedShape(e, r, ra[1..], q, rb[1..]);
        AppendShapes([r], [q], Intended(e, r, ra[1..]), Intended(e, q, rb[1..]));
      }
    }
  }

  lemma {:induction false} GapShape(a: Request, r: Request, b: Request, q: Request)
    requires SameShape(a, b) && SameShape(r, q)
    ensures SameShapes(GapWrite(a, r) + [r], GapWrite(b, q) + [q])
  {
  }

  lemma {:induction false} AppendShapes(a: seq<Request>, b: seq<Request>, c: seq<Request>, d: seq<Request>)
    requires SameShapes(a, b) && SameShapes(c, d)
    ensures SameShapes(a + c, b + d)
  {
  }

  // ------------------------------------------------------------------ where a byte is lost

  /** Byte x is lost by a join within the current group. */
  predicate LostHere(e: Env, cur: Request, rest: seq<Request>, x: nat)
    requires Sorted([cur] + rest)
    decreases |rest|
  {
    rest != [] &&
    (SortedTail(cur, rest);
     Join(e, cur, rest[0]) &&
     (SortedJoin(cur, Joined(cur, rest[0]), rest);
      || (rest[0].End() <= x < cur.End() && !Covered(Intended(e, Joined(cur, rest[0]), rest[1..]), x))
      || LostHere(e, Joined(cur, rest[0]), rest[1..], x)))
  }

  lemma {:induction false} LostShape(e: Env, a: Request, ra: seq<Request>, b: Request, rb: seq<Request>, x: nat)
    requires SeesGeometry(e) && SameShape(a, b) && SameShapes(ra, rb) && Sorted([a] + ra) && Sorted([b] + rb)
    ensures Lost(e, a, ra, x) == Lost(e, b, rb, x) && LostHere(e, a, ra, x) == LostHere(e, b, rb, x)
    decreases |ra|
  {
    if ra != [] {
      SortedTail(a, ra);
      SortedTail(b, rb);
      ShapeTail(ra, rb);
      var r, q := ra[0], rb[0];
      ShapeCovers(a, b, x);
      ShapeCovers(r, q, x);
      if Join(e, a, r) {
        var j, k := Joined(a, r), Joined(b, q);
        JoinedShape(a, r, b, q);
        SortedJoin(a, j, ra);
        SortedJoin(b, k, rb);
        IntendedShape(e, j, ra[1..], k, rb[1..]);
        CoveredShape(Intended(e, j, ra[1..]), Intended(e, k, rb[1..]), x);
        LostShape(e, j, ra[1..], k, rb[1..], x);
      } else {
        LostShape(e, r, ra[1..], q, rb[1..], x);
      }
    }
  }

  /** A lost byte lies at or past the start of its group. */
  lemma {:induction false} LostFrom(e: Env, cur: Request, rest: seq<Request>, x: nat)
    requires Sorted([cur] + rest) && AllFormed([cur] + rest) && Lost(e, cur, rest, x)
    ensures x >= cur.Start()
    decreases |rest|
  {
    SortedTail(cur, rest);
    FormedTail(cur, rest);
    var r := rest[0];
    if Join(e, cur, r) {
      SortedJoin(cur, Joined(cur, r), rest);
      if Lost(e, Joined(cur, r), rest[1..], x) {
        LostFrom(e, Joined(cur, r), rest[1..], x);
      }
    } else {
      LostFrom(e, r, rest[1..], x);
    }
  }

  /** A byte lost in the current group is written by no merged request from it on, and by an intended
      write. */
  lemma {:induction false} LostUnwritten(e: Env, cur: Request, rest: seq<Request>, x: nat)
    requires Sorted([cur] + rest) && AllFormed([cur] + rest) && LostHere(e, cur, rest, x)
    ensures !Covered(Merge(e, cur, rest), x) && x >= cur.Start()
    ensures cur.Covers(x) || Covered(Intended(e, cur, rest), x)
    decreases |rest|
  {
    SortedTail(cur, rest);
    var r, rest' := rest[0], rest[1..];
    FormedTail(cur, rest);
    var j := Joined(cur, r);
    SortedJoin(cur, j, rest);
    JoinedData(cur, r);
    IntendedJoin(e, cur, rest, x);
    if LostHere(e, j, rest', x) {
      LostUnwritten(e, j, rest', x);
    } else {
      MergeCovers(e, j, rest', x);
    }
  }

  // ------------------------------------------------------------------ payloads

  function FillVector(v: Iovec, c: u8): (w: Iovec)
    ensures SameLengths(v, w)
  {
    seq(|v|, i requires 0 <= i < |v| => seq(|v[i]|, _ => c))
  }

  /** The same request carrying c only. */
  function Fill(r: Request, c: u8): Request { r.(qiov := FillVector(r.qiov, c)) }

  function FillAll(rs: seq<Request>, c: u8): (t: seq<Request>)
    ensures SameShapes(rs, t)
  {
    seq(|rs|, i requires 0 <= i < |rs| => Fill(rs[i], c))
  }

  lemma {:induction false} FillData(v: Iovec, c: u8)
    ensures forall i :: 0 <= i < |Flat(FillVector(v, c))| ==> Flat(FillVector(v, c))[i] == c
    decreases |v|
  {
    if v != [] {
      FillData(v[1..], c);
      var w := FillVector(v, c);
      assert w[1..] == FillVector(v[1..], c);
      assert forall i :: 0 <= i < |w[0]| ==> w[0][i] == c;
    }
  }

  /** No write of byte x writes b. */
  predicate Never(rs: seq<Request>, x: nat, b: u8) {
    forall i :: 0 <= i < |rs| ==> Spares(rs[i], x, b)
  }

  predicate Spares(r: Request, x: nat, b: u8) {
    r.Covers(x) ==> r.Data()[x - r.Start()] != b
  }

  lemma {:induction false} AfterNever(rs: seq<Request>, x: nat, b: u8, v: u8)
    requires Never(rs, x, b) && (Covered(rs, x) || v != b)
    ensures After(rs, x, v) != b
    decreases |rs|
  {
    if rs != [] {
      assert Spares(rs[0], x, b);
      assert [rs[0]] + rs[1..] == rs;
      CoveredCons(rs[0], rs[1..], x);
      AfterNever(rs[1..], x, b, Put(rs[0], x, v));
    }
  }

  lemma {:induction false} IntendedNever(e: Env, cur: Request, rest: seq<Request>, x: nat, b: u8)
    requires Sorted([cur] + rest) && AllFormed([cur] + rest) && Never(rest, x, b) && b != 0
    ensures Never(Intended(e, cur, rest), x, b)
    decreases |rest|
  {
    if rest != [] {
      SortedTail(cur, rest);
      FormedTail(cur, rest);
      var r := rest[0];
      assert Never(rest[1..], x, b) && Spares(r, x, b);
      if Join(e, cur, r) {
        SortedJoin(cur, Joined(cur, r), rest);
        IntendedNever(e, Joined(cur, r), rest[1..], x, b);
        GapSpares(cur, r, x, b);
      } else {
        IntendedNever(e, r, rest[1..], x, b);
      }
    }
  }

  lemma {:induction false} GapSpares(cur: Request, r: Request, x: nat, b: u8)
    requires b != 0
    ensures Never(GapWrite(cur, r), x, b)
  {
    FlatOne(Zeros(Gap(cur, r)));
  }

  lemma {:induction false} FillSpares(r: Request, c: u8, x: nat, b: u8)
    requires c != b
    ensures Spares(Fill(r, c), x, b)
  {
    FillData(r.qiov, c);
  }

  lemma {:induction false} FillAllNever(rs: seq<Request>, c: u8, x: nat, b: u8)
    requires c != b
    ensures Never(FillAll(rs, c), x, b)
  {
    forall i | 0 <= i < |rs| ensures Spares(FillAll(rs, c)[i], x, b) { FillSpares(rs[i], c, x, b); }
  }

  // ------------------------------------------------------------------ a payload that tells

  /** Where the group covers bytes at or past s it carries 1. */
  ghost predicate OnesFrom(cur: Request, s: nat) {
    forall y: nat :: s <= y ==> Put(cur, y, 1) == 1
  }

  lemma {:induction false} FillOnes(r: Request, s: nat)
    ensures OnesFrom(Fill(r, 1), s)
  {
    FillData(r.qiov, 1);
  }

  /** In a joined group everything from the last request's start on is that request's. */
  lemma {:induction false} JoinedOnes(cur: Request, r: Request)
    requires cur.Formed() && r.Formed() && cur.sector <= r.sector && OnesFrom(r, r.Start())
    ensures OnesFrom(Joined(cur, r), r.Start())
  {
    JoinedData(cur, r);
    var j := Joined(cur, r);
    forall y: nat | r.Start() <= y
      ensures Put(j, y, 1) == 1
    {
      if j.Covers(y) {
        var skip := |j.Data()| - |r.Data()|;
        assert j.Data()[skip..] == r.Data();
        assert j.Data()[y - j.Start()] == r.Data()[y - r.Start()];
        assert Put(r, y, 1) == 1;
      }
    }
  }

  /** What the payload is chosen for: the merged requests leave 1 at x where 1 was, and the intended
      writes leave something else there. */
  ghost predicate Tells(e: Env, cur: Request, rest: seq<Request>, x: nat)
    requires Sorted([cur] + rest)
  {
    After(Merge(e, cur, rest), x, 1) == 1 && Covered(Intended(e, cur, rest), x)
      && After(Intended(e, cur, rest), x, 0) != 1
  }

  /** The byte is lost in a later group: everything before that group carries 1, the rest 2. */
  lemma {:induction false} Recolour(e: Env, cur: Request, rest: seq<Request>, x: nat, s: nat)
    returns (rest': seq<Request>)
    requires SeesGeometry(e) && Sorted([cur] + rest) && AllFormed([cur] + rest)
    requires Lost(e, cur, rest, x) && !LostHere(e, cur, rest, x)
    requires OnesFrom(cur, s) && s <= rest[0].Start()
    ensures SameShapes(rest, rest') && Sorted([cur] + rest') && Tells(e, cur, rest', x)
    decreases |rest|, 1
  {
    hide SeesGeometry, Lost, LostHere, Merge, Intended, After, OnesFrom;
    LostSplit(e, cur, rest, x);
    FormedTail(cur, rest);
    var r, tail := rest[0], rest[1..];
    if Join(e, cur, r) {
      rest' := RecolourJoin(e, cur, rest, x);
    } else if LostHere(e, r, tail, x) {
      rest' := FillAll(rest, 2);
      RecolourHere(e, cur, rest, x, s);
    } else {
      rest' := RecolourLater(e, cur, rest, x, s);
    }
  }

  lemma {:induction false} LostSplit(e: Env, cur: Request, rest: seq<Request>, x: nat)
    requires Sorted([cur] + rest) && Lost(e, cur, rest, x) && !LostHere(e, cur, rest, x)
    ensures rest != [] && cur.sector <= rest[0].sector && Sorted([rest[0]] + rest[1..])
    ensures Join(e, cur, rest[0]) ==>
              Sorted([Joined(cur, rest[0])] + rest[1..])
              && Lost(e, Joined(cur, rest[0]), rest[1..], x) && !LostHere(e, Joined(cur, rest[0]), rest[1..], x)
    ensures !Join(e, cur, rest[0]) ==> Lost(e, rest[0], rest[1..], x)
  {
    SortedTail(cur, rest);
    SortedJoin(cur, Joined(cur, rest[0]), rest);
  }

  /** One turn of the merge. */
  lemma {:induction false} JoinTurn(e: Env, cur: Request, rest: seq<Request>)
    requires Sorted([cur] + rest) && rest != [] && Join(e, cur, rest[0])
    ensures cur.sector <= rest[0].sector && Sorted([Joined(cur, rest[0])] + rest[1..])
    ensures Merge(e, cur, rest) == Merge(e, Joined(cur, rest[0]), rest[1..])
    ensures Intended(e, cur, rest)
            == GapWrite(cur, rest[0]) + [rest[0]] + Intended(e, Joined(cur, rest[0]), rest[1..])
  {
    SortedTail(cur, rest);
    SortedJoin(cur, Joined(cur, rest[0]), rest);
  }

  lemma {:induction false} ApartTurn(e: Env, cur: Request, rest: seq<Request>)
    requires Sorted([cur] + rest) && rest != [] && !Join(e, cur, rest[0])
    ensures cur.sector <= rest[0].sector && Sorted([rest[0]] + rest[1..])
    ensures Merge(e, cur, rest) == [cur] + Merge(e, rest[0], rest[1..])
    ensures Intended(e, cur, rest) == [rest[0]] + Intended(e, rest[0], rest[1..])
  {
    SortedTail(cur, rest);
  }

  lemma {:induction false} JoinShape(e: Env, a: Request, r: Request, b: Request, q: Request)
    requires SeesGeometry(e) && SameShape(a, b) && SameShape(r, q)
    ensures Join(e, a, r) == Join(e, b, q)
  {
  }

  lemma {:induction false} ConsShapes(r: Request, q: Request, a: seq<Request>, b: seq<Request>)
    requires SameShape(r, q) && SameShapes(a, b)
    ensures SameShapes([r] + a, [q] + b)
  {
  }

  lemma {:induction false} Reflexive(rs: seq<Request>)
    ensures SameShapes(rs, rs)
  {
  }

  lemma {:induction false} RecolourJoin(e: Env, cur: Request, rest: seq<Request>, x: nat) returns (rest': seq<Request>)
    requires SeesGeometry(e) && Sorted([cur] + rest) && AllFormed([cur] + rest) && rest != []
    requires cur.sector <= rest[0].sector && Join(e, cur, rest[0]) && Sorted([Joined(cur, rest[0])] + rest[1..])
    requires Lost(e, Joined(cur, rest[0]), rest[1..], x) && !LostHere(e, Joined(cur, rest[0]), rest[1..], x)
    ensures SameShapes(rest, rest') && Sorted([cur] + rest') && Tells(e, cur, rest', x)
    decreases |rest|, 0
  {
    SortedTail(cur, rest);
    FormedTail(cur, rest);
    hide SeesGeometry, Lost, LostHere, Merge, Intended, After, OnesFrom, Sorted, Joined, Join, Covered;
    var r, tail := rest[0], rest[1..];
    var q := Fill(r, 1);
    Reflexive(tail);
    Reflexive([cur]);
    ConsShapes(r, q, tail, tail);
    assert [r] + tail == rest && ([q] + tail)[1..] == tail;
    ShapeSorted(cur, rest, cur, [q] + tail);
    JoinedShape(cur, r, cur, q);
    var j := Joined(cur, q);
    ShapeSorted(Joined(cur, r), tail, j, tail);
    LostShape(e, Joined(cur, r), tail, j, tail, x);
    ShapeCovers(r, q, x);
    FillOnes(r, r.Start());
    JoinedOnes(cur, q);
    NextStart(e, j, r, tail, x);
    var t := Recolour(e, j, tail, x, r.Start());
    rest' := [q] + t;
    assert rest'[1..] == t;
    ConsShapes(r, q, tail, t);
    ShapeSorted(cur, rest, cur, rest');
    JoinShape(e, cur, r, cur, q);
    JoinTurn(e, cur, rest');
    TellsJoin(e, cur, rest', x);
  }

  lemma {:induction false} NextStart(e: Env, j: Request, r: Request, tail: seq<Request>, x: nat)
    requires Sorted([r] + tail) && Sorted([j] + tail) && Lost(e, j, tail, x)
    ensures tail != [] && r.Start() <= tail[0].Start()
  {
    SortedTail(r, tail);
  }

  lemma {:induction false} TellsJoin(e: Env, cur: Request, rest: seq<Request>, x: nat)
    requires Sorted([cur] + rest) && AllFormed([cur] + rest) && rest != [] && cur.sector <= rest[0].sector
    requires Join(e, cur, rest[0]) && Sorted([Joined(cur, rest[0])] + rest[1..])
    requires Tells(e, Joined(cur, rest[0]), rest[1..], x)
    ensures Tells(e, cur, rest, x)
  {
    hide Merge, Intended, Sorted, Joined, Join;
    JoinTurn(e, cur, rest);
    IntendedJoin(e, cur, rest, x);
    var tail := Intended(e, Joined(cur, rest[0]), rest[1..]);
    AfterConcat(GapWrite(cur, rest[0]) + [rest[0]], tail, x, 0);
    AfterCovered(tail, x, 0, After(GapWrite(cur, rest[0]) + [rest[0]], x, 0));
  }

  lemma {:induction false} TellsApart(e: Env, cur: Request, rest: seq<Request>, x: nat, s: nat)
    requires Sorted([cur] + rest) && rest != [] && !Join(e, cur, rest[0]) && Sorted([rest[0]] + rest[1..])
    requires Tells(e, rest[0], rest[1..], x) && OnesFrom(cur, s) && x >= s
    ensures Tells(e, cur, rest, x)
  {
    hide Merge, Intended, Sorted, Join;
    ApartTurn(e, cur, rest);
    var r, tail := rest[0], Intended(e, rest[0], rest[1..]);
    CoveredCons(r, tail, x);
    AfterConcat([r], tail, x, 0);
    AfterCovered(tail, x, 0, After([r], x, 0));
    AfterConcat([cur], Merge(e, r, rest[1..]), x, 1);
    assert After([cur], x, 1) == Put(cur, x, 1) == 1;
  }

  lemma {:induction false} RecolourLater(e: Env, cur: Request, rest: seq<Request>, x: nat, s: nat)
    returns (rest': seq<Request>)
    requires SeesGeometry(e) && Sorted([cur] + rest) && AllFormed([cur] + rest) && rest != []
    requires !Join(e, cur, rest[0]) && Sorted([rest[0]] + rest[1..])
    requires Lost(e, rest[0], rest[1..], x) && !LostHere(e, rest[0], rest[1..], x)
    requires OnesFrom(cur, s) && s <= rest[0].Start()
    ensures SameShapes(rest, rest') && Sorted([cur] + rest') && Tells(e, cur, rest', x)
    decreases |rest|, 0
  {
    SortedTail(cur, rest);
    FormedTail(cur, rest);
    hide SeesGeometry, Lost, LostHere, Merge, Intended, After, OnesFrom, Sorted, Joined, Join, Covered;
    var r, tail := rest[0], rest[1..];
    var q := Fill(r, 1);
    Reflexive(tail);
    ShapeSorted(r, tail, q, tail);
    LostShape(e, r, tail, q, tail, x);
    LostFrom(e, q, tail, x);
    FillOnes(r, r.Start());
    NextStart(e, q, r, tail, x);
    var t := Recolour(e, q, tail, x, r.Start());
    rest' := [q] + t;
    assert [r] + tail == rest && rest'[1..] == t;
    ConsShapes(r, q, tail, t);
    ShapeSorted(cur, rest, cur, rest');
    JoinShape(e, cur, r, cur, q);
    TellsApart(e, cur, rest', x, s);
  }

  lemma {:induction false} RecolourHere(e: Env, cur: Request, rest: seq<Request>, x: nat, s: nat)
    requires SeesGeometry(e) && Sorted([cur] + rest) && AllFormed([cur] + rest) && rest != []
    requires !Join(e, cur, rest[0]) && Sorted([rest[0]] + rest[1..]) && LostHere(e, rest[0], rest[1..], x)
    requires OnesFrom(cur, s) && s <= rest[0].Start()
    ensures Sorted([cur] + FillAll(rest, 2)) && Tells(e, cur, FillAll(rest, 2), x)
  {
    SortedTail(cur, rest);
    FormedTail(cur, rest);
    hide SeesGeometry, Lost, LostHere, Merge, Intended, After, OnesFrom, Sorted, Joined, Join, Covered;
    var twos := FillAll(rest, 2);
    var r, q := rest[0], twos[0];
    ShapeTail(rest, twos);
    ShapeSorted(cur, rest, cur, twos);
    ShapeSorted(r, rest[1..], q, twos[1..]);
    LostShape(e, r, rest[1..], q, twos[1..], x);
    LostUnwritten(e, q, twos[1..], x);
    JoinShape(e, cur, r, cur, q);
    ApartTurn(e, cur, twos);
    FillAllNever(rest, 2, x, 1);
    IntendedNever(e, cur, twos, x, 1);
    CoveredCons(q, Intended(e, q, twos[1..]), x);
    AfterNever(Intended(e, cur, twos), x, 1, 0);
    UnwrittenKeeps(cur, Merge(e, q, twos[1..]), x, s);
  }

  lemma {:induction false} UnwrittenKeeps(cur: Request, later: seq<Request>, x: nat, s: nat)
    requires OnesFrom(cur, s) && x >= s && !Covered(later, x)
    ensures After([cur] + later, x, 1) == 1
  {
    AfterConcat([cur], later, x, 1);
    assert After([cur], x, 1) == Put(cur, x, 1) == 1;
    AfterCovered(later, x, 1, 1);
  }

  // ------------------------------------------------------------------ exactness

  /** Whatever requests of this geometry carry, merging them writes what was intended. */
  ghost predicate AlwaysPreserved(e: Env, cur: Request, rest: seq<Request>)
    requires Sorted([cur] + rest)
  {
    forall c: Request, rs: seq<Request> :: SameShape(cur, c) && SameShapes(rest, rs) ==> Preserved(e, c, rs)
  }

  ghost predicate Preserved(e: Env, cur: Request, rest: seq<Request>) {
    Sorted([cur] + rest) && SameWrites(Merge(e, cur, rest), [cur] + Intended(e, cur, rest))
  }

  /** Merging writes what was intended, whatever the payload, exactly when no byte is lost. */
  lemma {:induction false} MergeExact(e: Env, cur: Request, rest: seq<Request>)
    requires SeesGeometry(e) && Sorted([cur] + rest) && AllFormed([cur] + rest)
    ensures AlwaysPreserved(e, cur, rest) <==> forall x: nat :: !Lost(e, cur, rest, x)
  {
    hide SeesGeometry, SameWrites, Merge, Intended, Lost, LostHere;
    if x: nat :| Lost(e, cur, rest, x) {
      var c, rs := TellingPayload(e, cur, rest, x);
      assert !Preserved(e, c, rs);
    } else {
      forall c: Request, rs: seq<Request> | SameShape(cur, c) && SameShapes(rest, rs)
        ensures Preserved(e, c, rs)
      {
        ShapeSorted(cur, rest, c, rs);
        forall x: nat ensures !Lost(e, c, rs, x) { LostShape(e, cur, rest, c, rs, x); }
        MergeSound(e, c, rs);
      }
    }
  }

  /** For a lost byte some payload of the same geometry shows the loss. */
  lemma {:induction false} TellingPayload(e: Env, cur: Request, rest: seq<Request>, x: nat)
    returns (c: Request, rs: seq<Request>)
    requires SeesGeometry(e) && Sorted([cur] + rest) && AllFormed([cur] + rest) && Lost(e, cur, rest, x)
    ensures SameShape(cur, c) && SameShapes(rest, rs) && Sorted([c] + rs)
    ensures After(Merge(e, c, rs), x, 1) == 1 && After([c] + Intended(e, c, rs), x, 1) != 1
    ensures !SameWrites(Merge(e, c, rs), [c] + Intended(e, c, rs))
  {
    hide SeesGeometry, SameWrites, Merge, Intended, Lost, LostHere, After, Covered;
    if LostHere(e, cur, rest, x) {
      c, rs := Fill(cur, 2), FillAll(rest, 2);
      ShapeSorted(cur, rest, c, rs);
      LostShape(e, cur, rest, c, rs, x);
      LostUnwritten(e, c, rs, x);
      AfterCovered(Merge(e, c, rs), x, 1, 1);
      FillAllNever(rest, 2, x, 1);
      FillSpares(cur, 2, x, 1);
      IntendedNever(e, c, rs, x, 1);
      CoveredCons(c, Intended(e, c, rs), x);
      AfterNever([c] + Intended(e, c, rs), x, 1, 1);
    } else {
      c := Fill(cur, 1);
      Reflexive(rest);
      ShapeSorted(cur, rest, c, rest);
      LostShape(e, cur, rest, c, rest, x);
      FillOnes(cur, c.Start());
      NextStart(e, c, cur, rest, x);
      rs := Recolour(e, c, rest, x, c.Start());
      AfterConcat([c], Intended(e, c, rs), x, 1);
      AfterCovered(Intended(e, c, rs), x, 0, After([c], x, 1));
    }
    Differ(Merge(e, c, rs), [c] + Intended(e, c, rs), x, 1);
  }
}
