/** Convergence of live block migration: an inductive invariant over every
    interleaving of guest writes, read completions and migration steps, and what
    follows from it once stage 3 has drained the dirty chunks. */
module BlockMigrationConvergence {
  import opened Common
  import opened BlockMigrationProtocol

  // --------------------------------------------------------------- invariant

  /** Reads finished or in flight, oldest first. */
  function Pending(s: State): seq<Blk> { s.queue + s.inflight }

  /** The newest read in `bs` that will write sector x of device d. */
  function Newest(bs: seq<Blk>, d: nat, x: nat): (r: Option<Blk>)
    ensures r.Some? ==> r.value in bs && BlkCovers(r.value, d, x)
    ensures r.None? ==> forall i :: 0 <= i < |bs| ==> !BlkCovers(bs[i], d, x)
  {
    if bs == [] then None
    else if BlkCovers(bs[|bs| - 1], d, x) then Some(bs[|bs| - 1])
    else Newest(bs[..|bs| - 1], d, x)
  }

  /** Sending b will deliver v at sector x, unless b failed or has yet to sample x. */
  predicate WillDeliver(b: Blk, x: nat, v: Sector)
    requires b.sector <= x < b.sector + |b.buf|
  {
    b.failed || (x - b.sector in b.sampled ==> b.buf[x - b.sector] == v)
  }

  /** The newest pending read of the sector will deliver v; with no pending read
      the destination already `has` it. */
  predicate Arrives(bs: seq<Blk>, d: nat, x: nat, v: Sector, has: bool) {
    match Newest(bs, d, x)
    case None => has
    case Some(b) => x < b.sector + |b.buf| && WillDeliver(b, x, v)
  }

  predicate DstShape(s: State) {
    && Dst(s).Holds?
    && forall d :: 0 <= d < |s.devs| ==>
         s.devs[d].name in Dst(s).disks && |Dst(s).disks[s.devs[d].name]| == |s.devs[d].disk|
  }

  /** A sector the bulk cursor has passed is dirty, under an unfinished guest
      write, given up on, or on its way with its current contents. */
  predicate PassedOk(s: State, d: nat, x: nat)
    requires d < |s.devs| && x < |s.devs[d].disk| && DstShape(s)
  {
    var dev := s.devs[d];
    || x / CHUNK in dev.dirty
    || UnderWrite(s.writes, d, x)
    || (d, x / CHUNK) in s.lost
    || Arrives(Pending(s), d, x, dev.disk[x], Dst(s).disks[dev.name][x] == dev.disk[x])
  }

  /** A sector the bulk cursor has not reached was never sent; with a shared base
      the destination has it as long as it stays unallocated. */
  predicate AheadOk(s: State, d: nat, x: nat)
    requires d < |s.devs| && x < |s.devs[d].disk| && DstShape(s)
  {
    var dev := s.devs[d];
    && Newest(Pending(s), d, x).None?
    && (dev.sharedBase && x !in dev.alloc ==> Dst(s).disks[dev.name][x] == dev.disk[x])
  }

  predicate SectorOk(s: State, d: nat, x: nat)
    requires d < |s.devs| && x < |s.devs[d].disk| && DstShape(s)
  {
    if x < s.devs[d].curSector then PassedOk(s, d, x) else AheadOk(s, d, x)
  }

  predicate DistinctNames(s: State) {
    forall d, e :: 0 <= d < e < |s.devs| ==> s.devs[d].name != s.devs[e].name
  }

  predicate QueueRead(s: State) {
    && (forall i :: 0 <= i < |s.queue| ==> Whole(s.queue[i]))
    && (forall i :: 0 <= i < |s.inflight| ==> !s.inflight[i].failed)
  }

  predicate Whole(b: Blk) {
    b.failed || forall k: nat :: k < b.nr ==> k in b.sampled
  }

  predicate Counters(s: State) {
    s.submitted == |s.inflight| && s.readDone == |s.queue| + |s.abandoned|
  }

  /** A chunk marked in aio_bitmap has a read in flight, so qemu_aio_flush clears it. */
  predicate AioBacked(s: State) {
    forall d, c :: 0 <= d < |s.devs| && c in s.devs[d].aio ==>
      exists j :: 0 <= j < |s.inflight| && ReadsChunk(s.inflight[j], d, c)
  }

  predicate ReadsChunk(b: Blk, d: nat, c: nat) { b.dev == d && b.sector / CHUNK == c }

  predicate Shape(s: State) {
    Formed(s) && DistinctNames(s) && QueueRead(s) && Counters(s)
  }

  ghost predicate Sectors(s: State)
    requires DstShape(s)
  {
    forall d: nat, x: nat :: d < |s.devs| && x < |s.devs[d].disk| ==> SectorOk(s, d, x)
  }

  ghost predicate Inv(s: State) {
    Shape(s) && DstShape(s) && Sectors(s)
  }

  // ------------------------------------------------------- lists of reads

  function Later(newer: Option<Blk>, older: Option<Blk>): Option<Blk> {
    if newer.Some? then newer else older
  }

  function Only(b: Blk, d: nat, x: nat): Option<Blk> {
    if BlkCovers(b, d, x) then Some(b) else None
  }

  lemma {:induction false} NewestConcat(a: seq<Blk>, b: seq<Blk>, d: nat, x: nat)
    ensures Newest(a + b, d, x) == Later(Newest(b, d, x), Newest(a, d, x))
  {
    if b == [] {
      assert a + b == a;
    } else {
      assert (a + b)[..|a + b| - 1] == a + b[..|b| - 1];
      NewestConcat(a, b[..|b| - 1], d, x);
    }
  }

  /** Splitting a pending list around one read. */
  lemma {:induction false} NewestAround(a: seq<Blk>, b: Blk, c: seq<Blk>, r: seq<Blk>, d: nat, x: nat)
    requires r == a + [b] + c
    ensures Newest(r, d, x) == Later(Newest(c, d, x), Later(Only(b, d, x), Newest(a, d, x)))
  {
    NewestConcat(a + [b], c, d, x);
    NewestConcat(a, [b], d, x);
    assert [b][..0] == [];
  }

  /** Chunk-aligned reads of one device overlap only when they read the same chunk. */
  lemma {:induction false} SameChunk(s: State, b: Blk, c: Blk, d: nat, x: nat)
    requires FormedBlk(s, b) && FormedBlk(s, c) && BlkCovers(b, d, x) && BlkCovers(c, d, x)
    ensures b.sector == c.sector
  {
  }

  lemma {:induction false} CoverChunk(s: State, b: Blk, d: nat, x: nat)
    requires FormedBlk(s, b) && d < |s.devs| && x < |s.devs[d].disk|
    ensures BlkCovers(b, d, x) <==> b.dev == d && b.sector / CHUNK == x / CHUNK
  {
  }

  lemma {:induction false} InChunks(sector: nat, nb: nat, x: nat)
    requires nb > 0 && sector <= x < sector + nb
    ensures x / CHUNK in Chunks(sector, nb)
  {
    assert Within(sector / CHUNK, x / CHUNK, (sector + nb - 1) / CHUNK + 1);
  }

  /** An aligned chunk read clears or marks exactly its own chunk. */
  lemma {:induction false} OneChunk(sector: nat, nr: nat)
    requires sector % CHUNK == 0 && 0 < nr <= CHUNK
    ensures Chunks(sector, nr) == {sector / CHUNK}
  {
    assert (sector + nr - 1) / CHUNK == sector / CHUNK;
    assert forall c {:trigger c in Chunks(sector, nr)} :: c in Chunks(sector, nr)
                                                          ==> Within(sector / CHUNK, c, sector / CHUNK + 1);
    assert Within(sector / CHUNK, sector / CHUNK, sector / CHUNK + 1);
  }

  // ------------------------------------------------------------------ stream

  lemma {:induction false} ReplaySnoc(dst0: Disks, stream: seq<Record>, r: Record)
    ensures Replay(dst0, stream + [r]) == Load(Replay(dst0, stream), r)
  {
    assert (stream + [r])[..|stream + [r]| - 1] == stream;
  }

  /** What loading one more device record does to one sector of one device. */
  lemma {:induction false} LoadSector(s: State, t: State, e: nat, r: Record, d: nat, x: nat)
    requires DstShape(s) && DistinctNames(s) && e < |s.devs| && d < |s.devs| && x < |s.devs[d].disk|
    requires r.DeviceBlock? && r.name == s.devs[e].name && r.sector < |s.devs[e].disk| && |r.buf| == CHUNK
    requires t.dst0 == s.dst0 && t.stream == s.stream + [r]
    ensures Dst(t).Holds? && Dst(t).disks.Keys == Dst(s).disks.Keys
    ensures |Dst(t).disks[s.devs[d].name]| == |s.devs[d].disk|
    ensures Dst(t).disks[s.devs[d].name][x] ==
            if d == e && r.sector <= x < r.sector + NrSectors(|s.devs[e].disk|, r.sector) then r.buf[x - r.sector]
            else Dst(s).disks[s.devs[d].name][x]
  {
    ReplaySnoc(s.dst0, s.stream, r);
    assert s.devs[e].name in Dst(s).disks && |Dst(s).disks[s.devs[e].name]| == |s.devs[e].disk|;
    assert s.devs[d].name in Dst(s).disks;
    assert d != e ==> s.devs[d].name != s.devs[e].name;
  }

  // ------------------------------------------------- the shape of the state

  /** Same devices by name and size. */
  predicate SameDevices(s: State, t: State) {
    && |s.devs| == |t.devs|
    && forall d :: 0 <= d < |s.devs| ==> s.devs[d].name == t.devs[d].name && |s.devs[d].disk| == |t.devs[d].disk|
  }

  /** Requests in t were well formed in s, and the devices are the same. */
  lemma {:induction false} FormedFrame(s: State, t: State)
    requires Formed(s) && SameDevices(s, t)
    requires forall i :: 0 <= i < |t.writes| ==> ValidWrite(s, t.writes[i])
    requires forall i :: 0 <= i < |t.inflight| ==> FormedBlk(s, t.inflight[i])
    requires forall i :: 0 <= i < |t.queue| ==> FormedBlk(s, t.queue[i])
    requires forall d :: 0 <= d < |t.devs| ==> FormedDev(t.devs[d])
    ensures Formed(t) && (DistinctNames(s) ==> DistinctNames(t))
  {
  }

  lemma {:induction false} GuestShape(s: State, a: Action)
    requires Shape(s) && Enabled(s, a) && (a.SubmitWrite? || a.SyncWrite? || a.StopGuest?)
    ensures Shape(Apply(s, a)) && SameDevices(s, Apply(s, a))
  {
    FormedFrame(s, Apply(s, a));
  }

  lemma {:induction false} LandShape(s: State, a: Action)
    requires Shape(s) && Enabled(s, a) && (a.Land? || a.CompleteWrite?)
    ensures Shape(Apply(s, a)) && SameDevices(s, Apply(s, a))
  {
    FormedFrame(s, Apply(s, a));
  }

  lemma {:induction false} SampleShape(s: State, j: nat, ks: set<nat>)
    requires Shape(s) && Enabled(s, Sample(j, ks))
    ensures Shape(Apply(s, Sample(j, ks))) && SameDevices(s, Apply(s, Sample(j, ks)))
  {
    var t := Apply(s, Sample(j, ks));
    assert forall i :: 0 <= i < |t.inflight| && i != j ==> t.inflight[i] == s.inflight[i];
    FormedFrame(s, t);
  }

  lemma {:induction false} CompleteReadShape(s: State, j: nat, ok: bool)
    requires Shape(s) && Enabled(s, CompleteRead(j, ok))
    ensures Shape(Apply(s, CompleteRead(j, ok))) && SameDevices(s, Apply(s, CompleteRead(j, ok)))
  {
    var t := Apply(s, CompleteRead(j, ok));
    assert forall i :: 0 <= i < |t.inflight| ==> t.inflight[i] == s.inflight[if i < j then i else i + 1];
    assert forall i :: 0 <= i < |t.devs| ==> t.devs[i] == s.devs[i].(aio := t.devs[i].aio);
    FormedFrame(s, t);
  }

  lemma {:induction false} BulkShape(s: State, a: Action)
    requires Shape(s) && Enabled(s, a) && a.Bulk?
    ensures Shape(Apply(s, a)) && SameDevices(s, Apply(s, a))
  {
    var t, dev := Apply(s, a), s.devs[a.d];
    assert FormedDev(dev);
    if a.start < |dev.disk| {
      RoundDown(dev.curSector, a.start, |dev.disk|);
      assert FormedBlk(s, NewBlk(s, a.d, a.start - a.start % CHUNK, a.garbage));
    }
    assert FormedDev(t.devs[a.d]);
    FormedFrame(s, t);
  }

  lemma {:induction false} DirtyShape(s: State, a: Action)
    requires Shape(s) && Enabled(s, a)
    requires a.ResetCursors? || a.DirtyAdvance? || a.DirtyRead? || a.DirtySync?
    ensures Shape(Apply(s, a)) && SameDevices(s, Apply(s, a))
  {
    FormedFrame(s, Apply(s, a));
  }

  lemma {:induction false} StreamShape(s: State, a: Action)
    requires Shape(s) && Enabled(s, a) && (a.Send? || a.Fail? || a.Mark? || a.GiveUp?)
    ensures Shape(Apply(s, a)) && SameDevices(s, Apply(s, a))
  {
    FormedFrame(s, Apply(s, a));
  }

  lemma {:induction false} ShapeStep(s: State, a: Action)
    requires Shape(s) && Enabled(s, a)
    ensures Shape(Apply(s, a)) && SameDevices(s, Apply(s, a))
  {
    match a
    case SubmitWrite(_) => GuestShape(s, a);
    case Land(_, _, _) => LandShape(s, a);
    case CompleteWrite(_) => LandShape(s, a);
    case SyncWrite(_) => GuestShape(s, a);
    case StopGuest => GuestShape(s, a);
    case Sample(j, ks) => SampleShape(s, j, ks);
    case CompleteRead(j, ok) => CompleteReadShape(s, j, ok);
    case Bulk(_, _, _) => BulkShape(s, a);
    case ResetCursors => DirtyShape(s, a);
    case DirtyAdvance(_) => DirtyShape(s, a);
    case DirtyRead(_, _) => DirtyShape(s, a);
    case DirtySync(_, _) => DirtyShape(s, a);
    case Send => StreamShape(s, a);
    case Fail => StreamShape(s, a);
    case Mark(_) => StreamShape(s, a);
    case GiveUp => StreamShape(s, a);
  }

  // ------------------------------------------------ one step seen by one sector

  /** n delivers v at x whenever m does. */
  predicate NoWorse(m: Option<Blk>, n: Option<Blk>, x: nat, v: Sector) {
    || m == n
    || (m.Some? && n.Some? && n.value.sector == m.value.sector && |n.value.buf| == |m.value.buf|
        && (m.value.sector <= x < m.value.sector + |m.value.buf| && WillDeliver(m.value, x, v)
            ==> WillDeliver(n.value, x, v)))
  }

  /** Nothing that matters for sector x of device d changed for the worse. */
  lemma {:induction false} Carry(s: State, t: State, d: nat, x: nat)
    requires DstShape(s) && DstShape(t) && d < |s.devs| == |t.devs|
    requires x < |s.devs[d].disk| == |t.devs[d].disk| && SectorOk(s, d, x)
    requires s.devs[d].name == t.devs[d].name && s.devs[d].sharedBase == t.devs[d].sharedBase
    requires x < s.devs[d].curSector <==> x < t.devs[d].curSector
    requires s.devs[d].disk[x] == t.devs[d].disk[x]
    requires x / CHUNK in s.devs[d].dirty ==> x / CHUNK in t.devs[d].dirty
    requires x in s.devs[d].alloc ==> x in t.devs[d].alloc
    requires UnderWrite(s.writes, d, x) ==> UnderWrite(t.writes, d, x) || x / CHUNK in t.devs[d].dirty
    requires (d, x / CHUNK) in s.lost ==> (d, x / CHUNK) in t.lost
    requires NoWorse(Newest(Pending(s), d, x), Newest(Pending(t), d, x), x, s.devs[d].disk[x])
    requires Dst(s).disks[s.devs[d].name][x] == Dst(t).disks[s.devs[d].name][x]
    ensures SectorOk(t, d, x)
  {
  }

  lemma {:induction false} QuietSector(s: State, a: Action, d: nat, x: nat)
    requires Shape(s) && DstShape(s) && Enabled(s, a)
    requires d < |s.devs| && x < |s.devs[d].disk| && SectorOk(s, d, x)
    requires a.StopGuest? || a.ResetCursors? || a.DirtyAdvance? || a.Fail? || a.Mark?
    ensures DstShape(Apply(s, a)) && SectorOk(Apply(s, a), d, x)
  {
    var t := Apply(s, a);
    if a.Mark? { ReplaySnoc(s.dst0, s.stream, a.r); }
    assert Dst(t) == Dst(s);
    Carry(s, t, d, x);
  }

  lemma {:induction false} SubmitWriteSector(s: State, t: State, w: GuestWrite, d: nat, x: nat)
    requires Shape(s) && DstShape(s) && Enabled(s, SubmitWrite(w))
    requires d < |s.devs| && x < |s.devs[d].disk| && SectorOk(s, d, x)
    requires t == s.(writes := s.writes + [w])
    ensures DstShape(t) && SectorOk(t, d, x)
  {
    if UnderWrite(s.writes, d, x) {
      var i :| 0 <= i < |s.writes| && WriteCovers(s.writes[i], d, x);
      assert t.writes[i] == s.writes[i];
    }
    Carry(s, t, d, x);
  }

  lemma {:induction false} LandSectorOk(s: State, t: State, i: nat, k: nat, cow: set<nat>, d: nat, x: nat)
    requires Shape(s) && DstShape(s) && Enabled(s, Land(i, k, cow))
    requires d < |s.devs| && x < |s.devs[d].disk| && SectorOk(s, d, x)
    requires t == LandSector(s, i, k, cow)
    ensures DstShape(t) && SectorOk(t, d, x)
  {
    if d == s.writes[i].dev && x == s.writes[i].sector + k {
      assert WriteCovers(t.writes[i], d, x);
      assert Pending(t) == Pending(s);
    } else {
      Carry(s, t, d, x);
    }
  }

  lemma {:induction false} CompleteWriteSector(s: State, t: State, i: nat, d: nat, x: nat)
    requires Shape(s) && DstShape(s) && Enabled(s, CompleteWrite(i))
    requires d < |s.devs| && x < |s.devs[d].disk| && SectorOk(s, d, x)
    requires t == FinishWrite(s, i)
    ensures DstShape(t) && SectorOk(t, d, x)
  {
    if UnderWrite(s.writes, d, x) {
      var j :| 0 <= j < |s.writes| && WriteCovers(s.writes[j], d, x);
      if j == i {
        InChunks(s.writes[i].sector, |s.writes[i].data|, x);
      } else {
        assert t.writes[if j < i then j else j - 1] == s.writes[j];
      }
    }
    Carry(s, t, d, x);
  }

  lemma {:induction false} SyncWriteSector(s: State, t: State, w: GuestWrite, d: nat, x: nat)
    requires Shape(s) && DstShape(s) && Enabled(s, SyncWrite(w))
    requires d < |s.devs| && x < |s.devs[d].disk| && SectorOk(s, d, x)
    requires t == WriteNow(s, w)
    ensures DstShape(t) && SectorOk(t, d, x)
  {
    if WriteCovers(w, d, x) {
      InChunks(w.sector, |w.data|, x);
      assert Within(w.sector, x, w.sector + |w.data|);
      assert Pending(t) == Pending(s);
    } else {
      Carry(s, t, d, x);
    }
  }

  lemma {:induction false} SampleDelivers(s: State, b: Blk, ks: set<nat>, d: nat, x: nat)
    requires FormedBlk(s, b) && x < |s.devs[b.dev].disk| && b.dev == d
    ensures NoWorse(Some(b), Some(SampleBlk(s, b, ks)), x, s.devs[d].disk[x])
  {
  }

  lemma {:induction false} NewestSample(s: State, t: State, j: nat, ks: set<nat>, d: nat, x: nat)
    requires Formed(s) && Enabled(s, Sample(j, ks))
             && t == s.(inflight := s.inflight[j := SampleBlk(s, s.inflight[j], ks)])
    requires d < |s.devs| && x < |s.devs[d].disk|
    ensures NoWorse(Newest(Pending(s), d, x), Newest(Pending(t), d, x), x, s.devs[d].disk[x])
  {
    var b, b' := s.inflight[j], SampleBlk(s, s.inflight[j], ks);
    var pre, post := s.queue + s.inflight[..j], s.inflight[j + 1..];
    assert Pending(t) == pre + [b'] + post;
    NewestAround(pre, b, post, Pending(s), d, x);
    NewestAround(pre, b', post, Pending(t), d, x);
    if BlkCovers(b, d, x) { SampleDelivers(s, b, ks, d, x); }
  }

  lemma {:induction false} SampleSector(s: State, t: State, j: nat, ks: set<nat>, d: nat, x: nat)
    requires Shape(s) && DstShape(s) && Enabled(s, Sample(j, ks))
    requires d < |s.devs| && x < |s.devs[d].disk| && SectorOk(s, d, x)
    requires t == s.(inflight := s.inflight[j := SampleBlk(s, s.inflight[j], ks)])
    ensures DstShape(t) && SectorOk(t, d, x)
  {
    NewestSample(s, t, j, ks, d, x);
    Carry(s, t, d, x);
  }

  /** A finished read moves to the end of the queue, past older reads of other chunks. */
  lemma {:induction false} NewestMove(s: State, t: State, j: nat, ok: bool, d: nat, x: nat)
    requires Shape(s) && Enabled(s, CompleteRead(j, ok)) && t == FinishRead(s, j, ok)
    ensures var n := Newest(Pending(s), d, x);
            Newest(Pending(t), d, x) == n ||
            (n == Some(s.inflight[j]) && Newest(Pending(t), d, x) == Some(s.inflight[j].(failed := !ok)))
  {
    var b, b' := s.inflight[j], s.inflight[j].(failed := !ok);
    var pre, post := s.inflight[..j], s.inflight[j + 1..];
    NewestAround(s.queue + pre, b, post, Pending(s), d, x);
    NewestConcat(s.queue, pre, d, x);
    NewestAround(s.queue, b', pre + post, Pending(t), d, x);
    NewestConcat(pre, post, d, x);
    if BlkCovers(b, d, x) && Newest(pre, d, x).Some? {
      var i :| 0 <= i < j && s.inflight[i] == Newest(pre, d, x).value;
      SameChunk(s, s.inflight[i], b, d, x);
    }
  }

  lemma {:induction false} CompleteReadSector(s: State, t: State, j: nat, ok: bool, d: nat, x: nat)
    requires Shape(s) && DstShape(s) && Enabled(s, CompleteRead(j, ok))
    requires d < |s.devs| && x < |s.devs[d].disk| && SectorOk(s, d, x)
    requires t == FinishRead(s, j, ok)
    ensures DstShape(t) && SectorOk(t, d, x)
  {
    NewestMove(s, t, j, ok, d, x);
    assert !s.inflight[j].failed;
    Carry(s, t, d, x);
  }

  /** Submitting a read of one's chunk: nothing is sampled yet, so it cannot be stale. */
  lemma {:induction false} NewestSubmitted(s: State, b: Blk, d: nat, x: nat)
    requires b.sampled == {}
    ensures Newest(s.queue + (s.inflight + [b]), d, x)
            == if BlkCovers(b, d, x) then Some(b) else Newest(Pending(s), d, x)
  {
    NewestAround(s.queue + s.inflight, b, [], s.queue + (s.inflight + [b]), d, x);
  }

  lemma {:induction false} DirtyReadSector(s: State, t: State, e: nat, garbage: seq<Sector>, d: nat, x: nat)
    requires Shape(s) && DstShape(s) && Enabled(s, DirtyRead(e, garbage))
    requires d < |s.devs| && x < |s.devs[d].disk| && SectorOk(s, d, x)
    requires t == AsyncRead(s, e, garbage)
    ensures DstShape(t) && SectorOk(t, d, x)
  {
    var b := NewBlk(s, e, s.devs[e].curDirty, garbage);
    assert FormedBlk(s, b);
    NewestSubmitted(s, b, d, x);
    OneChunk(b.sector, b.nr);
    CoverChunk(s, b, d, x);
    if !BlkCovers(b, d, x) { Carry(s, t, d, x); }
  }

  lemma {:induction false} BulkSector(s: State, t: State, e: nat, start: nat, garbage: seq<Sector>, d: nat, x: nat)
    requires Shape(s) && DstShape(s) && Enabled(s, Bulk(e, start, garbage))
    requires d < |s.devs| && x < |s.devs[d].disk| && SectorOk(s, d, x)
    requires t == BulkFrom(s, e, start, garbage)
    ensures DstShape(t) && SectorOk(t, d, x)
  {
    if start >= |s.devs[e].disk| {
      assert Pending(t) == Pending(s);
      if d != e || x < s.devs[e].curSector { Carry(s, t, d, x); }
    } else {
      BulkReadSector(s, t, e, start, garbage, d, x);
    }
  }

  lemma {:induction false} BulkReadSector(s: State, t: State, e: nat, start: nat, garbage: seq<Sector>, d: nat, x: nat)
    requires Shape(s) && DstShape(s) && Enabled(s, Bulk(e, start, garbage)) && start < |s.devs[e].disk|
    requires d < |s.devs| && x < |s.devs[d].disk| && SectorOk(s, d, x)
    requires t == BulkFrom(s, e, start, garbage)
    ensures DstShape(t) && SectorOk(t, d, x)
  {
    assert FormedDev(s.devs[e]);
    hide Shape, BulkRead, SectorOk, DstShape, FormedDev, BulkFrom;
    var b := NewBlk(s, e, start - start % CHUNK, garbage);
    BulkReadIs(s, t, e, start, garbage, b);
    NewestSubmitted(s, b, d, x);
    if BlkCovers(b, d, x) {
      BulkCovered(s, t, b, d, x);
    } else if d == e && s.devs[e].curSector <= x < b.sector {
      BulkSkipped(s, t, b, d, x);
    } else {
      BulkCarried(s, t, b, d, x);
    }
  }

  lemma {:induction false} BulkDst(s: State, t: State, e: nat, start: nat, garbage: seq<Sector>)
    requires DstShape(s) && Enabled(s, Bulk(e, start, garbage)) && t == BulkFrom(s, e, start, garbage)
    ensures DstShape(t) && Dst(t) == Dst(s)
  {
  }

  /** What a bulk read b of an aligned chunk of device b.dev does to the state. */
  predicate BulkRead(s: State, t: State, b: Blk) {
    && b.dev < |s.devs| && b.nr > 0 && b.sector % CHUNK == 0 && b.sampled == {} && |b.buf| == CHUNK
    && b.sector < |s.devs[b.dev].disk| && b.nr == NrSectors(|s.devs[b.dev].disk|, b.sector)
    && s.devs[b.dev].curSector <= b.sector && DstShape(s) && DstShape(t) && Dst(t) == Dst(s)
    && t == s.(devs := s.devs[b.dev := s.devs[b.dev].(dirty := s.devs[b.dev].dirty - {b.sector / CHUNK},
                                                      curSector := b.sector + b.nr,
                                                      bulkCompleted := b.sector + b.nr >= |s.devs[b.dev].disk|)],
               inflight := s.inflight + [b], submitted := s.submitted + 1)
  }

  lemma {:induction false} BulkReadIs(s: State, t: State, e: nat, start: nat, garbage: seq<Sector>, b: Blk)
    requires DstShape(s) && Enabled(s, Bulk(e, start, garbage)) && start < |s.devs[e].disk| && FormedDev(s.devs[e])
    requires t == BulkFrom(s, e, start, garbage) && b == NewBlk(s, e, start - start % CHUNK, garbage)
    ensures BulkRead(s, t, b) && DstShape(t) && b.sector <= start && |t.devs| == |s.devs|
    ensures s.devs[e].curSector < b.sector ==> Unallocated(s.devs[e], s.devs[e].curSector, start)
  {
    RoundDown(s.devs[e].curSector, start, |s.devs[e].disk|);
    BulkDst(s, t, e, start, garbage);
    OneChunk(b.sector, b.nr);
    hide DstShape, Dst;
  }

  lemma {:induction false} BulkCovered(s: State, t: State, b: Blk, d: nat, x: nat)
    requires b.dev < |s.devs| == |t.devs| && BulkRead(s, t, b) && BlkCovers(b, d, x) && x < |s.devs[d].disk|
    requires Newest(s.queue + (s.inflight + [b]), d, x) == Some(b)
    ensures SectorOk(t, d, x)
  {
    assert Newest(Pending(t), d, x) == Some(b);
  }

  /** Skipped sectors are unallocated, so a shared base serves them. */
  lemma {:induction false} BulkSkipped(s: State, t: State, b: Blk, d: nat, x: nat)
    requires b.dev == d < |s.devs| == |t.devs| && BulkRead(s, t, b) && s.devs[d].curSector <= x < b.sector
    requires SectorOk(s, d, x) && s.devs[d].sharedBase && x !in s.devs[d].alloc
    requires Newest(s.queue + (s.inflight + [b]), d, x) == Newest(Pending(s), d, x)
    ensures SectorOk(t, d, x)
  {
    assert Newest(Pending(t), d, x).None?;
  }

  lemma {:induction false} BulkCarried(s: State, t: State, b: Blk, d: nat, x: nat)
    requires b.dev < |s.devs| == |t.devs| && d < |s.devs| && BulkRead(s, t, b) && x < |s.devs[d].disk|
    requires !BlkCovers(b, d, x) && !(d == b.dev && s.devs[d].curSector <= x < b.sector) && SectorOk(s, d, x)
    requires Newest(s.queue + (s.inflight + [b]), d, x) == Newest(Pending(s), d, x)
    ensures SectorOk(t, d, x)
  {
    assert Newest(Pending(t), d, x) == Newest(Pending(s), d, x);
    assert d == b.dev ==> x / CHUNK != b.sector / CHUNK;
    Carry(s, t, d, x);
  }

  /** Rounding down to a chunk never goes back behind the bulk cursor. */
  lemma {:induction false} RoundDown(cur: nat, start: nat, total: nat)
    requires cur <= start < total && (cur % CHUNK == 0 || cur == total)
    ensures cur <= start - start % CHUNK <= start && (start - start % CHUNK) % CHUNK == 0
  {
  }

  lemma {:induction false} NewestSent(s: State, d: nat, x: nat)
    requires s.queue != []
    ensures Newest(Pending(s), d, x) == Later(Newest(s.queue[1..] + s.inflight, d, x), Only(s.queue[0], d, x))
  {
    NewestAround([], s.queue[0], s.queue[1..] + s.inflight, Pending(s), d, x);
  }

  lemma {:induction false} SendSector(s: State, t: State, d: nat, x: nat)
    requires DistinctNames(s) && DstShape(s) && Enabled(s, Send) && FormedBlk(s, s.queue[0]) && Whole(s.queue[0])
    requires d < |s.devs| && x < |s.devs[d].disk| && SectorOk(s, d, x)
    requires t == SendHead(s)
    ensures Dst(t).Holds? && s.devs[d].name in Dst(t).disks
    ensures |Dst(t).disks[s.devs[d].name]| == |s.devs[d].disk|
    ensures DstShape(t) ==> SectorOk(t, d, x)
  {
    var b := s.queue[0];
    LoadSector(s, t, b.dev, RecordOf(s, b), d, x);
    NewestSent(s, d, x);
    if DstShape(t) {
      if BlkCovers(b, d, x) {
        assert Newest(Pending(t), d, x).None? ==> Newest(Pending(s), d, x) == Some(b);
      } else {
        Carry(s, t, d, x);
      }
    }
  }

  lemma {:induction false} GiveUpSector(s: State, t: State, d: nat, x: nat)
    requires Shape(s) && DstShape(s) && Enabled(s, GiveUp)
    requires d < |s.devs| && x < |s.devs[d].disk| && SectorOk(s, d, x)
    requires t == Abandon(s)
    ensures DstShape(t) && SectorOk(t, d, x)
  {
    assert Pending(s) == s.queue && Pending(t) == [];
    if Newest(s.queue, d, x).Some? {
      var b := Newest(s.queue, d, x).value;
      CoverChunk(s, b, d, x);
      var i :| 0 <= i < |s.queue| && s.queue[i] == b;
      assert (b.dev, b.sector / CHUNK) in ChunksOf(s.queue);
    } else {
      Carry(s, t, d, x);
    }
  }

  lemma {:induction false} DirtySyncSector(s: State, t: State, e: nat, garbage: seq<Sector>, d: nat, x: nat)
    requires Shape(s) && DstShape(s) && Enabled(s, DirtySync(e, garbage))
    requires d < |s.devs| && x < |s.devs[d].disk| && SectorOk(s, d, x)
    requires t == SyncRead(s, e, garbage)
    ensures Dst(t).Holds?
    ensures s.devs[d].name in Dst(t).disks
    ensures |Dst(t).disks[s.devs[d].name]| == |s.devs[d].disk|
    ensures DstShape(t) ==> SectorOk(t, d, x)
  {
    var dev := s.devs[e];
    var nr := NrSectors(|dev.disk|, dev.curDirty);
    LoadSector(s, t, e, DeviceBlock(dev.curDirty, dev.name, SyncBuf(dev.disk, dev.curDirty, garbage)), d, x);
    OneChunk(dev.curDirty, nr);
    assert Pending(t) == Pending(s) == [];
    if DstShape(t) && (d != e || x / CHUNK != dev.curDirty / CHUNK) { Carry(s, t, d, x); }
  }

  // ------------------------------------------------------------------- runs

  lemma {:induction false} SectorStep(s: State, a: Action, t: State, d: nat, x: nat)
    requires Shape(s) && DstShape(s) && Enabled(s, a) && t == Apply(s, a) && SameDevices(s, t) && DstShape(t)
    requires d < |s.devs| && x < |s.devs[d].disk| && SectorOk(s, d, x)
    requires !a.Send? && !a.DirtySync?
    ensures SectorOk(t, d, x)
  {
    match a
    case SubmitWrite(w) => SubmitWriteSector(s, t, w, d, x);
    case Land(i, k, cow) => LandSectorOk(s, t, i, k, cow, d, x);
    case CompleteWrite(i) => CompleteWriteSector(s, t, i, d, x);
    case SyncWrite(w) => SyncWriteSector(s, t, w, d, x);
    case Sample(j, ks) => SampleSector(s, t, j, ks, d, x);
    case CompleteRead(j, ok) => CompleteReadSector(s, t, j, ok, d, x);
    case Bulk(e, start, garbage) => BulkSector(s, t, e, start, garbage, d, x);
    case DirtyRead(e, garbage) => DirtyReadSector(s, t, e, garbage, d, x);
    case GiveUp => GiveUpSector(s, t, d, x);
    case _ => QuietSector(s, a, d, x);
  }

  lemma {:induction false} InvStep(s: State, a: Action)
    requires Inv(s) && Enabled(s, a)
    ensures Inv(Apply(s, a)) && SameDevices(s, Apply(s, a))
  {
    var t := Apply(s, a);
    ShapeStep(s, a);
    DstStep(s, a);
    forall d: nat, x: nat | d < |t.devs| && x < |t.devs[d].disk|
      ensures SectorOk(t, d, x)
    {
      assert SectorOk(s, d, x);
      if a.Send? { assert FormedBlk(s, s.queue[0]) && Whole(s.queue[0]); SendSector(s, t, d, x); }
      else if a.DirtySync? { DirtySyncSector(s, t, a.d, a.garbage, d, x); }
      else { SectorStep(s, a, t, d, x); }
    }
  }

  lemma {:induction false} DstStep(s: State, a: Action)
    requires Shape(s) && DstShape(s) && Enabled(s, a) && SameDevices(s, Apply(s, a))
    ensures DstShape(Apply(s, a))
  {
    var t := Apply(s, a);
    if a.Send? {
      assert FormedBlk(s, s.queue[0]);
      hide Shape;
      DstRecord(s, t, s.queue[0].dev, RecordOf(s, s.queue[0]));
    } else if a.DirtySync? {
      hide Shape;
      DstRecord(s, t, a.d, t.stream[|s.stream|]);
    } else if a.Mark? {
      ReplaySnoc(s.dst0, s.stream, a.r);
    } else {
      hide Formed, DistinctNames, QueueRead, Counters, Dst;
      assert t.stream == s.stream && t.dst0 == s.dst0;
    }
  }

  lemma {:induction false} DstRecord(s: State, t: State, e: nat, r: Record)
    requires DstShape(s) && SameDevices(s, t) && e < |s.devs| && r.DeviceBlock? && r.name == s.devs[e].name
    requires r.sector < |s.devs[e].disk| && |r.buf| == CHUNK && t.dst0 == s.dst0 && t.stream == s.stream + [r]
    ensures DstShape(t)
  {
    ReplaySnoc(s.dst0, s.stream, r);
    assert s.devs[e].name in Dst(s).disks && |Dst(s).disks[s.devs[e].name]| == |s.devs[e].disk|;
  }

  /** Every action of the trace is possible when its turn comes. */
  predicate ValidRun(s: State, trace: seq<Action>)
    decreases |trace|
  {
    trace == [] || (Formed(s) && Enabled(s, trace[0]) && ValidRun(Apply(s, trace[0]), trace[1..]))
  }

  function Final(s: State, trace: seq<Action>): State
    requires ValidRun(s, trace)
    decreases |trace|
  {
    if trace == [] then s else Final(Apply(s, trace[0]), trace[1..])
  }

  lemma {:induction false} InvRun(s: State, trace: seq<Action>)
    requires Inv(s) && ValidRun(s, trace)
    ensures Inv(Final(s, trace)) && SameDevices(s, Final(s, trace))
    decreases |trace|
  {
    if trace != [] {
      InvStep(s, trace[0]);
      InvRun(Apply(s, trace[0]), trace[1..]);
    }
  }

  predicate FreshDev(dev: Dev) {
    |dev.disk| > 0 && dev.dirty == {} && dev.aio == {} && dev.curSector == 0 && dev.curDirty == 0 && !dev.bulkCompleted
  }

  /** The state stage 1 leaves (block-migration.c:318-330, 573-578): tracking is on,
      no guest write is in flight, and the destination has disks of the same sizes
      which agree with the source wherever a shared base serves both. */
  predicate Start(s: State) {
    && s.writes == [] && s.inflight == [] && s.queue == [] && s.abandoned == [] && s.lost == {} && s.stream == []
    && s.submitted == 0 && s.readDone == 0 && s.transferred == 0 && s.guestRunning && !s.error
    && DistinctNames(s)
    && (forall d :: 0 <= d < |s.devs| ==> FreshDev(s.devs[d]) && SameBase(s.devs[d], s.dst0))
  }

  predicate SameBase(dev: Dev, dst0: Disks) {
    && dev.name in dst0 && |dst0[dev.name]| == |dev.disk|
    && (dev.sharedBase ==> forall x: nat :: x < |dev.disk| && x !in dev.alloc ==> dst0[dev.name][x] == dev.disk[x])
  }

  lemma {:induction false} StartInv(s: State)
    requires Start(s)
    ensures Inv(s)
  {
    assert Dst(s) == Holds(s.dst0);
    forall d: nat, x: nat | d < |s.devs| && x < |s.devs[d].disk|
      ensures SectorOk(s, d, x)
    {
      assert FreshDev(s.devs[d]) && SameBase(s.devs[d], s.dst0);
      assert Pending(s) == [];
    }
  }

  /** Nothing left to do: what stage 3 establishes before blk_mig_cleanup. */
  predicate Drained(s: State) {
    && s.writes == [] && s.inflight == [] && s.queue == []
    && forall d :: 0 <= d < |s.devs| ==> s.devs[d].bulkCompleted && NoDirtyChunk(s.devs[d])
  }

  predicate NoDirtyChunk(dev: Dev) {
    forall c :: c in dev.dirty ==> c * CHUNK >= |dev.disk|
  }

  ghost predicate Agree(s: State, d: nat, x: nat)
    requires d < |s.devs| && x < |s.devs[d].disk| && DstShape(s)
  {
    Dst(s).disks[s.devs[d].name][x] == s.devs[d].disk[x]
  }

  /** MAIN RESULT.  However guest writes, sampling, completions and migration steps
      interleaved since stage 1, once the state is drained the replayed stream holds
      every sector of every device, except chunks whose queued read was given up. */
  lemma {:induction false} Converges(s: State, trace: seq<Action>)
    requires Start(s) && ValidRun(s, trace) && Drained(Final(s, trace))
    ensures DstShape(Final(s, trace))
    ensures var t := Final(s, trace);
            forall d: nat, x: nat ::
              d < |t.devs| && x < |t.devs[d].disk| && (d, x / CHUNK) !in t.lost ==> Agree(t, d, x)
  {
    StartInv(s);
    InvRun(s, trace);
    var t := Final(s, trace);
    forall d: nat, x: nat | d < |t.devs| && x < |t.devs[d].disk| && (d, x / CHUNK) !in t.lost
      ensures Agree(t, d, x)
    {
      assert SectorOk(t, d, x) && FormedDev(t.devs[d]);
      assert Pending(t) == [];
      assert t.devs[d].bulkCompleted && NoDirtyChunk(t.devs[d]);
    }
  }

  /** With nothing given up the destination disks are the source disks. */
  lemma {:induction false} ConvergesFully(s: State, trace: seq<Action>)
    requires Start(s) && ValidRun(s, trace) && Drained(Final(s, trace)) && Final(s, trace).lost == {}
    ensures Dst(Final(s, trace)).Holds?
    ensures forall d :: 0 <= d < |Final(s, trace).devs| ==>
              var dev := Final(s, trace).devs[d];
              dev.name in Dst(Final(s, trace)).disks && Dst(Final(s, trace)).disks[dev.name] == dev.disk
  {
    Converges(s, trace);
    StartInv(s);
    InvRun(s, trace);
    var t := Final(s, trace);
    forall d | 0 <= d < |t.devs|
      ensures Dst(t).disks[t.devs[d].name] == t.devs[d].disk
    {
      var dst := Dst(t).disks[t.devs[d].name];
      assert |dst| == |t.devs[d].disk|;
      forall x: nat | x < |dst| ensures dst[x] == t.devs[d].disk[x] { assert Agree(t, d, x); }
    }
  }
}
