/** More about whole runs of block migration: exactly when stage 3 may give up on
    queued reads, conservation of reads, and what the bulk phase covers. */
module BlockMigrationRuns {
  import opened Common
  import opened BlockMigrationProtocol
  import opened BlockMigrationConvergence

  // ------------------------------------------------- stage 3, exactly

  predicate StageThree(a: Action) {
    a.ResetCursors? || a.DirtyAdvance? || a.DirtySync? || a.Mark?
  }

  /** What one stage-3 step does for one sector: it leaves disks alone, and either
      copies the sector's dirty chunk or leaves chunk and destination as they were. */
  lemma {:induction false} StageThreeStep(s: State, a: Action, t: State, d: nat, x: nat)
    requires Inv(s) && Enabled(s, a) && StageThree(a) && d < |s.devs| && x < |s.devs[d].disk| && t == Apply(s, a)
    ensures Inv(t) && SameDevices(s, t) && t.devs[d].disk == s.devs[d].disk
    ensures Behind(s, d, x) <==> Behind(t, d, x)
  {
    InvStep(s, a);
    if a.DirtySync? {
      SyncStep(s, a.d, a.garbage, t, d, x);
    } else if a.Mark? {
      ReplaySnoc(s.dst0, s.stream, a.r);
    }
  }

  /** Stage 3 leaves, or already left, the sector as the source has it. */
  ghost predicate Behind(s: State, d: nat, x: nat)
    requires d < |s.devs| && x < |s.devs[d].disk| && DstShape(s)
  {
    x / CHUNK in s.devs[d].dirty || Agree(s, d, x)
  }

  lemma {:induction false} SyncStep(s: State, e: nat, garbage: seq<Sector>, t: State, d: nat, x: nat)
    requires DistinctNames(s) && DstShape(s) && d < |s.devs| && x < |s.devs[d].disk|
    requires Enabled(s, DirtySync(e, garbage)) && FormedDev(s.devs[e]) && t == SyncRead(s, e, garbage)
    requires SameDevices(s, t) && DstShape(t)
    ensures Behind(s, d, x) <==> Behind(t, d, x)
  {
    var dev := s.devs[e];
    LoadSector(s, t, e, DeviceBlock(dev.curDirty, dev.name, SyncBuf(dev.disk, dev.curDirty, garbage)), d, x);
    OneChunk(dev.curDirty, NrSectors(|dev.disk|, dev.curDirty));
  }

  /** A sector agrees after stage 3 exactly when, as stage 3 began, its chunk was
      dirty or the destination already had it. */
  lemma {:induction false} StageThreeSector(s: State, trace: seq<Action>, d: nat, x: nat)
    requires Inv(s) && ValidRun(s, trace) && (forall i :: 0 <= i < |trace| ==> StageThree(trace[i]))
    requires d < |s.devs| && x < |s.devs[d].disk|
    ensures Inv(Final(s, trace)) && SameDevices(s, Final(s, trace))
    ensures Behind(s, d, x) <==> Behind(Final(s, trace), d, x)
    decreases |trace|
  {
    if trace != [] {
      StageThreeStep(s, trace[0], Apply(s, trace[0]), d, x);
      StageThreeSector(Apply(s, trace[0]), trace[1..], d, x);
    }
  }

  /** Stage 3 may give up on the queue (rate limit hit at block-migration.c:472, queue
      freed at 548-552) without losing data exactly when every clean chunk with a
      queued read already agrees at the destination. */
  lemma {:induction false} GivingUpIsSafeExactly(s: State, trace: seq<Action>)
    requires Inv(s) && Enabled(s, GiveUp) && s.lost == {} && s.writes == []
    requires forall d :: 0 <= d < |s.devs| ==> s.devs[d].bulkCompleted
    requires ValidRun(Apply(s, GiveUp), trace) && (forall i :: 0 <= i < |trace| ==> StageThree(trace[i]))
    requires Drained(Final(Apply(s, GiveUp), trace))
    ensures var t := Final(Apply(s, GiveUp), trace);
            && Inv(t) && SameDevices(s, t)
            && ((forall d: nat, x: nat :: d < |t.devs| && x < |t.devs[d].disk| ==> Agree(t, d, x))
                <==> (forall d: nat, x: nat :: d < |s.devs| && x < |s.devs[d].disk| && CleanQueued(s, d, x)
                                               ==> Agree(s, d, x)))
  {
    InvStep(s, GiveUp);
    var u := Apply(s, GiveUp);
    InvRun(u, trace);
    var t := Final(u, trace);
    forall d: nat, x: nat | d < |s.devs| && x < |s.devs[d].disk|
      ensures Agree(t, d, x) <==> x / CHUNK in s.devs[d].dirty || Agree(s, d, x)
      ensures CleanQueued(s, d, x) || x / CHUNK in s.devs[d].dirty || Agree(s, d, x)
    {
      StageThreeSector(u, trace, d, x);
      assert Agree(u, d, x) == Agree(s, d, x);
      assert NoDirtyChunk(t.devs[d]);
      assert SectorOk(s, d, x) && s.devs[d].bulkCompleted && FormedDev(s.devs[d]);
      assert Pending(s) == s.queue;
    }
  }

  /** The sector waits in blk_list and its chunk is not dirty. */
  predicate CleanQueued(s: State, d: nat, x: nat)
    requires d < |s.devs|
  {
    Newest(s.queue, d, x).Some? && x / CHUNK !in s.devs[d].dirty
  }

  lemma {:induction false} RunCons(s: State, a: Action, rest: seq<Action>)
    requires Formed(s) && Enabled(s, a) && ValidRun(Apply(s, a), rest)
    ensures ValidRun(s, [a] + rest) && Final(s, [a] + rest) == Final(Apply(s, a), rest)
  {
    assert ([a] + rest)[1..] == rest;
  }

  /** A one-sector disk during its bulk phase. */
  function OneSector(cur: nat, inflight: seq<Blk>, queue: seq<Blk>): State {
    State([Dev("hd", false, [[1]], {0}, {}, {}, cur, 0, cur == 1)], [], inflight, queue, [], {}, [],
          map["hd" := [[0]]], |inflight|, |queue|, 0, true, false)
  }

  lemma {:induction false} OneSectorBulk(garbage: seq<Sector>)
    requires |garbage| == CHUNK
    ensures Formed(OneSector(0, [], [])) && Enabled(OneSector(0, [], []), Bulk(0, 0, garbage))
    ensures Apply(OneSector(0, [], []), Bulk(0, 0, garbage)) == OneSector(1, [Blk(0, 0, 1, garbage, {}, false)], [])
  {
    var s0, s1 := OneSector(0, [], []), OneSector(1, [Blk(0, 0, 1, garbage, {}, false)], []);
    OneChunk(0, 1);
    assert s0.devs[0].dirty - Chunks(0, 1) == {};
    assert BulkFrom(s0, 0, 0, garbage).devs == s1.devs;
    assert BulkFrom(s0, 0, 0, garbage).inflight == s1.inflight;
  }

  lemma {:induction false} OneSectorFinish(b: Blk)
    requires b.dev == 0 && b.sector == 0 && b.nr == 1 && |b.buf| == CHUNK && b.sampled == {0} && !b.failed
    ensures Formed(OneSector(1, [b], [])) && Enabled(OneSector(1, [b], []), CompleteRead(0, true))
    ensures Apply(OneSector(1, [b], []), CompleteRead(0, true)) == OneSector(1, [], [b])
  {
    var s2, s3 := OneSector(1, [b], []), OneSector(1, [], [b]);
    assert b.(failed := false) == b;
    assert FinishRead(s2, 0, true).inflight == s3.inflight && FinishRead(s2, 0, true).queue == s3.queue;
    OneChunk(0, 1);
    assert s2.devs[0].aio - Chunks(0, 1) == {};
    assert FinishRead(s2, 0, true).devs == s3.devs;
  }

  lemma {:induction false} OneSectorRead(garbage: seq<Sector>) returns (b: Blk)
    requires |garbage| == CHUNK
    ensures b.dev == 0 && b.sector == 0 && b.nr == 1 && |b.buf| == CHUNK && b.sampled == {0} && !b.failed
    ensures ValidRun(OneSector(0, [], []), [Bulk(0, 0, garbage)] + ([Sample(0, {0})] + [CompleteRead(0, true)]))
    ensures Final(OneSector(0, [], []), [Bulk(0, 0, garbage)] + ([Sample(0, {0})] + [CompleteRead(0, true)]))
            == OneSector(1, [], [b])
  {
    OneSectorBulk(garbage);
    var b0 := Blk(0, 0, 1, garbage, {}, false);
    var s1 := OneSector(1, [b0], []);
    b := SampleBlk(s1, b0, {0});
    OneSectorFinish(b);
    assert s1.inflight[0 := b] == [b];
    RunCons(OneSector(1, [b], []), CompleteRead(0, true), []);
    assert [CompleteRead(0, true)] + [] == [CompleteRead(0, true)];
    RunCons(s1, Sample(0, {0}), [CompleteRead(0, true)]);
    RunCons(OneSector(0, [], []), Bulk(0, 0, garbage), [Sample(0, {0})] + [CompleteRead(0, true)]);
  }

  lemma {:induction false} RunAppend(s: State, p: seq<Action>, q: seq<Action>)
    requires ValidRun(s, p) && ValidRun(Final(s, p), q)
    ensures ValidRun(s, p + q) && Final(s, p + q) == Final(Final(s, p), q)
    decreases |p|
  {
    if p == [] {
      assert p + q == q;
    } else {
      assert (p + q)[1..] == p[1..] + q;
      RunAppend(Apply(s, p[0]), p[1..], q);
    }
  }

  /** Giving up can lose data: a chunk read in bulk is never sent, and nothing is dirty. */
  lemma {:induction false} GivingUpCanLose() returns (s: State, trace: seq<Action>)
    ensures Start(s) && ValidRun(s, trace) && Drained(Final(s, trace)) && DstShape(Final(s, trace))
    ensures |Final(s, trace).devs| == 1 && |Final(s, trace).devs[0].disk| == 1 && !Agree(Final(s, trace), 0, 0)
  {
    var garbage: seq<Sector> := seq(CHUNK, _ => []);
    s := OneSector(0, [], []);
    var b := OneSectorRead(garbage);
    var s3 := OneSector(1, [], [b]);
    var s4 := Apply(s3, StopGuest);
    RunCons(s4, GiveUp, []);
    RunCons(s3, StopGuest, [GiveUp]);
    var reading := [Bulk(0, 0, garbage)] + ([Sample(0, {0})] + [CompleteRead(0, true)]);
    assert [GiveUp] + [] == [GiveUp];
    trace := reading + ([StopGuest] + [GiveUp]);
    RunAppend(s, reading, [StopGuest] + [GiveUp]);
    assert Dst(Final(s, trace)) == Holds(s.dst0);
  }

  // --------------------------------------------------- conservation of reads

  /** Asynchronous reads submitted along a run. */
  function Issued(s: State, trace: seq<Action>): nat
    requires ValidRun(s, trace)
    decreases |trace|
  {
    if trace == [] then 0
    else
      var a := trace[0];
      var now := if a.DirtyRead? || (a.Bulk? && a.start < |s.devs[a.d].disk|) then 1 else 0;
      now + Issued(Apply(s, a), trace[1..])
  }

  /** No read is lost or counted twice: every read submitted since stage 1 is in flight,
      in blk_list or transferred, and the three counters say how many of each; so the
      asserts at block-migration.c:202 and 487 never fire. */
  lemma {:induction false} ReadsConserved(s: State, trace: seq<Action>)
    requires Shape(s) && ValidRun(s, trace)
    ensures var t := Final(s, trace);
            && t.submitted == |t.inflight| && t.readDone == |t.queue| + |t.abandoned|
            && t.submitted + t.readDone + t.transferred
               == s.submitted + s.readDone + s.transferred + Issued(s, trace)
    decreases |trace|
  {
    if trace != [] {
      ShapeStep(s, trace[0]);
      ReadsConserved(Apply(s, trace[0]), trace[1..]);
    }
  }

  // ------------------------------------------------------ bulk-phase coverage

  /** First sectors of the bulk reads of device d along a run. */
  function BulkReads(s: State, trace: seq<Action>, d: nat): seq<nat>
    requires ValidRun(s, trace) && d < |s.devs| && Shape(s)
    decreases |trace|
  {
    if trace == [] then []
    else
      var a := trace[0];
      ShapeStep(s, a);
      var now := if a.Bulk? && a.d == d && a.start < |s.devs[d].disk| then [a.start - a.start % CHUNK] else [];
      now + BulkReads(Apply(s, a), trace[1..], d)
  }

  /** Chunk starts in [lo, hi), in strictly increasing order. */
  predicate Ascending(r: seq<nat>, lo: nat, hi: nat) {
    && (forall i :: 0 <= i < |r| ==> lo <= r[i] < hi && r[i] % CHUNK == 0)
    && (forall i, j :: 0 <= i < j < |r| ==> r[i] + CHUNK <= r[j])
  }

  lemma {:induction false} AscendingCons(f: nat, r: seq<nat>, lo: nat, next: nat, hi: nat)
    requires Ascending(r, next, hi) && lo <= f < hi && f % CHUNK == 0 && f + NrSectors(hi, f) == next
    ensures Ascending([f] + r, lo, hi)
  {
  }

  lemma {:induction false} BulkNext(s: State, a: Action)
    requires Shape(s) && Enabled(s, a) && a.Bulk? && a.start < |s.devs[a.d].disk|
    ensures var f, total := a.start - a.start % CHUNK, |s.devs[a.d].disk|;
            && s.devs[a.d].curSector <= f < total && f % CHUNK == 0
            && Apply(s, a).devs[a.d].curSector == f + NrSectors(total, f)
  {
    assert FormedDev(s.devs[a.d]);
    RoundDown(s.devs[a.d].curSector, a.start, |s.devs[a.d].disk|);
  }

  lemma {:induction false} AscendingWeaken(r: seq<nat>, lo: nat, next: nat, hi: nat)
    requires Ascending(r, next, hi) && lo <= next
    ensures Ascending(r, lo, hi)
  {
  }

  /** Chunks go out in strictly increasing order, so none is bulk-read twice. */
  lemma {:induction false} BulkIncreasing(s: State, trace: seq<Action>, d: nat)
    requires Shape(s) && ValidRun(s, trace) && d < |s.devs|
    ensures Ascending(BulkReads(s, trace, d), s.devs[d].curSector, |s.devs[d].disk|)
    decreases |trace|
  {
    if trace != [] {
      var a := trace[0];
      ShapeStep(s, a);
      var t := Apply(s, a);
      BulkIncreasing(t, trace[1..], d);
      CursorStep(s, a, d);
      if a.Bulk? && a.d == d && a.start < |s.devs[d].disk| {
        BulkNext(s, a);
        AscendingCons(a.start - a.start % CHUNK, BulkReads(t, trace[1..], d), s.devs[d].curSector,
                      t.devs[d].curSector, |s.devs[d].disk|);
      } else {
        AscendingWeaken(BulkReads(t, trace[1..], d), s.devs[d].curSector, t.devs[d].curSector, |s.devs[d].disk|);
      }
    }
  }

  /** The bulk cursor never retreats and allocation only grows. */
  lemma {:induction false} CursorStep(s: State, a: Action, d: nat)
    requires Shape(s) && Enabled(s, a) && d < |s.devs|
    ensures d < |Apply(s, a).devs|
    ensures s.devs[d].curSector <= Apply(s, a).devs[d].curSector
    ensures s.devs[d].alloc <= Apply(s, a).devs[d].alloc
    ensures s.devs[d].sharedBase == Apply(s, a).devs[d].sharedBase
    ensures Apply(s, a).devs[d].curSector != s.devs[d].curSector ==> a.Bulk? && a.d == d
  {
    if a.Bulk? {
      CursorBulk(s, a, d);
    } else {
      hide BulkFrom;
    }
  }

  lemma {:induction false} CursorBulk(s: State, a: Action, d: nat)
    requires Shape(s) && Enabled(s, a) && a.Bulk? && d < |s.devs|
    ensures var t := Apply(s, a);
            && |t.devs| == |s.devs| && s.devs[d].curSector <= t.devs[d].curSector
            && s.devs[d].alloc == t.devs[d].alloc && s.devs[d].sharedBase == t.devs[d].sharedBase
            && (t.devs[d].curSector != s.devs[d].curSector ==> a.d == d)
  {
    assert FormedDev(s.devs[d]);
    if a.d == d && a.start < |s.devs[d].disk| {
      RoundDown(s.devs[d].curSector, a.start, |s.devs[d].disk|);
    }
  }

  /** Every sector the cursor passed lies in a bulk read, unless a shared base holds
      it: with shared_base off that is every sector, otherwise every allocated one. */
  lemma {:induction false} BulkCovers(s: State, trace: seq<Action>, d: nat, x: nat)
    requires Shape(s) && ValidRun(s, trace) && d < |s.devs|
    requires d < |Final(s, trace).devs| && s.devs[d].curSector <= x < Final(s, trace).devs[d].curSector
    requires s.devs[d].sharedBase ==> x in s.devs[d].alloc
    ensures exists i :: 0 <= i < |BulkReads(s, trace, d)|
                        && BulkReads(s, trace, d)[i] <= x < BulkReads(s, trace, d)[i] + CHUNK
    decreases |trace|
  {
    var a := trace[0];
    ShapeStep(s, a);
    CursorStep(s, a, d);
    var t := Apply(s, a);
    assert FormedDev(s.devs[d]);
    var rest := BulkReads(t, trace[1..], d);
    if x < t.devs[d].curSector {
      assert a.Bulk? && a.d == d;
      RoundDown(s.devs[d].curSector, a.start, |s.devs[d].disk|);
      assert BulkReads(s, trace, d)[0] <= x;
    } else {
      BulkCovers(t, trace[1..], d, x);
      var i :| 0 <= i < |rest| && rest[i] <= x < rest[i] + CHUNK;
      var k := |BulkReads(s, trace, d)| - |rest|;
      assert BulkReads(s, trace, d)[k + i] == rest[i];
    }
  }

  // ------------------------------------------------------- in-flight bitmap

  /** The aio_bitmap only marks chunks with a read in flight, so after
      qemu_aio_flush no chunk is marked and the dirty scan never waits again. */
  lemma {:induction false} AioStep(s: State, a: Action)
    requires Shape(s) && AioBacked(s) && Enabled(s, a)
    ensures AioBacked(Apply(s, a))
  {
    var t := Apply(s, a);
    forall d, c | 0 <= d < |t.devs| && c in t.devs[d].aio
      ensures exists j :: 0 <= j < |t.inflight| && ReadsChunk(t.inflight[j], d, c)
    {
      if a.DirtyRead? && d == a.d && c !in s.devs[d].aio {
        assert FormedDev(s.devs[d]);
        OneChunk(s.devs[d].curDirty, NrSectors(|s.devs[d].disk|, s.devs[d].curDirty));
        assert ReadsChunk(t.inflight[|s.inflight|], d, c);
      } else {
        assert c in s.devs[d].aio;
        var j :| 0 <= j < |s.inflight| && ReadsChunk(s.inflight[j], d, c);
        AioWitness(s, a, t, d, c, j);
      }
    }
  }

  lemma {:induction false} AioWitness(s: State, a: Action, t: State, d: nat, c: nat, j: nat)
    requires Formed(s) && Enabled(s, a) && t == Apply(s, a) && d < |t.devs| && c in t.devs[d].aio
    requires j < |s.inflight| && ReadsChunk(s.inflight[j], d, c)
    ensures exists i :: 0 <= i < |t.inflight| && ReadsChunk(t.inflight[i], d, c)
  {
    if a.CompleteRead? {
      FinishedWitness(s, a.j, a.ok, t, d, c, j);
    } else {
      assert a.Bulk? || a.DirtyRead? || a.Sample? || t.inflight == s.inflight;
      assert ReadsChunk(t.inflight[j], d, c);
    }
  }

  lemma {:induction false} FinishedWitness(s: State, k: nat, ok: bool, t: State, d: nat, c: nat, j: nat)
    requires k < |s.inflight| && FormedBlk(s, s.inflight[k]) && t == FinishRead(s, k, ok)
    requires d < |t.devs| && c in t.devs[d].aio && j < |s.inflight| && ReadsChunk(s.inflight[j], d, c)
    ensures exists i :: 0 <= i < |t.inflight| && ReadsChunk(t.inflight[i], d, c)
  {
    OneChunk(s.inflight[k].sector, s.inflight[k].nr);
    assert t.inflight[if j < k then j else j - 1] == s.inflight[j];
  }
}
