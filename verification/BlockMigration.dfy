/** The migration code of block-migration.c, each function a method proved to be a
    run of BlockMigrationProtocol, so that what holds of every run holds of it. */
module BlockMigration {
  import opened Common
  import opened BlockMigrationProtocol
  import opened BlockMigrationConvergence
  import opened BlockMigrationRuns

  // MAX_IS_ALLOCATED_SEARCH (block-migration.c:31)
  const MAX_IS_ALLOCATED_SEARCH: nat := 65536

  // BLOCK_SIZE (block-migration.c:25)
  const BLOCK_SIZE: nat := CHUNK * 512

  ghost predicate Reaches(s: State, t: State) {
    exists trace :: ValidRun(s, trace) && Final(s, trace) == t
  }

  lemma {:induction false} ReachRefl(s: State)
    ensures Reaches(s, s)
  {
    assert ValidRun(s, []) && Final(s, []) == s;
  }

  ghost predicate Good(s: State) { Inv(s) && AioBacked(s) }

  lemma {:induction false} StartGood(s: State)
    requires Start(s)
    ensures Good(s)
  {
    StartInv(s);
    assert forall d :: 0 <= d < |s.devs| ==> FreshDev(s.devs[d]);
  }

  lemma {:induction false} GoodRun(s: State, trace: seq<Action>)
    requires Good(s) && ValidRun(s, trace)
    ensures Good(Final(s, trace))
    decreases |trace|
  {
    if trace != [] {
      InvStep(s, trace[0]);
      AioStep(s, trace[0]);
      hide Inv, AioBacked;
      GoodRun(Apply(s, trace[0]), trace[1..]);
    }
  }

  /** Every state a migration reaches satisfies the invariants. */
  lemma {:induction false} ReachGood(start: State, s: State)
    requires Start(start) && Reaches(start, s)
    ensures Good(s)
  {
    var trace :| ValidRun(start, trace) && Final(start, trace) == s;
    StartGood(start);
    GoodRun(start, trace);
  }

  lemma {:induction false} GoodFacts(s: State)
    requires Good(s)
    ensures Formed(s) && Counters(s)
  {
  }

  /** Replaying the stream yields the source's disks. */
  ghost predicate Arrived(s: State) {
    && Dst(s).Holds?
    && forall d :: 0 <= d < |s.devs|
        ==> s.devs[d].name in Dst(s).disks && Dst(s).disks[s.devs[d].name] == s.devs[d].disk
  }

  ghost predicate ArrivedExceptLost(s: State) {
    && DstShape(s)
    && forall d: nat, x: nat :: d < |s.devs| && x < |s.devs[d].disk| && (d, x / CHUNK) !in s.lost ==> Agree(s, d, x)
  }

  lemma {:induction false} ReachConverges(start: State, s: State)
    requires Start(start) && Reaches(start, s) && Drained(s)
    ensures ArrivedExceptLost(s) && (s.lost == {} ==> Arrived(s))
  {
    var trace :| ValidRun(start, trace) && Final(start, trace) == s;
    Converges(start, trace);
    if s.lost == {} { ConvergesFully(start, trace); }
  }

  lemma {:induction false} GoodDev(s: State, d: nat)
    requires Good(s) && d < |s.devs|
    ensures FormedDev(s.devs[d])
  {
  }

  predicate KeptDev(before: Dev, after: Dev) {
    && after.name == before.name && |after.disk| == |before.disk| && after.sharedBase == before.sharedBase
    && after.curDirty == before.curDirty && after.curSector == before.curSector
    && after.bulkCompleted == before.bulkCompleted && before.dirty <= after.dirty
  }

  lemma {:induction false} NoAio(s: State)
    requires Good(s) && s.inflight == []
    ensures forall d :: 0 <= d < |s.devs| ==> s.devs[d].aio == {}
  {
  }

  /** One step is a run, and keeps the invariants. */
  lemma {:induction false} OneStep(s: State, a: Action)
    requires Good(s) && Enabled(s, a)
    ensures Reaches(s, Apply(s, a)) && Good(Apply(s, a)) && SameDevices(s, Apply(s, a))
  {
    InvStep(s, a);
    AioStep(s, a);
    RunCons(s, a, []);
  }

  lemma {:induction false} ReachTrans(s: State, t: State, u: State)
    requires Reaches(s, t) && Reaches(t, u)
    ensures Reaches(s, u)
  {
    var p :| ValidRun(s, p) && Final(s, p) == t;
    var q :| ValidRun(t, q) && Final(t, q) == u;
    RunAppend(s, p, q);
  }

  /** Total number of dirty chunks. */
  function DirtyTotal(devs: seq<Dev>): nat {
    if devs == [] then 0 else |devs[0].dirty| + DirtyTotal(devs[1..])
  }

  lemma {:induction false} DirtyTotalUpdate(devs: seq<Dev>, d: nat, dev: Dev)
    requires d < |devs|
    ensures DirtyTotal(devs[d := dev]) == DirtyTotal(devs) - |devs[d].dirty| + |dev.dirty|
  {
    if d == 0 {
      assert devs[0 := dev][1..] == devs[1..];
    } else {
      assert devs[d := dev][1..] == devs[1..][d - 1 := dev];
      DirtyTotalUpdate(devs[1..], d - 1, dev);
    }
  }

  /** No chunk on the disk below the scan cursor is dirty. */
  predicate CleanBelow(dev: Dev) {
    forall c :: c in dev.dirty ==> dev.curDirty <= c * CHUNK || c * CHUNK >= |dev.disk|
  }

  /** A synchronous scan of one device: chunks between the two cursors were clean;
      either the end was reached or the chunk at the new cursor was the only one cleaned. */
  predicate Scanned(before: Dev, after: Dev, done: bool) {
    && after == before.(curDirty := after.curDirty, dirty := after.dirty)
    && before.curDirty <= after.curDirty
    && (forall c :: c in before.dirty ==> !(before.curDirty <= c * CHUNK < after.curDirty))
    && (done ==> after.curDirty >= |after.disk| && after.dirty == before.dirty)
    && (!done ==> after.curDirty < |after.disk| && after.curDirty % CHUNK == 0
                  && after.curDirty / CHUNK in before.dirty && after.dirty == before.dirty - {after.curDirty / CHUNK})
  }

  predicate AllBulk(devs: seq<Dev>) {
    forall d :: 0 <= d < |devs| ==> devs[d].bulkCompleted
  }

  /** Devices whose bulk phase is not over. */
  function Unfinished(devs: seq<Dev>): nat {
    if devs == [] then 0 else (if devs[0].bulkCompleted then 0 else 1) + Unfinished(devs[1..])
  }

  lemma {:induction false} UnfinishedUpdate(devs: seq<Dev>, d: nat, dev: Dev)
    requires d < |devs| && !devs[d].bulkCompleted
    ensures Unfinished(devs[d := dev]) == Unfinished(devs) - (if dev.bulkCompleted then 1 else 0)
  {
    if d == 0 {
      assert devs[0 := dev][1..] == devs[1..];
    } else {
      assert devs[d := dev][1..] == devs[1..][d - 1 := dev];
      UnfinishedUpdate(devs[1..], d - 1, dev);
    }
  }

  /** qemu_malloc(BLOCK_SIZE): any contents. */
  method MallocedBlock() returns (garbage: seq<Sector>)
    ensures |garbage| == CHUNK
  {
    ghost var some: seq<Sector> := seq(CHUNK, _ => []);
    assert |some| == CHUNK;
    garbage :| |garbage| == CHUNK;
  }

  /** The records that sending reads emits. */
  ghost function Records(s: State, bs: seq<Blk>): seq<Record>
    requires forall i :: 0 <= i < |bs| ==> bs[i].dev < |s.devs|
  {
    seq(|bs|, i requires 0 <= i < |bs| => RecordOf(s, bs[i]))
  }

  predicate KnownDevs(s: State, bs: seq<Blk>) {
    forall i :: 0 <= i < |bs| ==> bs[i].dev < |s.devs|
  }

  lemma {:induction false} QueueDevs(s: State)
    requires Good(s)
    ensures KnownDevs(s, s.queue)
  {
    assert forall i :: 0 <= i < |s.queue| ==> FormedBlk(s, s.queue[i]);
  }

  /** The first n queued reads have been sent, and nothing else. */
  ghost predicate Flushed(s: State, queue: seq<Blk>, stream: seq<Record>, n: nat) {
    && KnownDevs(s, s.queue) && n <= |s.queue| && queue == s.queue[n..]
    && stream == s.stream + Records(s, s.queue[..n])
  }

  lemma {:induction false} FlushStart(s: State)
    requires KnownDevs(s, s.queue)
    ensures Flushed(s, s.queue, s.stream, 0)
  {
    assert Records(s, s.queue[..0]) == [];
  }

  lemma {:induction false} FlushMore(s: State, t: State, n: nat)
    requires Flushed(s, t.queue, t.stream, n) && t.queue != [] && t.devs == s.devs
    ensures n < |s.queue| && t.queue[0].dev < |t.devs|
    ensures Flushed(s, t.queue[1..], t.stream + [RecordOf(t, t.queue[0])], n + 1)
  {
    assert t.queue[0] == s.queue[n];
    assert Records(s, s.queue[..n + 1]) == Records(s, s.queue[..n]) + [RecordOf(s, s.queue[n])];
  }

  lemma {:induction false} FlushEnd(s: State, t: State, n: nat)
    requires Flushed(s, t.queue, t.stream, n) && t.devs == s.devs
    ensures n <= |s.queue| && t.queue == s.queue[n..] && KnownDevs(t, s.queue)
    ensures t.stream == s.stream + Records(t, s.queue[..n])
  {
    assert Records(s, s.queue[..n]) == Records(t, s.queue[..n]);
  }

  // The steps behind some of the methods, field by field.

  lemma {:induction false} BulkReadStep(s: State, d: nat, start: nat, garbage: seq<Sector>, t: State)
    requires Good(s) && d < |s.devs| && !s.devs[d].bulkCompleted && |garbage| == CHUNK
    requires s.devs[d].curSector <= start < |s.devs[d].disk|
    requires start == s.devs[d].curSector || Unallocated(s.devs[d], s.devs[d].curSector, start)
    requires var dev, sector := s.devs[d], start - start % CHUNK;
             var nr := NrSectors(|dev.disk|, sector);
             nr > 0 && t == s.(devs := s.devs[d := dev.(dirty := dev.dirty - Chunks(sector, nr),
                                                        curSector := sector + nr,
                                                        bulkCompleted := sector + nr >= |dev.disk|)],
                               inflight := s.inflight + [Blk(d, sector, nr, garbage, {}, false)],
                               submitted := s.submitted + 1)
    ensures Good(t) && Reaches(s, t)
  {
    OneStep(s, Bulk(d, start, garbage));
    GoodFacts(s);
    hide Good, Reaches;
    assert t == Apply(s, Bulk(d, start, garbage));
  }

  lemma {:induction false} DirtyReadStep(s: State, d: nat, garbage: seq<Sector>, t: State)
    requires Good(s) && d < |s.devs| && s.devs[d].bulkCompleted && s.devs[d].curDirty < |s.devs[d].disk|
    requires s.devs[d].curDirty / CHUNK in s.devs[d].dirty && s.devs[d].curDirty / CHUNK !in s.devs[d].aio
    requires |garbage| == CHUNK && t == AsyncRead(s, d, garbage)
    ensures Good(t) && Reaches(s, t)
    ensures Chunks(s.devs[d].curDirty, NrSectors(|s.devs[d].disk|, s.devs[d].curDirty)) == {s.devs[d].curDirty / CHUNK}
  {
    OneStep(s, DirtyRead(d, garbage));
    GoodFacts(s);
    GoodDev(s, d);
    OneChunk(s.devs[d].curDirty, NrSectors(|s.devs[d].disk|, s.devs[d].curDirty));
    hide Good, Reaches;
    assert t == Apply(s, DirtyRead(d, garbage));
  }

  lemma {:induction false} DirtySyncStep(s: State, d: nat, garbage: seq<Sector>, t: State)
    requires Good(s) && !s.guestRunning && s.writes == [] && s.inflight == [] && s.queue == []
    requires d < |s.devs| && s.devs[d].bulkCompleted && s.devs[d].curDirty < |s.devs[d].disk|
    requires s.devs[d].curDirty / CHUNK in s.devs[d].dirty && |garbage| == CHUNK && t == SyncRead(s, d, garbage)
    ensures Good(t) && Reaches(s, t) && s.devs[d].curDirty % CHUNK == 0
    ensures Chunks(s.devs[d].curDirty, NrSectors(|s.devs[d].disk|, s.devs[d].curDirty)) == {s.devs[d].curDirty / CHUNK}
  {
    OneStep(s, DirtySync(d, garbage));
    GoodFacts(s);
    GoodDev(s, d);
    OneChunk(s.devs[d].curDirty, NrSectors(|s.devs[d].disk|, s.devs[d].curDirty));
    hide Good, Reaches;
    assert t == Apply(s, DirtySync(d, garbage));
  }

  lemma {:induction false} ReadDoneStep(s: State, j: nat, ok: bool)
    requires Good(s) && Enabled(s, CompleteRead(j, ok))
    ensures Formed(s) && j < |s.inflight| && s.inflight[j].dev < |s.devs| && s.inflight[j].nr > 0
    ensures var b := s.inflight[j]; var t := Apply(s, CompleteRead(j, ok));
            && Good(t) && Reaches(s, t) && t.submitted >= 0
            && t == s.(inflight := s.inflight[..j] + s.inflight[j + 1..], queue := s.queue + [b.(failed := !ok)],
                       devs := s.devs[b.dev := s.devs[b.dev].(aio := s.devs[b.dev].aio - Chunks(b.sector, b.nr))],
                       submitted := s.submitted - 1, readDone := s.readDone + 1)
  {
    GoodFacts(s);
    assert FormedBlk(s, s.inflight[j]);
    OneStep(s, CompleteRead(j, ok));
    GoodFacts(Apply(s, CompleteRead(j, ok)));
  }

  lemma {:induction false} LandStep(s: State, i: nat, k: nat, cow: set<nat>)
    requires Good(s) && i < |s.writes| && k < |s.writes[i].data|
    ensures var w := s.writes[i]; w.dev < |s.devs| && w.sector + k < |s.devs[w.dev].disk|
    ensures var w := s.writes[i]; var dev := s.devs[w.dev];
            var t := s.(devs := s.devs[w.dev := dev.(disk := dev.disk[w.sector + k := w.data[k]],
                                                     alloc := dev.alloc + {w.sector + k} + cow)]);
            Good(t) && Reaches(s, t)
  {
    GoodFacts(s);
    assert ValidWrite(s, s.writes[i]);
    OneStep(s, Land(i, k, cow));
    hide Good, Reaches, Formed;
  }

  lemma {:induction false} SampleStep(s: State, j: nat, ks: set<nat>)
    requires Good(s) && j < |s.inflight| && forall k :: k in ks ==> k < s.inflight[j].nr
    ensures s.inflight[j].dev < |s.devs|
    ensures var t := s.(inflight := s.inflight[j := SampleBlk(s, s.inflight[j], ks)]); Good(t) && Reaches(s, t)
  {
    GoodFacts(s);
    assert FormedBlk(s, s.inflight[j]);
    OneStep(s, Sample(j, ks));
    hide Good, Reaches, Formed;
  }

  lemma {:induction false} WritesHaveData(s: State)
    requires Good(s)
    ensures forall i :: 0 <= i < |s.writes| ==> |s.writes[i].data| > 0
  {
    assert forall i :: 0 <= i < |s.writes| ==> ValidWrite(s, s.writes[i]);
  }

  lemma {:induction false} SendStep(s: State)
    requires Good(s) && s.queue != [] && !s.queue[0].failed
    ensures s.queue[0].dev < |s.devs|
    ensures var t := s.(stream := s.stream + [RecordOf(s, s.queue[0])], queue := s.queue[1..],
                        readDone := s.readDone - 1, transferred := s.transferred + 1);
            Good(t) && Reaches(s, t) && t.readDone >= 0
  {
    hide Good, Reaches, Formed;
    GoodFacts(s);
    QueueDevs(s);
    OneStep(s, Send);
    GoodFacts(Apply(s, Send));
  }

  class BlkMigState {
    var devs: seq<Dev>
    var writes: seq<GuestWrite>
    var inflight: seq<Blk>
    var queue: seq<Blk>
    var stream: seq<Record>
    var submitted: int
    var readDone: int
    var transferred: int
    var guestRunning: bool
    var error: bool
    var bulkCompleted: bool
    ghost var abandoned: seq<Blk>
    ghost var lost: set<(nat, nat)>
    ghost var dst0: Disks

    ghost function St(): State
      reads this
    {
      State(devs, writes, inflight, queue, abandoned, lost, stream, dst0, submitted, readDone, transferred,
            guestRunning, error)
    }

    /** What block_save_live may assume in stage 3 (block-migration.c:616-619). */
    ghost predicate Quiet()
      reads this
    {
      && Good(St()) && !guestRunning && writes == [] && inflight == [] && queue == []
      && forall d :: 0 <= d < |devs| ==> devs[d].bulkCompleted
    }

    /** mig_save_device_dirty with is_async == 0 (block-migration.c:379-438): skip to the
        first dirty chunk at or after cur_dirty, send it and clean it. */
    method SaveDeviceDirtySync(d: nat) returns (done: bool)
      requires Quiet() && d < |devs|
      modifies this`devs, this`stream, this`lost
      ensures Quiet() && Reaches(old(St()), St()) && |devs| == |old(devs)|
      ensures forall e :: 0 <= e < |devs| && e != d ==> devs[e] == old(devs[e])
      ensures Scanned(old(devs[d]), devs[d], done)
      ensures lost <= old(lost)
    {
      hide Good, Reaches;
      ReachRefl(St());
      while devs[d].curDirty < |devs[d].disk| && devs[d].curDirty / CHUNK !in devs[d].dirty
        invariant Quiet() && Reaches(old(St()), St())
        invariant |devs| == |old(devs)| && (forall e :: 0 <= e < |devs| && e != d ==> devs[e] == old(devs[e]))
        invariant devs[d] == old(devs[d]).(curDirty := devs[d].curDirty)
        invariant old(devs[d].curDirty) <= devs[d].curDirty
        invariant forall c :: c in old(devs[d].dirty) ==> !(old(devs[d].curDirty) <= c * CHUNK < devs[d].curDirty)
        invariant lost == old(lost)
        decreases |devs[d].disk| - devs[d].curDirty
      {
        ghost var s := St();
        SkipClean(d);
        ReachTrans(old(St()), s, St());
      }
      done := devs[d].curDirty >= |devs[d].disk|;
      if !done {
        ghost var s := St();
        SendDirtyChunk(d);
        ReachTrans(old(St()), s, St());
      }
    }

    /** The clean branch of the scan (block-migration.c:434-435). */
    method SkipClean(d: nat)
      requires Good(St()) && d < |devs| && devs[d].curDirty < |devs[d].disk|
               && devs[d].curDirty / CHUNK !in devs[d].dirty
      modifies this`devs
      ensures Good(St()) && Reaches(old(St()), St())
      ensures devs == old(devs)[d := old(devs[d]).(curDirty := old(devs[d].curDirty) + CHUNK)]
      // only the chunk at the cursor was passed
      ensures forall c: nat :: old(devs[d].curDirty) <= c * CHUNK < devs[d].curDirty
                               ==> c == old(devs[d].curDirty) / CHUNK
    {
      OneStep(St(), DirtyAdvance(d));
      assert FormedDev(devs[d]);
      devs := devs[d := devs[d].(curDirty := devs[d].curDirty + CHUNK)];
      assert St() == Apply(old(St()), DirtyAdvance(d));
    }

    /** The dirty branch of mig_save_device_dirty, synchronous (block-migration.c:421-432);
        the tail of the buffer beyond the disk is whatever qemu_malloc returned. */
    method SendDirtyChunk(d: nat)
      requires Quiet() && d < |devs|
      requires devs[d].curDirty < |devs[d].disk| && devs[d].curDirty / CHUNK in devs[d].dirty
      modifies this`devs, this`stream, this`lost
      ensures Quiet() && Reaches(old(St()), St())
      ensures devs == old(devs)[d := old(devs[d]).(dirty := old(devs[d].dirty) - {old(devs[d].curDirty) / CHUNK})]
      ensures devs[d].curDirty % CHUNK == 0
      ensures lost <= old(lost)
    {
      var garbage := MallocedBlock();
      hide Good, Reaches, Chunks, SyncBuf;
      var dev := devs[d];
      var nr := NrSectors(|dev.disk|, dev.curDirty);
      stream := stream + [DeviceBlock(dev.curDirty, dev.name, SyncBuf(dev.disk, dev.curDirty, garbage))];
      devs := devs[d := dev.(dirty := dev.dirty - Chunks(dev.curDirty, nr))];
      lost := lost - {(d, dev.curDirty / CHUNK)};
      DirtySyncStep(old(St()), d, garbage, St());
    }

    /** blk_mig_save_dirty_block with is_async == 0 (block-migration.c:448-461). */
    method SaveDirtyBlockSync() returns (more: bool)
      requires Quiet() && forall d :: 0 <= d < |devs| ==> CleanBelow(devs[d])
      modifies this`devs, this`stream, this`lost
      ensures Quiet() && Reaches(old(St()), St()) && lost <= old(lost) && |devs| == |old(devs)|
      ensures forall d :: 0 <= d < |devs| ==> CleanBelow(devs[d])
      ensures more ==> DirtyTotal(devs) == DirtyTotal(old(devs)) - 1
      ensures !more ==> DirtyTotal(devs) == DirtyTotal(old(devs))
                        && forall d :: 0 <= d < |devs| ==> NoDirtyChunk(devs[d])
    {
      hide Good, Reaches;
      ReachRefl(St());
      for d := 0 to |devs|
        invariant |devs| == |old(devs)| && Quiet() && Reaches(old(St()), St()) && lost <= old(lost)
        invariant forall e :: 0 <= e < |devs| ==> CleanBelow(devs[e])
        invariant forall e :: 0 <= e < d ==> NoDirtyChunk(devs[e])
        invariant DirtyTotal(devs) == DirtyTotal(old(devs))
      {
        ghost var s, was := St(), devs;
        var done := SaveDeviceDirtySync(d);
        ReachTrans(old(St()), s, St());
        assert devs == was[d := devs[d]];
        DirtyTotalUpdate(was, d, devs[d]);
        if !done {
          return true;
        }
      }
      more := false;
    }

    /** The stage-3 loop (block-migration.c:621): it ends, after as many turns as there
        were dirty chunks, with none left. */
    method DrainDirty()
      requires Quiet() && forall d :: 0 <= d < |devs| ==> devs[d].curDirty == 0
      modifies this`devs, this`stream, this`lost
      ensures Quiet() && Reaches(old(St()), St()) && lost <= old(lost)
      ensures Drained(St())
    {
      ReachRefl(St());
      var more := true;
      while more
        invariant Quiet() && Reaches(old(St()), St()) && lost <= old(lost)
        invariant forall d :: 0 <= d < |devs| ==> CleanBelow(devs[d])
        invariant !more ==> forall d :: 0 <= d < |devs| ==> NoDirtyChunk(devs[d])
        decreases DirtyTotal(devs), more
      {
        ghost var s := St();
        more := SaveDirtyBlockSync();
        ReachTrans(old(St()), s, St());
      }
    }

    // ------------------------------------------------------ asynchronous reads

    /** blk_mig_read_cb (block-migration.c:186-203). */
    method ReadCb(j: nat, ok: bool)
      requires Good(St()) && Enabled(St(), CompleteRead(j, ok))
      modifies this`devs, this`inflight, this`queue, this`submitted, this`readDone
      ensures Good(St()) && Reaches(old(St()), St())
      ensures Formed(old(St())) && St() == Apply(old(St()), CompleteRead(j, ok))
      ensures submitted >= 0
    {
      ReadDoneStep(St(), j, ok);
      hide *;
      var b := inflight[j];
      queue := queue + [b.(failed := !ok)];
      devs := devs[b.dev := devs[b.dev].(aio := devs[b.dev].aio - Chunks(b.sector, b.nr))];
      inflight := inflight[..j] + inflight[j + 1..];
      submitted := submitted - 1;
      readDone := readDone + 1;
    }

    /** A guest write finishes: block_complete_cb marks its chunks (block.c:2171-2180). */
    method WriteCb(i: nat)
      requires Good(St()) && i < |writes|
      modifies this`devs, this`writes
      ensures Good(St()) && Reaches(old(St()), St())
      ensures Formed(old(St())) && St() == Apply(old(St()), CompleteWrite(i))
    {
      OneStep(St(), CompleteWrite(i));
      GoodFacts(St());
      hide Good, Reaches;
      var w := writes[i];
      devs := devs[w.dev := MarkDirty(devs[w.dev], w)];
      writes := writes[..i] + writes[i + 1..];
      assert St() == FinishWrite(old(St()), i);
    }

    /** A sector of a guest write reaches the disk, allocating it and perhaps others of its cluster. */
    method LandOne(i: nat, k: nat, cow: set<nat>)
      requires Good(St()) && i < |writes| && k < |writes[i].data|
      modifies this`devs
      ensures Good(St()) && Reaches(old(St()), St()) && Kept(old(devs))
    {
      hide Good, Reaches;
      LandStep(St(), i, k, cow);
      var w := writes[i];
      var dev := devs[w.dev];
      devs := devs[w.dev := dev.(disk := dev.disk[w.sector + k := w.data[k]],
                                 alloc := dev.alloc + {w.sector + k} + cow)];
    }

    /** The AIO threads fill some sectors of read j. */
    method SampleSome(j: nat, ks: set<nat>)
      requires Good(St()) && j < |inflight| && forall k :: k in ks ==> k < inflight[j].nr
      modifies this`inflight
      ensures Good(St()) && Reaches(old(St()), St())
      ensures |inflight| == |old(inflight)| && inflight[j].nr == old(inflight[j]).nr
      ensures inflight[j].sampled == old(inflight[j]).sampled + ks
      ensures forall i :: 0 <= i < |inflight| ==>
                inflight[i].dev == old(inflight[i]).dev && inflight[i].sector == old(inflight[i]).sector
    {
      hide Good, Reaches;
      SampleStep(St(), j, ks);
      var b := inflight[j];
      var disk := devs[b.dev].disk;
      inflight := inflight[j := b.(buf := seq(|b.buf|, k requires 0 <= k < |b.buf| =>
                    if k in ks && b.sector + k < |disk| then disk[b.sector + k] else b.buf[k]),
                  sampled := b.sampled + ks)];
      assert inflight[j] == SampleBlk(old(St()), b, ks);
    }

    /** The AIO threads fill the rest of read j; its callback may now run. */
    method FinishSampling(j: nat)
      requires Good(St()) && j < |inflight|
      modifies this`inflight
      ensures Good(St()) && Reaches(old(St()), St())
      ensures |inflight| == |old(inflight)|
      ensures forall k: nat :: k < inflight[j].nr ==> k in inflight[j].sampled
      ensures forall i :: 0 <= i < |inflight| ==>
                inflight[i].dev == old(inflight[i]).dev && inflight[i].sector == old(inflight[i]).sector
    {
      var all := Span(0, inflight[j].nr);
      assert forall k: nat :: k < inflight[j].nr ==> Within(0, k, inflight[j].nr);
      hide Good, Reaches;
      SampleSome(j, all - inflight[j].sampled);
    }

    /** Scan positions and sizes kept, dirty chunks still dirty. */
    predicate Kept(before: seq<Dev>)
      reads this
    {
      && |devs| == |before|
      && forall d :: 0 <= d < |devs| ==> KeptDev(before[d], devs[d])
    }

    /** Read j may finish next: no earlier read of its chunk is in flight. */
    predicate MayFinish(j: nat)
      reads this
      requires j < |inflight|
    {
      forall i :: 0 <= i < j ==> inflight[i].dev != inflight[j].dev || inflight[i].sector != inflight[j].sector
    }

    /** Read j finishes, well or not; a read that fails may have sampled anything. */
    method FinishRequest(j: nat)
      requires Good(St()) && j < |inflight| && MayFinish(j)
      modifies this`devs, this`inflight, this`queue, this`submitted, this`readDone
      ensures Good(St()) && Reaches(old(St()), St()) && Kept(old(devs))
      ensures |inflight| == |old(inflight)| - 1 && submitted + readDone == old(submitted + readDone)
    {
      hide Good, Reaches;
      ReachRefl(St());
      var ok: bool := *;
      if ok {
        FinishSampling(j);
      }
      ghost var u := St();
      assert MayFinish(j);
      ReadCb(j, ok);
      ReachTrans(old(St()), u, St());
    }

    /** The threads work on some request that is in flight, if there is one. */
    method Work()
      requires Good(St())
      modifies this`devs, this`inflight
      ensures Good(St()) && Reaches(old(St()), St()) && Kept(old(devs)) && |inflight| == |old(inflight)|
    {
      WritesHaveData(St());
      hide Good, Reaches;
      ReachRefl(St());
      var write: bool := *;
      if write && writes != [] {
        var i :| 0 <= i < |writes|;
        assert 0 < |writes[i].data|;
        var k :| 0 <= k < |writes[i].data|;
        var cow: set<nat> := *;
        LandOne(i, k, cow);
      } else if inflight != [] {
        var j :| 0 <= j < |inflight|;
        var some: set<nat> := *;
        SampleSome(j, set k: nat | k in some && k < inflight[j].nr);
      }
    }

    /** qemu_aio_flush as block-migration.c:388-390 uses it: while sectors of reads are sampled and those
        of guest writes land, in any order, the requests finish, in any order in which reads of one chunk
        keep theirs, and with any results, until none is left. */
    method AioFlush()
      requires Good(St())
      modifies this`devs, this`inflight, this`queue, this`submitted, this`readDone, this`writes
      ensures Good(St()) && Reaches(old(St()), St()) && inflight == [] && Kept(old(devs))
      ensures forall d :: 0 <= d < |devs| ==> devs[d].aio == {}
      ensures submitted + readDone == old(submitted + readDone)
    {
      hide Good, Reaches;
      ReachRefl(St());
      var work: nat := *;
      while inflight != [] || writes != []
        invariant Good(St()) && Reaches(old(St()), St()) && Kept(old(devs))
        invariant submitted + readDone == old(submitted + readDone)
        decreases |inflight| + |writes|, work
      {
        ghost var s := St();
        var busy: bool, write: bool := *, *;
        if busy && work > 0 {
          Work();
          work := work - 1;
        } else if inflight == [] || (write && writes != []) {
          var i :| 0 <= i < |writes|;
          WriteCb(i);
        } else {
          assert MayFinish(0);
          var j :| 0 <= j < |inflight| && MayFinish(j);
          FinishRequest(j);
        }
        ReachTrans(old(St()), s, St());
      }
      NoAio(St());
    }

    /** The dirty branch of mig_save_device_dirty, asynchronous (block-migration.c:404-419, 431). */
    method SubmitDirtyRead(d: nat)
      requires Good(St()) && d < |devs| && devs[d].bulkCompleted && devs[d].curDirty < |devs[d].disk|
      requires devs[d].curDirty / CHUNK in devs[d].dirty && devs[d].curDirty / CHUNK !in devs[d].aio
      modifies this`devs, this`inflight, this`submitted
      ensures Good(St()) && Reaches(old(St()), St())
      ensures |devs| == |old(devs)| && devs == old(devs)[d := devs[d]]
      ensures devs[d] == old(devs[d]).(dirty := old(devs[d].dirty) - {devs[d].curDirty / CHUNK},
                                       aio := old(devs[d].aio) + {devs[d].curDirty / CHUNK})
      ensures |inflight| == |old(inflight)| + 1 && ReadsChunk(inflight[|old(inflight)|], d, devs[d].curDirty / CHUNK)
      ensures submitted == old(submitted) + 1
    {
      var garbage := MallocedBlock();
      hide Good, Reaches, Chunks;
      var dev := devs[d];
      var nr := NrSectors(|dev.disk|, dev.curDirty);
      inflight := inflight + [Blk(d, dev.curDirty, nr, garbage, {}, false)];
      submitted := submitted + 1;
      devs := devs[d := dev.(aio := dev.aio + Chunks(dev.curDirty, nr), dirty := dev.dirty - Chunks(dev.curDirty, nr))];
      DirtyReadStep(old(St()), d, garbage, St());
    }

    /** mig_save_device_dirty with is_async == 1 (block-migration.c:379-438). */
    method SaveDeviceDirtyAsync(d: nat) returns (done: bool)
      requires Good(St()) && d < |devs| && devs[d].bulkCompleted
      modifies this`devs, this`inflight, this`queue, this`submitted, this`readDone, this`writes
      ensures Good(St()) && Reaches(old(St()), St()) && |devs| == |old(devs)|
      ensures forall e :: 0 <= e < |devs| ==> devs[e].bulkCompleted == old(devs[e].bulkCompleted)
      ensures done ==> devs[d].curDirty >= |devs[d].disk| && submitted + readDone == old(submitted + readDone)
      // unfinished: exactly one more read is under way, of the chunk at the cursor, which is now clean
      ensures !done ==>
        && submitted + readDone == old(submitted + readDone) + 1
        && devs[d].curDirty < |devs[d].disk| && devs[d].curDirty / CHUNK !in devs[d].dirty
        && inflight != [] && ReadsChunk(inflight[|inflight| - 1], d, devs[d].curDirty / CHUNK)
    {
      hide Good, Reaches;
      ReachRefl(St());
      while devs[d].curDirty < |devs[d].disk|
        invariant Good(St()) && Reaches(old(St()), St()) && |devs| == |old(devs)|
        invariant forall e :: 0 <= e < |devs| ==> devs[e].bulkCompleted == old(devs[e].bulkCompleted)
        invariant submitted + readDone == old(submitted + readDone)
        decreases |devs[d].disk| - devs[d].curDirty
      {
        if devs[d].curDirty / CHUNK in devs[d].aio {
          ghost var s := St();
          AioFlush();
          ReachTrans(old(St()), s, St());
        }
        ghost var s := St();
        if devs[d].curDirty / CHUNK in devs[d].dirty {
          SubmitDirtyRead(d);
          ReachTrans(old(St()), s, St());
          return false;
        }
        SkipClean(d);
        ReachTrans(old(St()), s, St());
      }
      done := true;
    }

    /** blk_mig_save_dirty_block with is_async == 1 (block-migration.c:448-461). */
    method SaveDirtyBlockAsync() returns (more: bool)
      requires Good(St()) && AllBulk(devs)
      modifies this`devs, this`inflight, this`queue, this`submitted, this`readDone, this`writes
      ensures Good(St()) && Reaches(old(St()), St()) && AllBulk(devs)
      ensures submitted + readDone == old(submitted + readDone) + (if more then 1 else 0)
    {
      hide Good, Reaches;
      ReachRefl(St());
      for d := 0 to |devs|
        invariant |devs| == |old(devs)| && Good(St()) && Reaches(old(St()), St()) && AllBulk(devs)
        invariant submitted + readDone == old(submitted + readDone)
      {
        ghost var s := St();
        var done := SaveDeviceDirtyAsync(d);
        ReachTrans(old(St()), s, St());
        if !done {
          return true;
        }
      }
      more := false;
    }

    // ---------------------------------------------------------------- bulk phase

    /** bdrv_is_allocated (block.c:1645-1670) by its contract: the state of `sector` and a
        number of sectors, at most `max`, known to be in the same state. */
    method IsAllocated(d: nat, sector: nat, max: nat) returns (yes: bool, n: nat)
      requires d < |devs| && sector < |devs[d].disk| && max > 0
      ensures yes == (sector in devs[d].alloc) && 0 < n <= max
      ensures forall x: nat :: sector <= x < sector + n && x < |devs[d].disk| ==> (x in devs[d].alloc <==> yes)
    {
      yes := sector in devs[d].alloc;
      n := 1;
      while n < max
        invariant 0 < n <= max
        invariant forall x: nat :: sector <= x < sector + n && x < |devs[d].disk| ==> (x in devs[d].alloc <==> yes)
      {
        var stop: bool := *;
        if stop || (sector + n in devs[d].alloc) != yes {
          break;
        }
        n := n + 1;
      }
    }

    /** The shared-base skip (block-migration.c:214-220). */
    method SkipUnallocated(d: nat) returns (start: nat)
      requires d < |devs| && devs[d].curSector <= |devs[d].disk|
      ensures devs[d].curSector <= start
      ensures !devs[d].sharedBase ==> start == devs[d].curSector
      // it stops at the first allocated sector, or past the end
      ensures forall x: nat :: devs[d].curSector <= x < start && x < |devs[d].disk| ==> x !in devs[d].alloc
      ensures start < |devs[d].disk| && devs[d].sharedBase ==> start in devs[d].alloc
    {
      start := devs[d].curSector;
      if devs[d].sharedBase {
        while start < |devs[d].disk|
          invariant devs[d].curSector <= start
          invariant forall x: nat :: devs[d].curSector <= x < start && x < |devs[d].disk| ==> x !in devs[d].alloc
        {
          var yes, n := IsAllocated(d, start, MAX_IS_ALLOCATED_SEARCH);
          if yes {
            break;
          }
          start := start + n;
        }
      }
    }

    /** mig_save_device_bulk (block-migration.c:205-262) with the flag its caller sets
        from the result (341-344). */
    method SaveDeviceBulk(d: nat)
      requires Good(St()) && d < |devs| && !devs[d].bulkCompleted
      modifies this`devs, this`inflight, this`submitted
      ensures Good(St()) && Reaches(old(St()), St()) && |devs| == |old(devs)|
      ensures forall e :: 0 <= e < |devs| && e != d ==> devs[e] == old(devs[e])
      ensures devs[d].bulkCompleted <==> devs[d].curSector == |devs[d].disk|
      // either the device is finished or one more read is in flight
      ensures submitted == old(submitted) + (if |inflight| > |old(inflight)| then 1 else 0)
      ensures |inflight| == |old(inflight)| ==> devs[d].bulkCompleted
      ensures |inflight| >= |old(inflight)|
    {
      GoodDev(St(), d);
      hide Good, Reaches;
      var start := SkipUnallocated(d);
      if start >= |devs[d].disk| {
        FinishBulk(d);
      } else {
        SubmitBulkRead(d, start);
      }
    }

    /** Nothing left to read (block-migration.c:222-225). */
    method FinishBulk(d: nat)
      requires Good(St()) && d < |devs| && !devs[d].bulkCompleted && devs[d].curSector <= |devs[d].disk|
      requires devs[d].curSector == |devs[d].disk| || Unallocated(devs[d], devs[d].curSector, |devs[d].disk|)
      modifies this`devs
      ensures Good(St()) && Reaches(old(St()), St())
      ensures devs == old(devs)[d := old(devs[d]).(curSector := |old(devs[d].disk)|, bulkCompleted := true)]
    {
      var garbage := MallocedBlock();
      OneStep(St(), Bulk(d, |devs[d].disk|, garbage));
      hide Good, Reaches;
      devs := devs[d := devs[d].(curSector := |devs[d].disk|, bulkCompleted := true)];
      assert St() == BulkFrom(old(St()), d, |devs[d].disk|, garbage);
    }

    /** Read a whole chunk even if only part of it is allocated (block-migration.c:227-262). */
    method SubmitBulkRead(d: nat, start: nat)
      requires Good(St()) && d < |devs| && !devs[d].bulkCompleted && devs[d].curSector <= start < |devs[d].disk|
      requires start == devs[d].curSector || Unallocated(devs[d], devs[d].curSector, start)
      modifies this`devs, this`inflight, this`submitted
      ensures Good(St()) && Reaches(old(St()), St()) && |devs| == |old(devs)|
      ensures forall e :: 0 <= e < |devs| && e != d ==> devs[e] == old(devs[e])
      ensures devs[d].bulkCompleted <==> devs[d].curSector == |devs[d].disk|
      ensures submitted == old(submitted) + 1 && |inflight| == |old(inflight)| + 1
    {
      var garbage := MallocedBlock();
      hide Good, Reaches, Unallocated, Chunks;
      var dev, sector := devs[d], start - start % CHUNK;
      var nr := NrSectors(|dev.disk|, sector);
      inflight := inflight + [Blk(d, sector, nr, garbage, {}, false)];
      submitted := submitted + 1;
      devs := devs[d := dev.(dirty := dev.dirty - Chunks(sector, nr), curSector := sector + nr,
                             bulkCompleted := sector + nr >= |dev.disk|)];
      BulkReadStep(old(St()), d, start, garbage, St());
    }

    /** blk_mig_save_bulked_block (block-migration.c:332-368). */
    method SaveBulkedBlock() returns (more: bool)
      requires Good(St())
      modifies this`devs, this`inflight, this`submitted, this`stream
      ensures Good(St()) && Reaches(old(St()), St()) && |devs| == |old(devs)|
      ensures !more ==> AllBulk(devs) && submitted == old(submitted) && devs == old(devs)
      ensures more ==> submitted == old(submitted) + 1
                       || (submitted == old(submitted) && Unfinished(devs) < Unfinished(old(devs)))
    {
      hide Good, Reaches;
      ReachRefl(St());
      var d := 0;
      while d < |devs| && devs[d].bulkCompleted
        invariant d <= |devs| && forall e :: 0 <= e < d ==> devs[e].bulkCompleted
      {
        d := d + 1;
      }
      more := d < |devs|;
      if more {
        SaveDeviceBulk(d);
        assert devs == old(devs)[d := devs[d]];
        UnfinishedUpdate(old(devs), d, devs[d]);
      }
      var report: bool, percent: int := *, *;
      if report {
        ghost var s := St();
        PutRecord(Progress(percent));
        ReachTrans(old(St()), s, St());
      }
    }

    /** A progress report or end-of-section mark. */
    method PutRecord(r: Record)
      requires Good(St()) && !r.DeviceBlock?
      modifies this`stream
      ensures Good(St()) && Reaches(old(St()), St()) && stream == old(stream) + [r]
    {
      OneStep(St(), Mark(r));
      hide Good, Reaches;
      stream := stream + [r];
      assert St() == old(St()).(stream := stream);
    }

    // ----------------------------------------------------------- block_save_live

    /** flush_blks (block-migration.c:463-493): send finished reads in order until the queue
        is empty, the rate limit is hit or a failed read is met; the first n are sent. */
    method FlushBlks() returns (ghost n: nat)
      requires Good(St())
      modifies this`queue, this`stream, this`readDone, this`transferred, this`error
      ensures Good(St()) && Reaches(old(St()), St())
      ensures n <= |old(queue)| && queue == old(queue)[n..] && KnownDevs(St(), old(queue))
      ensures stream == old(stream) + Records(St(), old(queue)[..n])
      ensures readDone == old(readDone) - n
    {
      QueueDevs(St());
      hide *;
      ReachRefl(St());
      n := 0;
      FlushStart(St());
      while queue != []
        invariant Good(St()) && Reaches(old(St()), St()) && n <= |old(queue)| && readDone == old(readDone) - n
        invariant Flushed(old(St()), queue, stream, n)
        decreases |queue|
      {
        var limited: bool := *;
        if limited {
          break;
        }
        ghost var s := St();
        if queue[0].failed {
          SetError();
          ReachTrans(old(St()), s, St());
          break;
        }
        FlushMore(old(St()), s, n);
        SendBlk();
        ReachTrans(old(St()), s, St());
        n := n + 1;
      }
      FlushEnd(old(St()), St(), n);
    }

    method SetError()
      requires Good(St())
      modifies this`error
      ensures Good(St()) && Reaches(old(St()), St()) && error
    {
      OneStep(St(), Fail);
      hide Good, Reaches;
      error := true;
      assert St() == old(St()).(error := true);
    }

    /** blk_send and the bookkeeping after it (block-migration.c:86-100, 479-487). */
    method SendBlk()
      requires Good(St()) && queue != [] && !queue[0].failed
      modifies this`queue, this`stream, this`readDone, this`transferred
      ensures Good(St()) && Reaches(old(St()), St())
      ensures queue == old(queue)[1..] && readDone == old(readDone) - 1 && readDone >= 0
      ensures old(queue[0]).dev < |devs| && stream == old(stream) + [RecordOf(old(St()), old(queue[0]))]
    {
      hide Good, Reaches;
      SendStep(St());
      var b := queue[0];
      stream := stream + [DeviceBlock(b.sector, devs[b.dev].name, b.buf)];
      queue := queue[1..];
      readDone := readDone - 1;
      transferred := transferred + 1;
    }

    /** blk_mig_reset_dirty_cursor (block-migration.c:370-377). */
    method ResetDirtyCursor()
      requires Good(St())
      modifies this`devs
      ensures Good(St()) && Reaches(old(St()), St())
      ensures |devs| == |old(devs)| && forall d :: 0 <= d < |devs| ==> devs[d] == old(devs[d]).(curDirty := 0)
    {
      OneStep(St(), ResetCursors);
      hide Good, Reaches;
      var i := 0;
      while i < |devs|
        invariant |devs| == |old(devs)| && i <= |devs|
        invariant forall d :: 0 <= d < i ==> devs[d] == old(devs[d]).(curDirty := 0)
        invariant forall d :: i <= d < |devs| ==> devs[d] == old(devs[d])
      {
        devs := devs[i := devs[i].(curDirty := 0)];
        i := i + 1;
      }
      assert devs == ResetAll(old(devs));
      assert St() == old(St()).(devs := devs);
    }

    /** The stage-2 loop (block-migration.c:591-606): bulk reads first, then dirty ones,
        until enough data is queued.  It terminates. */
    method FillPipeline(rateLimit: nat)
      requires Good(St()) && (bulkCompleted ==> AllBulk(devs))
      modifies this`devs, this`inflight, this`queue, this`submitted, this`readDone, this`writes, this`stream,
               this`bulkCompleted
      ensures Good(St()) && Reaches(old(St()), St()) && (bulkCompleted ==> AllBulk(devs))
    {
      hide Good, Reaches, AllBulk, Unfinished;
      ReachRefl(St());
      while (submitted + readDone) * BLOCK_SIZE < rateLimit
        invariant Good(St()) && Reaches(old(St()), St()) && (bulkCompleted ==> AllBulk(devs))
        decreases rateLimit - (submitted + readDone) * BLOCK_SIZE, Unfinished(devs), !bulkCompleted
      {
        ghost var s := St();
        if !bulkCompleted {
          var more := SaveBulkedBlock();
          bulkCompleted := !more;
          ReachTrans(old(St()), s, St());
        } else {
          var more := SaveDirtyBlockAsync();
          ReachTrans(old(St()), s, St());
          if !more {
            break;
          }
        }
      }
    }

    /** block_save_live, stage 2 (block-migration.c:580-614, 634). */
    method SaveLivePart(ghost start: State, rateLimit: nat)
      requires Start(start) && Reaches(start, St()) && (bulkCompleted ==> AllBulk(devs))
      modifies this
      ensures Reaches(start, St()) && Reaches(old(St()), St()) && (bulkCompleted ==> AllBulk(devs))
      ensures lost == old(lost)
    {
      ReachGood(start, St());
      hide Good, Reaches;
      ghost var s0 := St();
      SaveLivePartFrom(rateLimit);
      ReachTrans(start, s0, St());
    }

    method SaveLivePartFrom(rateLimit: nat)
      requires Good(St()) && (bulkCompleted ==> AllBulk(devs))
      modifies this
      ensures Good(St()) && Reaches(old(St()), St()) && (bulkCompleted ==> AllBulk(devs))
      ensures lost == old(lost)
    {
      hide Good, Reaches;
      ghost var n := FlushBlks();
      if error {
        return;
      }
      ghost var s1 := St();
      ResetDirtyCursor();
      ghost var s2 := St();
      ReachTrans(old(St()), s1, s2);
      FillPipeline(rateLimit);
      ghost var s3 := St();
      ReachTrans(old(St()), s2, s3);
      n := FlushBlks();
      ghost var s4 := St();
      ReachTrans(old(St()), s3, s4);
      if !error {
        PutRecord(Eos);
        ReachTrans(old(St()), s4, St());
      }
    }

    /** blk_mig_cleanup frees what is left in blk_list (block-migration.c:548-552).  The
        source does so after the stage-3 loop, which does not look at the list. */
    method FreeQueue()
      requires Good(St()) && !guestRunning && inflight == []
      modifies this`queue, this`abandoned, this`lost
      ensures Good(St()) && Reaches(old(St()), St()) && queue == []
      ensures lost == old(lost) + ChunksOf(old(queue))
    {
      OneStep(St(), GiveUp);
      abandoned := abandoned + queue;
      lost := lost + ChunksOf(queue);
      queue := [];
      hide Good, Reaches;
      assert St() == Abandon(old(St()));
    }

    /** block_save_live, stage 3 (block-migration.c:580-587, 616-634), for a migration that
        began in state `start`.  Unless it fails, every disk arrives, apart from chunks
        whose finished read was still queued when the rate limit cut flush_blks short. */
    method SaveLiveEnd(ghost start: State) returns (flushed: bool)
      requires Start(start) && Reaches(start, St())
      requires !guestRunning && writes == [] && inflight == [] && AllBulk(devs)
      modifies this
      ensures Reaches(start, St())
      ensures !error ==> Drained(St()) && ArrivedExceptLost(St())
      ensures !error && flushed && old(lost) == {} ==> Arrived(St())
      ensures lost <= old(lost) + ChunksOf(old(queue))
    {
      ReachGood(start, St());
      hide *;
      flushed := SaveLiveEndFrom(start);
    }

    method SaveLiveEndFrom(ghost start: State) returns (flushed: bool)
      requires Start(start) && Reaches(start, St()) && Good(St())
      requires !guestRunning && writes == [] && inflight == [] && AllBulk(devs)
      modifies this
      ensures Reaches(start, St())
      ensures !error ==> Drained(St()) && ArrivedExceptLost(St())
      ensures !error && flushed && old(lost) == {} ==> Arrived(St())
      ensures lost <= old(lost) + ChunksOf(old(queue))
    {
      hide Good, Reaches, ArrivedExceptLost, Arrived;
      ghost var n := FlushBlks();
      flushed := queue == [];
      ghost var s1 := St();
      ReachTrans(start, old(St()), s1);
      if error {
        return;
      }
      FreeQueue();
      ReachTrans(start, s1, St());
      SendDirty(start);
    }

    /** The stage-3 loop from its first chunk on, and the closing records (block-migration.c:621-634). */
    method SendDirty(ghost start: State)
      requires Start(start) && Reaches(start, St()) && Good(St())
      requires !guestRunning && writes == [] && inflight == [] && queue == [] && AllBulk(devs)
      modifies this
      ensures Reaches(start, St()) && Drained(St()) && ArrivedExceptLost(St()) && lost <= old(lost)
      ensures old(lost) == {} ==> Arrived(St())
    {
      hide Good, Reaches, ArrivedExceptLost, Arrived;
      ghost var s2 := St();
      ResetDirtyCursor();
      ghost var s3 := St();
      ReachTrans(start, s2, s3);
      DrainDirty();
      ghost var s4 := St();
      ReachTrans(start, s3, s4);
      PutRecord(Progress(100));
      ghost var s5 := St();
      ReachTrans(start, s4, s5);
      PutRecord(Eos);
      ReachTrans(start, s5, St());
      ReachConverges(start, St());
    }
  }
}
