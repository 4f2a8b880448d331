/** Live block migration (block-migration.c) as a step system.

    A source machine copies its disks to a destination while the guest keeps
    writing.  Three parties move independently and every interleaving of their
    steps is a run:

    - the guest and the AIO threads: a write is submitted, its sectors land on
      the disk one at a time in any order, and its completion callback marks the
      touched chunks dirty (block_complete_cb);
    - the AIO threads serving migration reads: sectors of a read in flight are
      sampled at any moment, possibly several times, before it completes;
    - the migration code: bulk reads, asynchronous dirty reads, sending finished
      reads in FIFO order, and the synchronous reads of stage 3.

    The destination is whatever replaying the emitted stream yields. */
module BlockMigrationProtocol {

  // BDRV_SECTORS_PER_DIRTY_CHUNK (block.h:243)
  const CHUNK: nat := 2048

  type Sector = seq<bv8>
  type Disk = seq<Sector>
  type Disks = map<string, Disk>

  /** One BlkMigDevState together with the block device it migrates.
      total_sectors is |disk|; `dirty` and `aio` are the two chunk bitmaps. */
  datatype Dev = Dev(
    name: string, sharedBase: bool, disk: Disk, alloc: set<nat>,
    dirty: set<nat>, aio: set<nat>,
    curSector: nat, curDirty: nat, bulkCompleted: bool)

  /** A BlkMigBlock: a read of one chunk.  `buf` always has CHUNK sectors, of
      which only the first `nr` are read; `sampled` says which were so far. */
  datatype Blk = Blk(dev: nat, sector: nat, nr: nat, buf: seq<Sector>, sampled: set<nat>, failed: bool)

  /** A guest write wrapped by block_complete_cb and not yet completed. */
  datatype GuestWrite = GuestWrite(dev: nat, sector: nat, data: seq<Sector>)

  datatype Record =
    | DeviceBlock(sector: nat, name: string, buf: seq<Sector>)
    | Progress(percent: int)
    | Eos

  datatype State = State(
    devs: seq<Dev>,
    writes: seq<GuestWrite>,        // guest writes in flight
    inflight: seq<Blk>,             // reads in flight, in submission order
    queue: seq<Blk>,                // blk_list: finished reads still to be sent
    abandoned: seq<Blk>,            // part of blk_list that stage 3 will free unsent
    lost: set<(nat, nat)>,          // (device, chunk) whose newest copy was abandoned
    stream: seq<Record>,
    dst0: Disks,                    // destination before migration
    submitted: int, readDone: int, transferred: int,
    guestRunning: bool, error: bool)

  // ---------------------------------------------------------------- geometry

  function NrSectors(total: nat, sector: nat): nat
    requires sector <= total
  {
    if total - sector < CHUNK then total - sector else CHUNK
  }

  predicate Within(lo: nat, x: nat, hi: nat) { lo <= x < hi }

  /** The numbers lo, lo + 1, ..., hi - 1. */
  function Span(lo: nat, hi: nat): set<nat> {
    set x: nat | x < hi && Within(lo, x, hi)
  }

  /** Chunks touched by a request, as set_dirty_bitmap computes them. */
  function Chunks(sector: nat, nb: nat): set<nat>
    requires nb > 0
  {
    Span(sector / CHUNK, (sector + nb - 1) / CHUNK + 1)
  }

  predicate BlkCovers(b: Blk, d: nat, x: nat) {
    b.dev == d && b.sector <= x < b.sector + b.nr
  }

  predicate WriteCovers(w: GuestWrite, d: nat, x: nat) {
    w.dev == d && w.sector <= x < w.sector + |w.data|
  }

  predicate UnderWrite(ws: seq<GuestWrite>, d: nat, x: nat) {
    exists i :: 0 <= i < |ws| && WriteCovers(ws[i], d, x)
  }

  // ------------------------------------------------------------- destination

  /** What the destination holds, or Refused once block_load returned an error. */
  datatype Destination = Holds(disks: Disks) | Refused

  /** One turn of the loop in block_load (block-migration.c:650-710). */
  function Load(dst: Destination, r: Record): Destination {
    if dst.Refused? || !r.DeviceBlock? then dst
    else if r.name !in dst.disks || |dst.disks[r.name]| == 0 then Refused
    else
      var disk := dst.disks[r.name];
      if r.sector > |disk| || |r.buf| != CHUNK then Refused
      else Holds(dst.disks[r.name := Overwrite(disk, r.sector, r.buf, NrSectors(|disk|, r.sector))])
  }

  function Overwrite(disk: Disk, sector: nat, buf: seq<Sector>, nr: nat): (r: Disk)
    requires nr <= |buf|
    ensures |r| == |disk|
    ensures forall x {:trigger r[x]} :: 0 <= x < |disk| ==>
      r[x] == if sector <= x < sector + nr then buf[x - sector] else disk[x]
  {
    seq(|disk|, x requires 0 <= x < |disk| => if sector <= x < sector + nr then buf[x - sector] else disk[x])
  }

  /** The destination after loading the whole stream. */
  function Replay(dst0: Disks, stream: seq<Record>): Destination {
    if stream == [] then Holds(dst0)
    else Load(Replay(dst0, stream[..|stream| - 1]), stream[|stream| - 1])
  }

  function Dst(s: State): Destination { Replay(s.dst0, s.stream) }

  // ------------------------------------------------------------------- steps

  datatype Action =
    // guest and AIO threads
    | SubmitWrite(w: GuestWrite)
    | Land(i: nat, k: nat, cow: set<nat>)
    | CompleteWrite(i: nat)
    | SyncWrite(w: GuestWrite)
    | StopGuest
    | Sample(j: nat, ks: set<nat>)
    | CompleteRead(j: nat, ok: bool)
    // migration code
    | Bulk(d: nat, start: nat, garbage: seq<Sector>)
    | ResetCursors
    | DirtyAdvance(d: nat)
    | DirtyRead(d: nat, garbage: seq<Sector>)
    | Send
    | Fail
    | Mark(r: Record)
    | GiveUp
    | DirtySync(d: nat, garbage: seq<Sector>)

  predicate ValidWrite(s: State, w: GuestWrite) {
    w.dev < |s.devs| && |w.data| > 0 && w.sector + |w.data| <= |s.devs[w.dev].disk|
  }

  /** Sectors [from, to) are all unallocated, so shared-base migration skips them. */
  predicate Unallocated(dev: Dev, from: nat, to: nat) {
    dev.sharedBase && forall x: nat :: from <= x < to ==> x !in dev.alloc
  }

  predicate Enabled(s: State, a: Action) {
    match a
    case SubmitWrite(w) => s.guestRunning && ValidWrite(s, w)
    case Land(i, k, cow) => i < |s.writes| && k < |s.writes[i].data|
    case CompleteWrite(i) => i < |s.writes|
    case SyncWrite(w) => s.guestRunning && ValidWrite(s, w)
    case StopGuest => s.guestRunning
    case Sample(j, ks) => j < |s.inflight| && forall k :: k in ks ==> k < s.inflight[j].nr
    case CompleteRead(j, ok) =>
      && j < |s.inflight|
      && (ok ==> forall k: nat :: k < s.inflight[j].nr ==> k in s.inflight[j].sampled)
      // reads of one chunk complete in submission order
      && (forall i :: 0 <= i < j
                      ==> s.inflight[i].dev != s.inflight[j].dev || s.inflight[i].sector != s.inflight[j].sector)
    case Bulk(d, start, garbage) =>
      && d < |s.devs| && !s.devs[d].bulkCompleted && |garbage| == CHUNK
      && s.devs[d].curSector <= start <= |s.devs[d].disk|
      && (start == s.devs[d].curSector || Unallocated(s.devs[d], s.devs[d].curSector, start))
    case ResetCursors => true
    case DirtyAdvance(d) =>
      d < |s.devs| && s.devs[d].curDirty < |s.devs[d].disk| && s.devs[d].curDirty / CHUNK !in s.devs[d].dirty
    case DirtyRead(d, garbage) =>
      && d < |s.devs| && s.devs[d].curDirty < |s.devs[d].disk| && |garbage| == CHUNK
      && s.devs[d].curDirty / CHUNK in s.devs[d].dirty && s.devs[d].curDirty / CHUNK !in s.devs[d].aio
      && s.devs[d].bulkCompleted
    case Send => s.queue != [] && !s.queue[0].failed
    case Fail => true
    case Mark(r) => !r.DeviceBlock?
    case GiveUp => !s.guestRunning && s.inflight == []
    case DirtySync(d, garbage) =>
      && !s.guestRunning && s.writes == [] && s.inflight == [] && s.queue == []
      && d < |s.devs| && s.devs[d].curDirty < |s.devs[d].disk| && |garbage| == CHUNK
      && s.devs[d].curDirty / CHUNK in s.devs[d].dirty
      && s.devs[d].bulkCompleted
  }

  function MarkDirty(dev: Dev, w: GuestWrite): Dev
    requires |w.data| > 0
  {
    dev.(dirty := dev.dirty + Chunks(w.sector, |w.data|))
  }

  function NewBlk(s: State, d: nat, sector: nat, garbage: seq<Sector>): Blk
    requires d < |s.devs| && sector <= |s.devs[d].disk|
  {
    Blk(d, sector, NrSectors(|s.devs[d].disk|, sector), garbage, {}, false)
  }

  /** blk_send: the whole buffer goes out, including the unread tail. */
  function RecordOf(s: State, b: Blk): Record
    requires b.dev < |s.devs|
  {
    DeviceBlock(b.sector, s.devs[b.dev].name, b.buf)
  }

  function LandSector(s: State, i: nat, k: nat, cow: set<nat>): State
    requires Enabled(s, Land(i, k, cow)) && ValidWrite(s, s.writes[i])
  {
    var w := s.writes[i];
    var dev := s.devs[w.dev];
    var x := w.sector + k;
    s.(devs := s.devs[w.dev := dev.(disk := dev.disk[x := w.data[k]], alloc := dev.alloc + {x} + cow)])
  }

  function FinishWrite(s: State, i: nat): State
    requires i < |s.writes| && ValidWrite(s, s.writes[i])
  {
    var w := s.writes[i];
    s.(devs := s.devs[w.dev := MarkDirty(s.devs[w.dev], w)], writes := s.writes[..i] + s.writes[i + 1..])
  }

  function WriteNow(s: State, w: GuestWrite): State
    requires ValidWrite(s, w)
  {
    var dev := MarkDirty(s.devs[w.dev], w);
    s.(devs := s.devs[w.dev := dev.(disk := Overwrite(dev.disk, w.sector, w.data, |w.data|),
                                    alloc := dev.alloc + Span(w.sector, w.sector + |w.data|))])
  }

  function SampleBlk(s: State, b: Blk, ks: set<nat>): Blk
    requires b.dev < |s.devs|
  {
    var disk := s.devs[b.dev].disk;
    b.(buf := seq(|b.buf|, k requires 0 <= k < |b.buf| =>
                    if k in ks && b.sector + k < |disk| then disk[b.sector + k] else b.buf[k]),
       sampled := b.sampled + ks)
  }

  /** blk_mig_read_cb (block-migration.c:186-203). */
  function FinishRead(s: State, j: nat, ok: bool): State
    requires j < |s.inflight| && FormedBlk(s, s.inflight[j])
  {
    var b := s.inflight[j];
    var dev := s.devs[b.dev];
    s.(inflight := s.inflight[..j] + s.inflight[j + 1..],
       queue := s.queue + [b.(failed := !ok)],
       devs := s.devs[b.dev := dev.(aio := dev.aio - Chunks(b.sector, b.nr))],
       submitted := s.submitted - 1, readDone := s.readDone + 1)
  }

  /** mig_save_device_bulk after the shared-base skip reached `start`
      (block-migration.c:222-262). */
  function BulkFrom(s: State, d: nat, start: nat, garbage: seq<Sector>): State
    requires Enabled(s, Bulk(d, start, garbage))
  {
    var dev := s.devs[d];
    if start >= |dev.disk| then
      s.(devs := s.devs[d := dev.(curSector := |dev.disk|, bulkCompleted := true)])
    else
      var sector := start - start % CHUNK;
      var b := NewBlk(s, d, sector, garbage);
      s.(devs := s.devs[d := dev.(dirty := dev.dirty - Chunks(sector, b.nr), curSector := sector + b.nr,
                                  bulkCompleted := sector + b.nr >= |dev.disk|)],
         inflight := s.inflight + [b], submitted := s.submitted + 1)
  }

  function AsyncRead(s: State, d: nat, garbage: seq<Sector>): State
    requires d < |s.devs| && s.devs[d].curDirty < |s.devs[d].disk|
  {
    var dev := s.devs[d];
    var b := NewBlk(s, d, dev.curDirty, garbage);
    s.(devs := s.devs[d := dev.(dirty := dev.dirty - Chunks(b.sector, b.nr), aio := dev.aio + Chunks(b.sector, b.nr))],
       inflight := s.inflight + [b], submitted := s.submitted + 1)
  }

  /** The buffer bdrv_read fills: disk contents, then the malloc'ed tail. */
  function SyncBuf(disk: Disk, sector: nat, garbage: seq<Sector>): (buf: seq<Sector>)
    requires sector <= |disk| && |garbage| == CHUNK
    ensures |buf| == CHUNK
    ensures forall k :: 0 <= k < NrSectors(|disk|, sector) ==> buf[k] == disk[sector + k]
  {
    disk[sector..sector + NrSectors(|disk|, sector)] + garbage[NrSectors(|disk|, sector)..]
  }

  function SyncRead(s: State, d: nat, garbage: seq<Sector>): State
    requires d < |s.devs| && s.devs[d].curDirty < |s.devs[d].disk| && |garbage| == CHUNK
  {
    var dev := s.devs[d];
    var nr := NrSectors(|dev.disk|, dev.curDirty);
    s.(devs := s.devs[d := dev.(dirty := dev.dirty - Chunks(dev.curDirty, nr))],
       stream := s.stream + [DeviceBlock(dev.curDirty, dev.name, SyncBuf(dev.disk, dev.curDirty, garbage))],
       lost := s.lost - {(d, dev.curDirty / CHUNK)})
  }

  function ResetAll(devs: seq<Dev>): (r: seq<Dev>)
    ensures |r| == |devs| && forall d :: 0 <= d < |devs| ==> r[d] == devs[d].(curDirty := 0)
  {
    seq(|devs|, d requires 0 <= d < |devs| => devs[d].(curDirty := 0))
  }

  function SendHead(s: State): State
    requires s.queue != [] && s.queue[0].dev < |s.devs|
  {
    s.(stream := s.stream + [RecordOf(s, s.queue[0])], queue := s.queue[1..],
       readDone := s.readDone - 1, transferred := s.transferred + 1)
  }

  function ChunksOf(bs: seq<Blk>): set<(nat, nat)> {
    set i | 0 <= i < |bs| :: (bs[i].dev, bs[i].sector / CHUNK)
  }

  function Abandon(s: State): State {
    s.(abandoned := s.abandoned + s.queue, queue := [], lost := s.lost + ChunksOf(s.queue))
  }

  /** Requests name existing devices and every buffer is one chunk. */
  predicate Formed(s: State) {
    && (forall i :: 0 <= i < |s.writes| ==> ValidWrite(s, s.writes[i]))
    && (forall i :: 0 <= i < |s.inflight| ==> FormedBlk(s, s.inflight[i]))
    && (forall i :: 0 <= i < |s.queue| ==> FormedBlk(s, s.queue[i]))
    && (forall d :: 0 <= d < |s.devs| ==> FormedDev(s.devs[d]))
  }

  predicate FormedBlk(s: State, b: Blk) {
    && b.dev < |s.devs| && b.sector < |s.devs[b.dev].disk| && b.sector % CHUNK == 0
    && b.nr == NrSectors(|s.devs[b.dev].disk|, b.sector) && |b.buf| == CHUNK
  }

  predicate FormedDev(dev: Dev) {
    && dev.curDirty % CHUNK == 0
    && (dev.curSector % CHUNK == 0 || dev.curSector == |dev.disk|) && dev.curSector <= |dev.disk|
    && (dev.bulkCompleted ==> dev.curSector == |dev.disk|)
  }

  function Apply(s: State, a: Action): State
    requires Formed(s) && Enabled(s, a)
  {
    match a
    case SubmitWrite(w) => s.(writes := s.writes + [w])
    case Land(i, k, cow) => LandSector(s, i, k, cow)
    case CompleteWrite(i) => FinishWrite(s, i)
    case SyncWrite(w) => WriteNow(s, w)
    case StopGuest => s.(guestRunning := false)
    case Sample(j, ks) => s.(inflight := s.inflight[j := SampleBlk(s, s.inflight[j], ks)])
    case CompleteRead(j, ok) => FinishRead(s, j, ok)
    case Bulk(d, start, garbage) => BulkFrom(s, d, start, garbage)
    case ResetCursors => s.(devs := ResetAll(s.devs))
    case DirtyAdvance(d) => s.(devs := s.devs[d := s.devs[d].(curDirty := s.devs[d].curDirty + CHUNK)])
    case DirtyRead(d, garbage) => AsyncRead(s, d, garbage)
    case Send => SendHead(s)
    case Fail => s.(error := true)
    case Mark(r) => s.(stream := s.stream + [r])
    case GiveUp => Abandon(s)
    case DirtySync(d, garbage) => SyncRead(s, d, garbage)
  }
}
