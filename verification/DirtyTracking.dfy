/** The dirty bitmap of a block device and its cached count (block.c:937-991, 2171-2236, 2842-2885). */
module DirtyTracking {
  import opened Common
  import opened Bitops
  import Bitmap

  const SECTORS_PER_CHUNK: nat := 2048   // BDRV_SECTORS_PER_DIRTY_CHUNK

  // ------------------------------------------------------------------ counting

  /** Set bits below n. */
  function CountBelow(a: seq<Word>, n: nat): nat
    requires n <= |a| * BITS_PER_LONG
  {
    if n == 0 then 0 else CountBelow(a, n - 1) + if BitAt(a, n - 1) then 1 else 0
  }

  function Count(a: seq<Word>): nat { CountBelow(a, |a| * BITS_PER_LONG) }

  /** Making one bit v moves the count by one if it was not v, and not at all otherwise. */
  lemma {:induction false} CountFlip(a: seq<Word>, b: seq<Word>, v: bool, k: nat, n: nat)
    requires k < |a| * BITS_PER_LONG && n <= |a| * BITS_PER_LONG && Bitmap.RangeIs(a, b, v, k, k + 1)
    ensures CountBelow(b, n) == CountBelow(a, n)
              + if k >= n || BitAt(a, k) == v then 0 else if v then 1 else -1
  {
    if n > 0 {
      CountFlip(a, b, v, k, n - 1);
    }
  }

  lemma {:induction false} CountZero(a: seq<Word>, n: nat)
    requires n <= |a| * BITS_PER_LONG
    ensures CountBelow(a, n) == 0 <==> NoneIs(a, true, 0, n)
  {
    if n > 0 {
      CountZero(a, n - 1);
      assert NoneIs(a, true, 0, n) <==> NoneIs(a, true, 0, n - 1) && !BitAt(a, n - 1);
    }
  }

  /** Dirtying chunks up to k is dirtying those up to k and then chunk k. */
  lemma {:induction false} RangeGrows(a: seq<Word>, b: seq<Word>, c: seq<Word>, v: bool, lo: nat, k: nat)
    requires lo <= k && Bitmap.RangeIs(a, b, v, lo, k) && Bitmap.RangeIs(b, c, v, k, k + 1)
    ensures Bitmap.RangeIs(a, c, v, lo, k + 1)
  {
    forall n | 0 <= n < |c| * BITS_PER_LONG
      ensures BitAt(c, n) == if lo <= n < k + 1 then v else BitAt(a, n)
    {
      assert BitAt(b, n) == if lo <= n < k then v else BitAt(a, n);
    }
  }

  /** First and last chunk of a range; C's division takes -1 / 2048 to 0. */
  function FirstChunk(sector: nat): nat { sector / SECTORS_PER_CHUNK }
  function LastChunk(sector: nat, nb: nat): nat {
    if sector + nb == 0 then 0 else (sector + nb - 1) / SECTORS_PER_CHUNK
  }

  lemma {:induction false} ChunkInRange(sector: nat, nb: nat, s: nat)
    requires sector <= s < sector + nb
    ensures FirstChunk(sector) <= s / SECTORS_PER_CHUNK <= LastChunk(sector, nb)
  {
  }

  /** A write in flight and whether its completion goes through block_complete_cb. */
  datatype Aio = Aio(sector: nat, nb: nat, tracked: bool)

  class BlockDriverState {
    const totalSectors: nat
    var inserted: bool
    var readOnly: bool
    var dirtyBitmap: array?<Word>
    var dirtyCount: int
    ghost var changed: set<nat>   // sectors written since their chunk was last reset, while tracking

    constructor (total: nat)
      ensures totalSectors == total && dirtyBitmap == null && Valid() && Counted() && Sound() && inserted && !readOnly
    {
      totalSectors, dirtyBitmap, dirtyCount, changed := total, null, 0, {};
      inserted, readOnly := true, false;
    }

    ghost predicate Valid()
      reads this
    {
      dirtyBitmap != null ==> totalSectors <= dirtyBitmap.Length * BITS_PER_LONG * SECTORS_PER_CHUNK
    }

    /** The cached count is the number of set bits. */
    ghost predicate Counted()
      reads this, dirtyBitmap
    {
      dirtyCount == if dirtyBitmap == null then 0 else Count(dirtyBitmap[..])
    }

    /** Every changed sector lies in a dirty chunk. */
    ghost predicate Sound()
      reads this, dirtyBitmap
      requires Valid()
    {
      dirtyBitmap != null ==> forall s :: s in changed ==> s < totalSectors && IsDirty(s)
    }

    ghost predicate IsDirty(s: nat)
      reads this, dirtyBitmap
      requires Valid() && dirtyBitmap != null && s < totalSectors
    {
      BitAt(dirtyBitmap[..], s / SECTORS_PER_CHUNK)
    }

    /** One turn of the loop in set_dirty_bitmap. */
    method SetChunk(start: nat, dirty: bool)
      requires dirtyBitmap != null && start < dirtyBitmap.Length * BITS_PER_LONG
      modifies this`dirtyCount, dirtyBitmap
      ensures Bitmap.RangeIs(old(dirtyBitmap[..]), dirtyBitmap[..], dirty, start, start + 1)
      ensures dirtyCount - old(dirtyCount) == Count(dirtyBitmap[..]) - old(Count(dirtyBitmap[..]))
    {
      var idx, bit := start / BITS_PER_LONG, start % BITS_PER_LONG;
      var val := dirtyBitmap[idx];
      ghost var was := dirtyBitmap[..];
      TestMask(val, bit);
      if dirty {
        if And(val, Bit(bit)) == Zero() {
          dirtyCount := dirtyCount + 1;
          val := Or(val, Bit(bit));
        }
      } else {
        if And(val, Bit(bit)) != Zero() {
          dirtyCount := dirtyCount - 1;
          val := And(val, Not(Bit(bit)));
        }
      }
      dirtyBitmap[idx] := val;
      assert dirtyBitmap[..] == was[idx := val];
      Bitmap.ExtendRange(was, was, idx, Bit(bit), val, dirty, start, start, start + 1);
      CountFlip(was, dirtyBitmap[..], dirty, start, |was| * BITS_PER_LONG);
    }

    /** set_dirty_bitmap: exactly the chunks of the range change, and the count moves with the bits. */
    method SetDirtyBitmap(sector: nat, nb: nat, dirty: bool)
      requires dirtyBitmap != null && LastChunk(sector, nb) < dirtyBitmap.Length * BITS_PER_LONG
      modifies this`dirtyCount, dirtyBitmap
      ensures Bitmap.RangeIs(old(dirtyBitmap[..]), dirtyBitmap[..], dirty, FirstChunk(sector),
                             LastChunk(sector, nb) + 1)
      ensures dirtyCount - old(dirtyCount) == Count(dirtyBitmap[..]) - old(Count(dirtyBitmap[..]))
    {
      var start, end := FirstChunk(sector), LastChunk(sector, nb);
      while start <= end
        invariant FirstChunk(sector) <= start && (start <= end + 1 || start == FirstChunk(sector))
        invariant Bitmap.RangeIs(old(dirtyBitmap[..]), dirtyBitmap[..], dirty, FirstChunk(sector), start)
        invariant dirtyCount - old(dirtyCount) == Count(dirtyBitmap[..]) - old(Count(dirtyBitmap[..]))
      {
        hide Bitmap.RangeIs, Count;
        ghost var was := dirtyBitmap[..];
        SetChunk(start, dirty);
        RangeGrows(old(dirtyBitmap[..]), was, dirtyBitmap[..], dirty, FirstChunk(sector), start);
        start := start + 1;
      }
    }

    /** bdrv_set_dirty_tracking. Enabling twice zeroes the count but keeps the bits, so the count is
        right afterwards exactly when tracking was off, is now off, or no bit was set. */
    method SetDirtyTracking(enable: bool)
      requires Valid()
      modifies this`dirtyCount, this`dirtyBitmap, this`changed
      ensures Valid() && dirtyCount == 0 && (enable <==> dirtyBitmap != null)
      ensures enable && old(dirtyBitmap) != null ==> dirtyBitmap == old(dirtyBitmap) && changed == old(changed)
      ensures enable && old(dirtyBitmap) == null
              ==> fresh(dirtyBitmap) && changed == {}
                  && NoneIs(dirtyBitmap[..], true, 0, dirtyBitmap.Length * BITS_PER_LONG)
      ensures Counted() <==> !enable || old(dirtyBitmap) == null || Count(old(dirtyBitmap[..])) == 0
      ensures old(Sound()) ==> Sound()
    {
      dirtyCount := 0;
      if enable {
        if dirtyBitmap == null {
          var chunks := (totalSectors + SECTORS_PER_CHUNK - 1) / SECTORS_PER_CHUNK;
          var words := (chunks + BITS_PER_LONG - 1) / BITS_PER_LONG;
          dirtyBitmap := new Word[words](_ => Zero());
          changed := {};
          assert forall i :: 0 <= i < words ==> dirtyBitmap[..][i] == Zero();
          CountZero(dirtyBitmap[..], words * BITS_PER_LONG);
        }
      } else if dirtyBitmap != null {
        dirtyBitmap := null;
      }
    }

    /** bdrv_get_dirty */
    method GetDirty(sector: nat) returns (r: bool)
      requires Valid()
      ensures r <==> dirtyBitmap != null && sector < totalSectors && IsDirty(sector)
    {
      r := false;
      if dirtyBitmap != null && sector < totalSectors {
        var chunk := sector / SECTORS_PER_CHUNK;
        TestMask(dirtyBitmap[chunk / BITS_PER_LONG], chunk % BITS_PER_LONG);
        r := And(dirtyBitmap[chunk / BITS_PER_LONG], Bit(chunk % BITS_PER_LONG)) != Zero();
      }
    }

    /** Marking a range dirty: everything changed in it, and before, is in a dirty chunk. */
    method Mark(sector: nat, nb: nat)
      requires Valid() && dirtyBitmap != null && sector + nb <= totalSectors && totalSectors > 0
      modifies this`dirtyCount, this`changed, dirtyBitmap
      ensures Valid() && changed == old(changed) + Range(sector, nb)
      ensures (old(Counted()) <==> Counted()) && (old(Sound()) ==> Sound())
      ensures Bitmap.RangeIs(old(dirtyBitmap[..]), dirtyBitmap[..], true, FirstChunk(sector), LastChunk(sector, nb) + 1)
    {
      ghost var was, before := dirtyBitmap[..], changed;
      SetDirtyBitmap(sector, nb, true);
      changed := changed + Range(sector, nb);
      forall s | s in changed && old(Sound())
        ensures s < totalSectors && BitAt(dirtyBitmap[..], s / SECTORS_PER_CHUNK)
      {
        if s in Range(sector, nb) {
          ChunkInRange(sector, nb, s);
        } else {
          assert s in before && BitAt(was, s / SECTORS_PER_CHUNK);
        }
      }
    }

    /** bdrv_reset_dirty: exactly the chunks of the range become clean. */
    method ResetDirty(sector: nat, nb: nat)
      requires Valid() && dirtyBitmap != null && LastChunk(sector, nb) < dirtyBitmap.Length * BITS_PER_LONG
      modifies this`dirtyCount, this`changed, dirtyBitmap
      ensures Valid() && (old(Counted()) <==> Counted()) && (old(Sound()) ==> Sound())
      ensures changed == set s | s in old(changed)
              && !(FirstChunk(sector) <= s / SECTORS_PER_CHUNK <= LastChunk(sector, nb))
      ensures Bitmap.RangeIs(old(dirtyBitmap[..]), dirtyBitmap[..], false, FirstChunk(sector),
                             LastChunk(sector, nb) + 1)
    {
      ghost var was, before := dirtyBitmap[..], changed;
      SetDirtyBitmap(sector, nb, false);
      changed := set s | s in changed && !(FirstChunk(sector) <= s / SECTORS_PER_CHUNK <= LastChunk(sector, nb));
      forall s | s in changed && old(Sound())
        ensures s < totalSectors && BitAt(dirtyBitmap[..], s / SECTORS_PER_CHUNK)
      {
        assert s in before && BitAt(was, s / SECTORS_PER_CHUNK);
      }
    }

    predicate Fits(sector: int, nb: nat) { 0 <= sector && sector + nb <= totalSectors }

    /** bdrv_write: a request that is let through marks its range before the driver runs, whatever
        the driver then answers; one that is refused changes nothing. */
    method Write(sector: int, nb: nat, driver: int) returns (r: int)
      requires Valid() && (dirtyBitmap != null ==> nb > 0 || totalSectors > 0)
      modifies this`dirtyCount, this`changed, dirtyBitmap
      ensures Valid() && (old(Counted()) <==> Counted()) && (old(Sound()) ==> Sound())
      ensures r == if !inserted then -ENOMEDIUM else if readOnly then -EACCES
                   else if !Fits(sector, nb) then -EIO else driver
      ensures if dirtyBitmap != null && inserted && !readOnly && Fits(sector, nb)
              then changed == old(changed) + Range(sector, nb)
                   && Bitmap.RangeIs(old(dirtyBitmap[..]), dirtyBitmap[..], true, FirstChunk(sector),
                                     LastChunk(sector, nb) + 1)
              else changed == old(changed) && dirtyCount == old(dirtyCount)
                   && (dirtyBitmap != null ==> dirtyBitmap[..] == old(dirtyBitmap[..]))
    {
      if !inserted {
        return -ENOMEDIUM;
      }
      if readOnly {
        return -EACCES;
      }
      if sector < 0 || sector > totalSectors || totalSectors - sector < nb {
        return -EIO;
      }
      if dirtyBitmap != null {
        Mark(sector, nb);
      }
      r := driver;
    }

    /** bdrv_aio_writev, when the driver takes the request: only under tracking does the completion
        go through block_complete_cb. */
    method AioWritev(sector: int, nb: nat) returns (aio: seq<Aio>)
      ensures aio == if inserted && !readOnly && Fits(sector, nb) then [Aio(sector, nb, dirtyBitmap != null)] else []
    {
      if !inserted || readOnly || sector < 0 || sector > totalSectors || totalSectors - sector < nb {
        return [];
      }
      aio := [Aio(sector, nb, dirtyBitmap != null)];
    }

    /** A write completes, having changed its range. A request submitted before tracking began is not
        marked, so the bitmap stays sound exactly when the request is tracked, tracking is off, or the
        chunks it changed happen to be dirty. */
    method Complete(aio: Aio)
      requires Valid() && aio.sector + aio.nb <= totalSectors && totalSectors > 0
      modifies this`dirtyCount, this`changed, dirtyBitmap
      ensures Valid() && (old(Counted()) <==> Counted())
      ensures dirtyBitmap != null ==> changed == old(changed) + Range(aio.sector, aio.nb)
      ensures !aio.tracked && dirtyBitmap != null ==> dirtyBitmap[..] == old(dirtyBitmap[..])
      ensures old(Sound()) ==> (Sound() <==> aio.tracked || dirtyBitmap == null
                                             || forall s :: s in Range(aio.sector, aio.nb) ==> old(IsDirty(s)))
    {
      if aio.tracked {
        if dirtyBitmap != null {
          Mark(aio.sector, aio.nb);
        }
      } else if dirtyBitmap != null {
        changed := changed + Range(aio.sector, aio.nb);
      }
    }
  }

  /** The sectors of a request. */
  function Range(sector: nat, nb: nat): (r: set<nat>)
    ensures forall s :: s in r <==> sector <= s < sector + nb
  {
    if nb == 0 then {} else Range(sector, nb - 1) + {sector + nb - 1}
  }

  // ------------------------------------------------------------------ whole runs

  datatype Event =
    | Enable
    | Disable
    | WriteSync(sector: int, nb: nat, driver: int)
    | Submit(sector: int, nb: nat)
    | Land(k: nat)
    | Reset(from: nat, nb: nat)

  /** Whether tracking is on after the first n events: the last switch was to on. */
  predicate TrackingAt(events: seq<Event>, n: nat)
    requires n <= |events|
  {
    n > 0 && (events[n - 1].Enable? || (!events[n - 1].Disable? && TrackingAt(events, n - 1)))
  }

  /** Nothing from event i up to event n switches tracking off. */
  predicate StaysOn(events: seq<Event>, i: nat, n: nat)
    requires n <= |events|
  {
    forall k :: i <= k < n ==> !events[k].Disable?
  }

  /** Among the first n events, tracking was enabled while it was on and has been on ever since. */
  ghost predicate Reenabled(events: seq<Event>, n: nat)
    requires n <= |events|
  {
    exists i, j :: 0 <= i < j < n && events[i].Enable? && events[j].Enable? && StaysOn(events, i, n)
  }

  /** Among the first n events, a write submitted while tracking was off landed after it was enabled,
      and tracking has been on ever since. */
  ghost predicate LandedUntracked(events: seq<Event>, n: nat)
    requires n <= |events|
  {
    exists i, j, k :: 0 <= i < j < k < n && events[i].Submit? && !TrackingAt(events, i)
                      && events[j].Enable? && StaysOn(events, j, n) && events[k].Land?
  }

  /** Any sequence of events leaves tracking on or off as its last switch says. The count is the number
      of dirty chunks unless tracking was enabled while it was on, and every changed sector is in a dirty
      chunk unless a write submitted without tracking landed, both since tracking was last off.
      (Resetting chunks without tracking is an error of the caller; it is skipped.) */
  method Run(total: nat, events: seq<Event>) returns (dev: BlockDriverState)
    requires total > 0
    ensures dev.Valid() && (dev.dirtyBitmap != null <==> TrackingAt(events, |events|))
    ensures !Reenabled(events, |events|) ==> dev.Counted()
    ensures !LandedUntracked(events, |events|) ==> dev.Sound()
  {
    dev := new BlockDriverState(total);
    var inFlight: seq<Aio> := [];
    ghost var submits: seq<nat>, on := [], 0;
    for i := 0 to |events|
      invariant fresh(dev) && (dev.dirtyBitmap != null ==> fresh(dev.dirtyBitmap)) && dev.totalSectors == total
      invariant History(events, i, dev.dirtyBitmap != null, on, inFlight, submits, total)
      invariant dev.Valid() && (dev.Counted() || Reenabled(events, i)) && (dev.Sound() || LandedUntracked(events, i))
    {
      hide Reenabled, LandedUntracked, History, Count;
      HistoryStep(events, i, dev.dirtyBitmap != null, on, inFlight, submits, total);
      match events[i]
      case Enable =>
        on := if dev.dirtyBitmap == null then i else on;
        dev.SetDirtyTracking(true);
      case Disable =>
        dev.SetDirtyTracking(false);
      case WriteSync(sector, nb, driver) =>
        var r := dev.Write(sector, nb, driver);
      case Submit(sector, nb) =>
        var aio := dev.AioWritev(sector, nb);
        SubmitStep(events, i, dev.dirtyBitmap != null, on, inFlight, submits, total, aio);
        inFlight := inFlight + aio;
        submits := submits + if aio == [] then [] else [i];
      case Land(k) =>
        if k < |inFlight| {
          LandStep(events, i, dev.dirtyBitmap != null, on, inFlight, submits, total, k);
          dev.Complete(inFlight[k]);
          inFlight := inFlight[..k] + inFlight[k + 1..];
          submits := submits[..k] + submits[k + 1..];
        }
      case Reset(sector, nb) =>
        if dev.dirtyBitmap != null && LastChunk(sector, nb) < dev.dirtyBitmap.Length * BITS_PER_LONG {
          dev.ResetDirty(sector, nb);
        }
    }
  }

  /** What is known of the first n events: whether tracking is on, and then that event `on` enabled it
      and it stayed on; and for each write in flight, that it fits, when it was submitted, and that it
      is tracked exactly when tracking was on then, which under tracking means at or after `on`. */
  ghost predicate History(events: seq<Event>, n: nat, tracking: bool, on: nat, inFlight: seq<Aio>,
                          submits: seq<nat>, total: nat)
  {
    && n <= |events| && (tracking <==> TrackingAt(events, n))
    && (tracking ==> on < n && events[on].Enable? && StaysOn(events, on, n))
    && |submits| == |inFlight|
    && forall q :: 0 <= q < |inFlight| ==>
         && inFlight[q].sector + inFlight[q].nb <= total
         && submits[q] < n && events[submits[q]].Submit? && (inFlight[q].tracked <==> TrackingAt(events, submits[q]))
         && (tracking && !inFlight[q].tracked ==> submits[q] < on)
  }

  /** One more event that is no submission and lands nothing. */
  lemma {:induction false} HistoryStep(events: seq<Event>, n: nat, tracking: bool, on: nat, inFlight: seq<Aio>,
                                       submits: seq<nat>, total: nat)
    requires n < |events| && History(events, n, tracking, on, inFlight, submits, total)
    ensures History(events, n + 1, if events[n].Enable? then true else if events[n].Disable? then false else tracking,
                    if events[n].Enable? && !tracking then n else on, inFlight, submits, total)
    ensures !events[n].Disable? ==> (Reenabled(events, n) ==> Reenabled(events, n + 1))
    ensures !events[n].Disable? ==> (LandedUntracked(events, n) ==> LandedUntracked(events, n + 1))
    ensures events[n].Enable? && tracking ==> Reenabled(events, n + 1)
  {
    if !events[n].Disable? {
      if Reenabled(events, n) {
        var i, j :| 0 <= i < j < n && events[i].Enable? && events[j].Enable? && StaysOn(events, i, n);
        assert StaysOn(events, i, n + 1);
      }
      if LandedUntracked(events, n) {
        var i, j, k :| 0 <= i < j < k < n && events[i].Submit? && !TrackingAt(events, i)
                       && events[j].Enable? && StaysOn(events, j, n) && events[k].Land?;
        assert StaysOn(events, j, n + 1);
      }
      if tracking {
        assert StaysOn(events, on, n + 1);
      }
    }
  }

  lemma {:induction false} SubmitStep(events: seq<Event>, n: nat, tracking: bool, on: nat, inFlight: seq<Aio>,
                                      submits: seq<nat>, total: nat, aio: seq<Aio>)
    requires n < |events| && events[n].Submit? && History(events, n, tracking, on, inFlight, submits, total)
    requires |aio| <= 1 && forall a :: a in aio ==> a.sector + a.nb <= total && a.tracked == tracking
    ensures History(events, n + 1, tracking, on, inFlight + aio, submits + if aio == [] then [] else [n], total)
  {
    HistoryStep(events, n, tracking, on, inFlight, submits, total);
  }

  /** A write that is not tracked and lands under tracking is a run's undoing. */
  lemma {:induction false} LandStep(events: seq<Event>, n: nat, tracking: bool, on: nat, inFlight: seq<Aio>,
                                    submits: seq<nat>, total: nat, k: nat)
    requires n < |events| && events[n].Land? && History(events, n, tracking, on, inFlight, submits, total)
             && k < |inFlight|
    ensures History(events, n + 1, tracking, on, inFlight[..k] + inFlight[k + 1..],
                    submits[..k] + submits[k + 1..], total)
    ensures inFlight[k].sector + inFlight[k].nb <= total
    ensures tracking && !inFlight[k].tracked ==> LandedUntracked(events, n + 1)
  {
    HistoryStep(events, n, tracking, on, inFlight, submits, total);
    if tracking && !inFlight[k].tracked {
      assert events[submits[k]].Submit? && !TrackingAt(events, submits[k]) && StaysOn(events, on, n + 1);
    }
  }

  lemma {:induction false} OnSince(events: seq<Event>, i: nat, j: nat)
    requires i < j <= |events| && events[i].Enable? && StaysOn(events, i, j)
    ensures TrackingAt(events, j)
    decreases j
  {
    if i + 1 < j {
      assert StaysOn(events, i, j - 1) && !events[j - 1].Disable?;
      OnSince(events, i, j - 1);
    }
  }

  /** A caller who enables tracking only while it is off meets the first condition of Run, and one who
      also submits writes only while it is on meets the second. */
  lemma {:induction false} Disciplined(events: seq<Event>)
    requires forall j :: 0 <= j < |events| && events[j].Enable? ==> !TrackingAt(events, j)
    ensures !Reenabled(events, |events|)
    ensures (forall i :: 0 <= i < |events| && events[i].Submit? ==> TrackingAt(events, i))
            ==> !LandedUntracked(events, |events|)
  {
    if Reenabled(events, |events|) {
      var i, j :| 0 <= i < j < |events| && events[i].Enable? && events[j].Enable? && StaysOn(events, i, |events|);
      assert StaysOn(events, i, j);
      OnSince(events, i, j);
    }
  }

  /** Enable, write, enable again: a chunk is dirty and the count says none is. */
  method EnableTwice() returns (dev: BlockDriverState)
    ensures dev.dirtyBitmap != null && dev.Valid() && dev.dirtyCount == 0 && dev.totalSectors == 1
    ensures dev.IsDirty(0) && !dev.Counted()
  {
    dev := new BlockDriverState(1);
    dev.SetDirtyTracking(true);
    var r := dev.Write(0, 1, 0);
    ghost var words := dev.dirtyBitmap[..];
    assert BitAt(words, 0);
    CountZero(words, |words| * BITS_PER_LONG);
    dev.SetDirtyTracking(true);
  }

  /** Submit, enable, complete: the sector changed under tracking and its chunk is clean. */
  method LandUntracked() returns (dev: BlockDriverState)
    ensures dev.dirtyBitmap != null && dev.Valid() && dev.totalSectors == 1
    ensures 0 in dev.changed && !dev.IsDirty(0) && !dev.Sound()
  {
    dev := new BlockDriverState(1);
    var aio := dev.AioWritev(0, 1);
    dev.SetDirtyTracking(true);
    dev.Complete(aio[0]);
    assert 0 in Range(0, 1);
  }

  lemma {:induction false} TestMask(w: Word, k: nat)
    requires k < BITS_PER_LONG
    ensures And(w, Bit(k)) == Zero() <==> !w[k]
  {
    var m := And(w, Bit(k));
    ZeroIsClear(m);
    assert forall i :: 0 <= i < BITS_PER_LONG ==> (m[i] <==> w[i] && i == k);
  }
}
