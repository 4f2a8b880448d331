/** bdrv_commit (block.c:760-861): copying an overlay's sectors into its backing image. What is read
    through the overlay never changes, however far the copying gets. */
module Commit {
  import opened Common

  type Sector = seq<bv8>

  const COMMIT_BUF_SECTORS: nat := 2048

  /** What a backing image shows at sector i; past its end it shows zeros. */
  function Backed(backing: seq<Sector>, i: nat): Sector {
    if i < |backing| then backing[i] else Zeros(SECTOR)
  }

  /** What is read through the overlay. */
  function View(alloc: seq<bool>, data: seq<Sector>, backing: seq<Sector>, i: nat): Sector
    requires i < |alloc| == |data|
  {
    if alloc[i] then data[i] else Backed(backing, i)
  }

  /** How one transfer of the copy ends; a failed write may have stored its first sectors. */
  datatype Fate = Done | ReadFails | WriteFails(stored: nat)

  /** bdrv_is_allocated's answers: from each sector on, a run of at least one sector, all in the
      state of the first. */
  ghost predicate IsRuns(alloc: seq<bool>, run: nat -> nat) {
    forall s: nat :: s < |alloc| ==> 1 <= run(s) <= COMMIT_BUF_SECTORS && s + run(s) <= |alloc|
                                     && Uniform(alloc, s, s + run(s))
  }

  predicate Uniform(alloc: seq<bool>, lo: nat, hi: nat)
    requires lo < hi <= |alloc|
  {
    forall i :: lo <= i < hi ==> alloc[i] == alloc[lo]
  }

  /** Reading through the overlay gives `view`. */
  ghost predicate Shows(alloc: seq<bool>, data: seq<Sector>, backing: seq<Sector>, view: seq<Sector>) {
    |view| == |alloc| == |data| && forall i :: 0 <= i < |alloc| ==> View(alloc, data, backing, i) == view[i]
  }

  /** The backing image alone shows `view` below sector n. */
  ghost predicate BackingShows(backing: seq<Sector>, view: seq<Sector>, n: nat)
    requires n <= |view|
  {
    forall i :: 0 <= i < n ==> Backed(backing, i) == view[i]
  }

  /** Every transfer from sector s on succeeds and fits the backing image. */
  ghost predicate CopyGoes(alloc: seq<bool>, size: nat, run: nat -> nat, fates: nat -> Fate, s: nat)
    requires IsRuns(alloc, run)
    decreases |alloc| - s
  {
    s >= |alloc| ||
    ((alloc[s] ==> fates(s).Done? && s + run(s) <= size) && CopyGoes(alloc, size, run, fates, s + run(s)))
  }

  /** How far the copying from sector s on gets: to the end, or to the sector where a transfer fails
      and past what a failed write stored. */
  ghost function Reached(alloc: seq<bool>, size: nat, run: nat -> nat, fates: nat -> Fate, s: nat): nat
    requires IsRuns(alloc, run)
    decreases |alloc| - s
  {
    if s >= |alloc| then s
    else if !alloc[s] then Reached(alloc, size, run, fates, s + run(s))
    else if fates(s).ReadFails? || s + run(s) > size then s
    else if fates(s).WriteFails? then s + Min(fates(s).stored, run(s))
    else Reached(alloc, size, run, fates, s + run(s))
  }

  /** now is was with the overlay's own sectors below n copied in. */
  ghost predicate CopiedTo(was: seq<Sector>, now: seq<Sector>, alloc: seq<bool>, data: seq<Sector>, n: nat) {
    && |now| == |was| && |alloc| == |data| && n <= |alloc|
    && forall i :: 0 <= i < |now| ==> now[i] == if i < n && alloc[i] then data[i] else was[i]
  }

  /** Copying the first n sectors of a run the overlay holds. */
  lemma {:induction false} CopyMore(was: seq<Sector>, mid: seq<Sector>, now: seq<Sector>, alloc: seq<bool>,
                                    data: seq<Sector>, lo: nat, hi: nat, n: nat)
    requires CopiedTo(was, mid, alloc, data, lo) && lo < hi <= |alloc| && alloc[lo] && Uniform(alloc, lo, hi)
    requires lo + n <= hi && n <= |data[lo..hi]| && Overwritten(mid, now, lo, data[lo..hi], n)
    ensures CopiedTo(was, now, alloc, data, lo + n)
  {
    forall i | 0 <= i < |now|
      ensures now[i] == if i < lo + n && alloc[i] then data[i] else was[i]
    {
      if lo <= i < lo + n {
        assert alloc[i] && data[lo..hi][i - lo] == data[i];
      }
    }
  }

  /** Passing over a run the overlay does not hold. */
  lemma {:induction false} CopyPast(was: seq<Sector>, now: seq<Sector>, alloc: seq<bool>, data: seq<Sector>,
                                    lo: nat, hi: nat)
    requires CopiedTo(was, now, alloc, data, lo) && lo < hi <= |alloc| && !alloc[lo] && Uniform(alloc, lo, hi)
    ensures CopiedTo(was, now, alloc, data, hi)
  {
  }

  /** now is was with the first n sectors of buf from sector lo on. */
  predicate Overwritten(was: seq<Sector>, now: seq<Sector>, lo: nat, buf: seq<Sector>, n: nat)
    requires n <= |buf|
  {
    |now| == |was| && forall i :: 0 <= i < |now| ==> now[i] == if lo <= i < lo + n then buf[i - lo] else was[i]
  }

  /** now is was except in sectors lo..hi. */
  predicate Outside(was: seq<Sector>, now: seq<Sector>, lo: nat, hi: nat) {
    |was| == |now| && forall i :: 0 <= i < |now| && !(lo <= i < hi) ==> now[i] == was[i]
  }

  /** Writing under sectors the overlay holds does not show through it. */
  lemma {:induction false} Masked(alloc: seq<bool>, data: seq<Sector>, was: seq<Sector>, now: seq<Sector>,
                                  view: seq<Sector>, lo: nat, hi: nat)
    requires Shows(alloc, data, was, view) && lo < hi <= |alloc| && alloc[lo] && Uniform(alloc, lo, hi)
    requires Outside(was, now, lo, hi)
    ensures Shows(alloc, data, now, view)
  {
    forall i | 0 <= i < |alloc|
      ensures View(alloc, data, now, i) == view[i]
    {
      assert View(alloc, data, was, i) == view[i];
    }
  }

  /** After a whole run is copied the backing image shows it too. */
  lemma {:induction false} Copied(alloc: seq<bool>, data: seq<Sector>, was: seq<Sector>, now: seq<Sector>,
                                  view: seq<Sector>, lo: nat, hi: nat)
    requires Shows(alloc, data, was, view) && lo < hi <= |alloc| && alloc[lo] && Uniform(alloc, lo, hi)
    requires Outside(was, now, lo, hi) && hi <= |now| && now[lo..hi] == data[lo..hi]
    requires BackingShows(was, view, lo)
    ensures BackingShows(now, view, hi)
  {
    forall i | 0 <= i < hi
      ensures Backed(now, i) == view[i]
    {
      if i < lo {
        assert Backed(was, i) == view[i];
      } else {
        assert now[i] == now[lo..hi][i - lo] == data[i];
        assert View(alloc, data, was, i) == view[i];
      }
    }
  }

  /** A run the overlay does not hold is shown by the backing image already. */
  lemma {:induction false} Skipped(alloc: seq<bool>, data: seq<Sector>, backing: seq<Sector>, view: seq<Sector>,
                                   lo: nat, hi: nat)
    requires Shows(alloc, data, backing, view) && lo < hi <= |alloc| && !alloc[lo] && Uniform(alloc, lo, hi)
    requires BackingShows(backing, view, lo)
    ensures BackingShows(backing, view, hi)
  {
    forall i | lo <= i < hi
      ensures Backed(backing, i) == view[i]
    {
      assert View(alloc, data, backing, i) == view[i];
    }
  }

  /** Once the backing image shows everything, an emptied overlay shows the same. */
  lemma {:induction false} Emptied(data: seq<Sector>, backing: seq<Sector>, view: seq<Sector>)
    requires |view| == |data| && BackingShows(backing, view, |view|)
    ensures Shows(seq(|data|, _ => false), data, backing, view)
  {
    var none := seq(|data|, _ => false);
    forall i | 0 <= i < |none|
      ensures View(none, data, backing, i) == view[i]
    {
      assert Backed(backing, i) == view[i];
    }
  }

  /** What opening the backing file returns: to write, read-only when that failed, and read-only again
      at the end. */
  datatype Opens = Opens(rw: int, ro: int, again: int)

  class Overlay {
    var alloc: seq<bool>       // which sectors the overlay holds itself
    var data: seq<Sector>
    var backing: seq<Sector>
    var inserted: bool         // the overlay has a driver
    var backed: bool           // it has a backing image
    var keepReadOnly: bool     // the backing image is not to be written
    var readOnly: bool         // the backing image is open read-only

    constructor (alloc: seq<bool>, data: seq<Sector>, backing: seq<Sector>, readOnly: bool)
      ensures this.alloc == alloc && this.data == data && this.backing == backing && this.readOnly == readOnly
      ensures inserted && backed && !keepReadOnly
    {
      this.alloc, this.data, this.backing, this.readOnly := alloc, data, backing, readOnly;
      inserted, backed, keepReadOnly := true, true, false;
    }

    /** The copying begins. */
    predicate Starts(opens: Opens)
      reads this
    {
      inserted && backed && !keepReadOnly && (readOnly ==> opens.rw >= 0)
    }

    /** The backing file cannot be opened again. */
    predicate OutOfService(opens: Opens)
      reads this
    {
      !keepReadOnly && readOnly && (if opens.rw < 0 then opens.ro < 0 else opens.again < 0)
    }

    /** bdrv_write on the backing image: fails past its end or by fate. */
    method WriteBacking(sector: nat, buf: seq<Sector>, fate: Fate) returns (ok: bool)
      modifies this`backing
      ensures Outside(old(backing), backing, sector, sector + |buf|)
      ensures ok <==> sector + |buf| <= |backing| && !fate.WriteFails?
      ensures ok ==> backing[sector..sector + |buf|] == buf
      ensures Overwritten(old(backing), backing, sector, buf,
                          if sector + |buf| > |backing| then 0
                          else if fate.WriteFails? then Min(fate.stored, |buf|) else |buf|)
    {
      if sector + |buf| > |backing| {
        return false;
      }
      var n := if fate.WriteFails? then Min(fate.stored, |buf|) else |buf|;
      backing := backing[..sector] + buf[..n] + backing[sector + n..];
      ok := !fate.WriteFails?;
    }

    /** One turn over a run the overlay holds: read it and write it to the backing image. */
    method CopyRun(s: nat, n: nat, fate: Fate, ghost view: seq<Sector>, ghost first: seq<Sector>) returns (ok: bool)
      requires n > 0 && s + n <= |alloc| && alloc[s] && Uniform(alloc, s, s + n)
      requires Shows(alloc, data, backing, view) && BackingShows(backing, view, s)
      requires CopiedTo(first, backing, alloc, data, s)
      modifies this`backing
      ensures |backing| == |old(backing)| && Shows(alloc, data, backing, view)
      ensures ok <==> fate.Done? && s + n <= |backing|
      ensures ok ==> BackingShows(backing, view, s + n)
      ensures CopiedTo(first, backing, alloc, data,
                       if fate.ReadFails? || s + n > |backing| then s
                       else if fate.WriteFails? then s + Min(fate.stored, n) else s + n)
    {
      if fate.ReadFails? {
        return false;
      }
      ghost var was := backing;
      ok := WriteBacking(s, data[s..s + n], fate);
      hide Shows, BackingShows, Uniform, CopiedTo, Overwritten, Outside, View, Backed;
      Masked(alloc, data, was, backing, view, s, s + n);
      CopyMore(first, was, backing, alloc, data, s, s + n,
               if s + n > |was| then 0 else if fate.WriteFails? then Min(fate.stored, n) else n);
      if ok {
        Copied(alloc, data, was, backing, view, s, s + n);
      }
    }

    /** The copy loop: it runs to the end exactly when every transfer goes well; then the backing
        image alone shows what the overlay shows. */
    method Copy(run: nat -> nat, fates: nat -> Fate, ghost view: seq<Sector>) returns (ok: bool)
      requires IsRuns(alloc, run) && Shows(alloc, data, backing, view)
      modifies this`backing
      ensures |backing| == |old(backing)| && Shows(alloc, data, backing, view)
      ensures ok <==> CopyGoes(alloc, |backing|, run, fates, 0)
      ensures ok ==> BackingShows(backing, view, |view|)
      ensures CopiedTo(old(backing), backing, alloc, data, Reached(alloc, |backing|, run, fates, 0))
    {
      var sector := 0;
      while sector < |alloc|
        invariant sector <= |alloc| == |data| == |view| && |backing| == |old(backing)|
        invariant Shows(alloc, data, backing, view) && BackingShows(backing, view, sector)
        invariant CopyGoes(alloc, |backing|, run, fates, 0) <==> CopyGoes(alloc, |backing|, run, fates, sector)
        invariant CopiedTo(old(backing), backing, alloc, data, sector)
        invariant Reached(alloc, |backing|, run, fates, 0) == Reached(alloc, |backing|, run, fates, sector)
        decreases |alloc| - sector
      {
        hide Shows, BackingShows, Uniform, CopiedTo;
        var n := run(sector);
        if alloc[sector] {
          ok := CopyRun(sector, n, fates(sector), view, old(backing));
          if !ok {
            return false;
          }
        } else {
          Skipped(alloc, data, backing, view, sector, sector + n);
          CopyPast(old(backing), backing, alloc, data, sector, sector + n);
        }
        sector := sector + n;
      }
      ok := true;
    }

    /** bdrv_commit. `fates` says how the transfers end, `emptied` what the driver's bdrv_make_empty
        returns, 1 when it has none, and `opens` what opening the backing file again returns. Whatever
        happens, the sectors on disk read through the overlay as before; a failed reopening takes the
        drive out of service. With a read-only backing file the result is that of reopening it, so a
        copy that failed is then reported as a success. */
    method CommitAll(run: nat -> nat, fates: nat -> Fate, emptied: int, opens: Opens, ghost view: seq<Sector>)
      returns (r: int)
      requires IsRuns(alloc, run) && Shows(alloc, data, backing, view) && emptied <= 1
      modifies this`alloc, this`backing, this`inserted, this`backed
      ensures Shows(alloc, data, backing, view)
      ensures !old(Starts(opens)) ==>
                && backing == old(backing) && alloc == old(alloc)
                && r == (if !old(inserted) then -ENOMEDIUM else if !old(backed) then -ENOTSUP
                         else if keepReadOnly then -EACCES else if opens.ro < 0 then opens.ro else opens.rw)
      ensures old(Starts(opens)) && CopyGoes(old(alloc), |old(backing)|, run, fates, 0) ==>
                && BackingShows(backing, view, |view|)
                && alloc == (if emptied == 0 then seq(|old(alloc)|, _ => false) else old(alloc))
                && r == (if readOnly then opens.again else if emptied == 1 then 0 else emptied)
      ensures old(Starts(opens)) && !CopyGoes(old(alloc), |old(backing)|, run, fates, 0) ==>
                alloc == old(alloc) && r == if readOnly then opens.again else -EIO
      ensures old(Starts(opens)) ==> CopiedTo(old(backing), backing, old(alloc), data,
                                              Reached(old(alloc), |old(backing)|, run, fates, 0))
      ensures inserted && backed <==> old(inserted) && old(backed) && !old(OutOfService(opens))
    {
      if !inserted {
        return -ENOMEDIUM;
      }
      if !backed {
        return -ENOTSUP;
      }
      if keepReadOnly {
        return -EACCES;
      }
      if readOnly && opens.rw < 0 {
        if opens.ro < 0 {
          inserted, backed := false, false;
          return opens.ro;
        }
        return opens.rw;
      }
      var ok := Copy(run, fates, view);
      r := if ok then 0 else -EIO;
      if ok && emptied != 1 {
        r := emptied;
        if emptied == 0 {
          Emptied(data, backing, view);
          alloc := seq(|alloc|, _ => false);
        }
      }
      if readOnly {
        r := opens.again;
        if r < 0 {
          inserted, backed := false, false;
        }
      }
    }
  }

  /** One sector over a backing image opened read-only, and the copy cannot read it: bdrv_commit
      returns success and the backing image holds what it held. */
  method FailedCommitReported(own: Sector, base: Sector) returns (o: Overlay, r: int)
    requires own != base
    ensures r == 0 && o.alloc == [true] && o.backing == [base] && o.inserted && o.backed
    ensures IsRuns([true], s => 1) && !CopyGoes([true], 1, s => 1, s => ReadFails, 0)
    ensures Shows(o.alloc, o.data, o.backing, [own]) && !BackingShows(o.backing, [own], 1)
  {
    o := new Overlay([true], [own], [base], true);
    var run, fates := (s: nat) => 1, (s: nat) => ReadFails;
    assert IsRuns(o.alloc, run);
    assert Reached(o.alloc, 1, run, fates, 0) == 0 && !CopyGoes(o.alloc, 1, run, fates, 0);
    r := o.CommitAll(run, fates, 1, Opens(0, 0, 0), [own]);
    assert o.backing == [base];
    assert Backed(o.backing, 0) == base;
  }
}
