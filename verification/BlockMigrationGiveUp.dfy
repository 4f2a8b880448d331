/** Giving up on queued reads in stage 3 (block-migration.c:463-552), from the source's side: what it can
    tell about the loss, and what depends on a destination it cannot see. */
module BlockMigrationGiveUp {
  import opened Common
  import opened BlockMigrationProtocol
  import opened BlockMigrationConvergence
  import opened BlockMigrationRuns

  /** The source can tell that giving up is safe when every queued read's chunk is dirty, in particular
      when nothing is queued: the dirty pass sends those chunks again. */
  lemma {:induction false} GivingUpDirtyIsSafe(s: State, trace: seq<Action>)
    requires Inv(s) && Enabled(s, GiveUp) && s.lost == {} && s.writes == []
    requires forall d :: 0 <= d < |s.devs| ==> s.devs[d].bulkCompleted
    requires ValidRun(Apply(s, GiveUp), trace) && (forall i :: 0 <= i < |trace| ==> StageThree(trace[i]))
    requires Drained(Final(Apply(s, GiveUp), trace))
    requires forall i :: 0 <= i < |s.queue| ==> s.queue[i].sector / CHUNK in s.devs[s.queue[i].dev].dirty
    ensures var t := Final(Apply(s, GiveUp), trace);
            DstShape(t) && forall d: nat, x: nat :: d < |t.devs| && x < |t.devs[d].disk| ==> Agree(t, d, x)
  {
    GivingUpIsSafeExactly(s, trace);
    forall d: nat, x: nat | d < |s.devs| && x < |s.devs[d].disk|
      ensures !CleanQueued(s, d, x)
    {
      if Newest(s.queue, d, x).Some? {
        CoverChunk(s, Newest(s.queue, d, x).value, d, x);
      }
    }
  }

  // ------------------------------------------ what the source cannot tell

  /** The record writes sector x of the disk of that name and size. */
  predicate Hits(r: Record, name: string, size: nat, x: nat) {
    r.DeviceBlock? && r.name == name && r.sector <= x < size && x < r.sector + NrSectors(size, r.sector)
    && x - r.sector < |r.buf|
  }

  /** What the last record that writes sector x put there, if one did. */
  function LastSent(stream: seq<Record>, name: string, size: nat, x: nat): Option<Sector> {
    if stream == [] then None
    else
      var r := stream[|stream| - 1];
      if Hits(r, name, size, x) then Some(r.buf[x - r.sector]) else LastSent(stream[..|stream| - 1], name, size, x)
  }

  /** The destination's first contents with sector x of a disk replaced. */
  function Changed(dst0: Disks, name: string, x: nat, v: Sector): Disks
    requires name in dst0 && x < |dst0[name]|
  {
    dst0[name := dst0[name][x := v]]
  }

  /** After the stream a sector holds what was last sent, or else what it held before. */
  lemma {:induction false} ReplayLast(dst0: Disks, stream: seq<Record>, name: string, x: nat)
    requires name in dst0 && x < |dst0[name]| && Replay(dst0, stream).Holds?
    ensures var disks := Replay(dst0, stream).disks; var last := LastSent(stream, name, |dst0[name]|, x);
            name in disks && |disks[name]| == |dst0[name]|
            && disks[name][x] == if last.Some? then last.value else dst0[name][x]
    decreases |stream|
  {
    if stream != [] {
      ReplayLast(dst0, stream[..|stream| - 1], name, x);
    }
  }

  lemma {:induction false} FormedIgnoresDst(s: State, e: Disks)
    requires Formed(s)
    ensures Formed(s.(dst0 := e))
  {
    var t := s.(dst0 := e);
    assert forall i :: 0 <= i < |s.writes| ==> ValidWrite(s, s.writes[i]) == ValidWrite(t, s.writes[i]);
    assert forall i :: 0 <= i < |s.inflight| ==> FormedBlk(s, s.inflight[i]) == FormedBlk(t, s.inflight[i]);
    assert forall i :: 0 <= i < |s.queue| ==> FormedBlk(s, s.queue[i]) == FormedBlk(t, s.queue[i]);
  }

  lemma {:induction false} GuestStepIgnoresDst(s: State, a: Action, e: Disks)
    requires Formed(s) && Formed(s.(dst0 := e)) && Enabled(s, a)
    requires a.SubmitWrite? || a.Land? || a.CompleteWrite? || a.SyncWrite? || a.StopGuest?
    ensures Enabled(s.(dst0 := e), a) && Apply(s.(dst0 := e), a) == Apply(s, a).(dst0 := e)
  {
  }

  lemma {:induction false} ReadStepIgnoresDst(s: State, a: Action, e: Disks)
    requires Formed(s) && Formed(s.(dst0 := e)) && Enabled(s, a) && (a.Sample? || a.CompleteRead?)
    ensures Enabled(s.(dst0 := e), a) && Apply(s.(dst0 := e), a) == Apply(s, a).(dst0 := e)
  {
    if a.Sample? {
      assert SampleBlk(s, s.inflight[a.j], a.ks) == SampleBlk(s.(dst0 := e), s.inflight[a.j], a.ks);
    }
  }

  lemma {:induction false} SubmitStepIgnoresDst(s: State, a: Action, e: Disks)
    requires Formed(s) && Formed(s.(dst0 := e)) && Enabled(s, a) && (a.Bulk? || a.DirtyRead?)
    ensures Enabled(s.(dst0 := e), a) && Apply(s.(dst0 := e), a) == Apply(s, a).(dst0 := e)
  {
  }

  lemma {:induction false} SendStepIgnoresDst(s: State, a: Action, e: Disks)
    requires Formed(s) && Formed(s.(dst0 := e)) && Enabled(s, a)
    requires a.ResetCursors? || a.DirtyAdvance? || a.Send? || a.Fail? || a.Mark? || a.GiveUp? || a.DirtySync?
    ensures Enabled(s.(dst0 := e), a) && Apply(s.(dst0 := e), a) == Apply(s, a).(dst0 := e)
  {
  }

  /** No step looks at the destination's first contents. */
  lemma {:induction false} StepIgnoresDst(s: State, a: Action, e: Disks)
    requires Formed(s) && Enabled(s, a)
    ensures Formed(s.(dst0 := e)) && Enabled(s.(dst0 := e), a) && Apply(s.(dst0 := e), a) == Apply(s, a).(dst0 := e)
  {
    FormedIgnoresDst(s, e);
    hide Formed, Enabled, Apply;
    if a.SubmitWrite? || a.Land? || a.CompleteWrite? || a.SyncWrite? || a.StopGuest? {
      GuestStepIgnoresDst(s, a, e);
    } else if a.Sample? || a.CompleteRead? {
      ReadStepIgnoresDst(s, a, e);
    } else if a.Bulk? || a.DirtyRead? {
      SubmitStepIgnoresDst(s, a, e);
    } else {
      SendStepIgnoresDst(s, a, e);
    }
  }

  lemma {:induction false} RunIgnoresDst(s: State, trace: seq<Action>, e: Disks)
    requires ValidRun(s, trace)
    ensures ValidRun(s.(dst0 := e), trace) && Final(s.(dst0 := e), trace) == Final(s, trace).(dst0 := e)
    decreases |trace|
  {
    if trace != [] {
      StepIgnoresDst(s, trace[0], e);
      RunIgnoresDst(Apply(s, trace[0]), trace[1..], e);
    }
  }

  /** What the source knows that the destination holds at sector x before stage 3: what it sent last, or
      else the contents of a base both share. */
  function Certain(start: State, s: State, d: nat, x: nat): Option<Sector>
    requires d < |start.devs| && x < |start.devs[d].disk|
  {
    var dev := start.devs[d];
    var last := LastSent(s.stream, dev.name, |dev.disk|, x);
    if last.Some? then last
    else if dev.sharedBase && x !in dev.alloc then Some(dev.disk[x])
    else None
  }

  /** A run up to the end of stage 2, giving up on the queue, and stage 3. */
  ghost predicate GivesUp(start: State, before: seq<Action>, after: seq<Action>) {
    && ValidRun(start, before) && Formed(Final(start, before)) && Enabled(Final(start, before), GiveUp)
    && ValidRun(Apply(Final(start, before), GiveUp), after) && (forall i :: 0 <= i < |after| ==> StageThree(after[i]))
  }

  ghost function Ended(start: State, before: seq<Action>, after: seq<Action>): State
    requires GivesUp(start, before, after)
  {
    Final(Apply(Final(start, before), GiveUp), after)
  }

  ghost predicate AllAgree(t: State) {
    DstShape(t) && forall d: nat, x: nat :: d < |t.devs| && x < |t.devs[d].disk| ==> Agree(t, d, x)
  }

  /** Whichever destination the migration began with, all of it arrives. */
  ghost predicate SafeForAll(start: State, before: seq<Action>, after: seq<Action>) {
    forall e: Disks :: Start(start.(dst0 := e))
                       ==> GivesUp(start.(dst0 := e), before, after)
                           && AllAgree(Ended(start.(dst0 := e), before, after))
  }

  /** Each clean chunk with a queued read is known to hold its current contents at the destination. */
  ghost predicate AllCertain(start: State, s: State)
    requires SameDevices(start, s)
  {
    forall d: nat, x: nat :: d < |s.devs| && x < |s.devs[d].disk| && CleanQueued(s, d, x)
                             ==> Certain(start, s, d, x) == Some(s.devs[d].disk[x])
  }

  /** From the source's side, exactly: giving up loses nothing for every destination just when each clean
      sector with a queued read was last sent with its current contents, or never sent and served by a
      base both share with those contents. */
  lemma {:induction false} GivingUpIsSafeForAllExactly(start: State, before: seq<Action>, after: seq<Action>)
    requires Start(start) && GivesUp(start, before, after)
    requires var s := Final(start, before);
             s.lost == {} && s.writes == [] && forall d :: 0 <= d < |s.devs| ==> s.devs[d].bulkCompleted
    requires Drained(Ended(start, before, after))
    ensures SameDevices(start, Final(start, before))
    ensures SafeForAll(start, before, after) <==> AllCertain(start, Final(start, before))
  {
    var s := Final(start, before);
    StartInv(start);
    InvRun(start, before);
    hide Inv, Start, GivesUp, AllAgree, AllCertain;
    forall e: Disks | Start(start.(dst0 := e))
      ensures GivesUp(start.(dst0 := e), before, after)
      ensures AllCertain(start, s) ==> AllAgree(Ended(start.(dst0 := e), before, after))
    {
      CertainIsEnough(start, before, after, e);
    }
    if !AllCertain(start, s) {
      var e := SomeLost(start, before, after);
      assert !AllAgree(Ended(start.(dst0 := e), before, after));
    }
  }

  /** The same run over another destination. */
  lemma {:induction false} OtherDestination(start: State, before: seq<Action>, after: seq<Action>, e: Disks)
    requires Start(start.(dst0 := e)) && GivesUp(start, before, after)
    ensures GivesUp(start.(dst0 := e), before, after)
    ensures Final(start.(dst0 := e), before) == Final(start, before).(dst0 := e)
    ensures Ended(start.(dst0 := e), before, after) == Ended(start, before, after).(dst0 := e)
    ensures Inv(Final(start, before).(dst0 := e)) && SameDevices(start, Final(start, before))
  {
    var start', s := start.(dst0 := e), Final(start, before);
    RunIgnoresDst(start, before, e);
    StartInv(start');
    InvRun(start', before);
    StepIgnoresDst(s, GiveUp, e);
    RunIgnoresDst(Apply(s, GiveUp), after, e);
    hide Inv, Start;
  }

  /** Over a given destination all arrives exactly when the clean queued sectors agree. */
  lemma {:induction false} EndsWell(start: State, before: seq<Action>, after: seq<Action>, e: Disks)
    requires Start(start.(dst0 := e)) && GivesUp(start, before, after)
    requires var s := Final(start, before);
             s.lost == {} && s.writes == [] && forall d :: 0 <= d < |s.devs| ==> s.devs[d].bulkCompleted
    requires Drained(Ended(start, before, after))
    ensures GivesUp(start.(dst0 := e), before, after) && DstShape(Final(start, before).(dst0 := e))
    ensures AllAgree(Ended(start.(dst0 := e), before, after))
            <==> QueuedAgree(Final(start, before).(dst0 := e))
  {
    var s := Final(start, before);
    OtherDestination(start, before, after, e);
    hide Start;
    GivingUpIsSafeExactly(s.(dst0 := e), after);
  }

  ghost predicate QueuedAgree(s: State)
    requires DstShape(s)
  {
    forall d: nat, x: nat :: d < |s.devs| && x < |s.devs[d].disk| && CleanQueued(s, d, x) ==> Agree(s, d, x)
  }

  lemma {:induction false} CertainIsEnough(start: State, before: seq<Action>, after: seq<Action>, e: Disks)
    requires Start(start) && Start(start.(dst0 := e)) && GivesUp(start, before, after)
    requires var s := Final(start, before);
             s.lost == {} && s.writes == [] && forall d :: 0 <= d < |s.devs| ==> s.devs[d].bulkCompleted
    requires Drained(Ended(start, before, after)) && SameDevices(start, Final(start, before))
    ensures GivesUp(start.(dst0 := e), before, after)
    ensures AllCertain(start, Final(start, before)) ==> AllAgree(Ended(start.(dst0 := e), before, after))
  {
    var s := Final(start, before);
    EndsWell(start, before, after, e);
    if AllCertain(start, s) {
      forall d: nat, x: nat | d < |s.devs| && x < |s.devs[d].disk| && CleanQueued(s, d, x)
        ensures Agree(s.(dst0 := e), d, x)
      {
        Holds(start, s, e, d, x);
      }
      assert forall d: nat, x: nat :: d < |s.devs| ==> CleanQueued(s.(dst0 := e), d, x) == CleanQueued(s, d, x);
    }
  }

  /** What is certain is there; otherwise the destination's own first contents are. */
  lemma {:induction false} Holds(start: State, s: State, e: Disks, d: nat, x: nat)
    requires Start(start.(dst0 := e)) && SameDevices(start, s) && DstShape(s.(dst0 := e))
    requires d < |s.devs| && x < |s.devs[d].disk|
    ensures start.devs[d].name in e && |e[start.devs[d].name]| == |start.devs[d].disk|
    ensures var c := Certain(start, s, d, x);
            Dst(s.(dst0 := e)).disks[s.devs[d].name][x] == if c.Some? then c.value else e[start.devs[d].name][x]
  {
    assert SameBase(start.devs[d], e);
    ReplayLast(e, s.stream, start.devs[d].name, x);
  }

  /** A clean sector with a queued read that is not certain to hold its current contents: over some
      destination the same run loses it. */
  lemma {:induction false} GivingUpUncertainCanLose(start: State, before: seq<Action>, after: seq<Action>,
                                                    d: nat, x: nat)
    returns (e: Disks)
    requires Start(start) && GivesUp(start, before, after) && SameDevices(start, Final(start, before))
    requires d < |start.devs| && x < |start.devs[d].disk| && CleanQueued(Final(start, before), d, x)
    requires Certain(start, Final(start, before), d, x) != Some(Final(start, before).devs[d].disk[x])
    ensures Start(start.(dst0 := e)) && GivesUp(start.(dst0 := e), before, after)
    ensures var t := Ended(start.(dst0 := e), before, after);
            DstShape(t) && d < |t.devs| && x < |t.devs[d].disk| && !Agree(t, d, x)
  {
    var s := Final(start, before);
    assert start.(dst0 := start.dst0) == start;
    assert SameBase(start.devs[d], start.dst0);
    e := start.dst0;
    if Certain(start, s, d, x).None? {
      ChangedStart(start, d, x, s.devs[d].disk[x] + [0]);
      e := Changed(start.dst0, start.devs[d].name, x, s.devs[d].disk[x] + [0]);
    }
    OtherDestination(start, before, after, e);
    Holds(start, s, e, d, x);
    hide Start, Certain;
    StaysLost(s.(dst0 := e), after, d, x);
  }

  /** Giving up and stage 3 do not repair a clean sector that disagrees. */
  lemma {:induction false} StaysLost(s: State, after: seq<Action>, d: nat, x: nat)
    requires Inv(s) && Enabled(s, GiveUp) && d < |s.devs| && x < |s.devs[d].disk|
    requires ValidRun(Apply(s, GiveUp), after) && forall i :: 0 <= i < |after| ==> StageThree(after[i])
    requires x / CHUNK !in s.devs[d].dirty && !Agree(s, d, x)
    ensures var t := Final(Apply(s, GiveUp), after);
            DstShape(t) && d < |t.devs| && x < |t.devs[d].disk| && !Agree(t, d, x)
  {
    InvStep(s, GiveUp);
    StageThreeSector(Apply(s, GiveUp), after, d, x);
  }

  lemma {:induction false} SomeLost(start: State, before: seq<Action>, after: seq<Action>) returns (e: Disks)
    requires Start(start) && GivesUp(start, before, after) && SameDevices(start, Final(start, before))
    requires !AllCertain(start, Final(start, before))
    ensures Start(start.(dst0 := e)) && GivesUp(start.(dst0 := e), before, after)
    ensures !AllAgree(Ended(start.(dst0 := e), before, after))
  {
    var s := Final(start, before);
    var d: nat, x: nat :| d < |s.devs| && x < |s.devs[d].disk| && CleanQueued(s, d, x)
                          && Certain(start, s, d, x) != Some(s.devs[d].disk[x]);
    e := GivingUpUncertainCanLose(start, before, after, d, x);
  }

  lemma {:induction false} ChangedStart(start: State, d: nat, x: nat, v: Sector)
    requires Start(start) && d < |start.devs| && x < |start.devs[d].disk|
    requires start.devs[d].name in start.dst0 && |start.dst0[start.devs[d].name]| == |start.devs[d].disk|
    requires start.devs[d].sharedBase ==> x in start.devs[d].alloc
    ensures Start(start.(dst0 := Changed(start.dst0, start.devs[d].name, x, v)))
  {
    var e := Changed(start.dst0, start.devs[d].name, x, v);
    forall c | 0 <= c < |start.devs|
      ensures SameBase(start.devs[c], e)
    {
      assert SameBase(start.devs[c], start.dst0);
      assert c != d ==> start.devs[c].name != start.devs[d].name;
    }
  }
}
