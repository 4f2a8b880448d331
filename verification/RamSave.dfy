/** ram_save_block, ram_save_live and ram_load as they run (arch_init.c), proved against
    the step system of RamMigration. */
module RamSave {
  import opened Common
  import opened RamStream
  import opened RamMigration

  /** One turn of the scan moves to the next position, wrapping at the end. */
  lemma {:induction false} Advance(bs: seq<RAMBlock>, b: nat, p: nat, start: nat, k: nat, b': nat, p': nat)
    requires Blocks(bs) && IsPage(bs, b, p) && start < Total(bs) && k < Total(bs)
    requires Position(bs, b, p) == Around(Total(bs), start, k)
    requires if p + 1 < |bs[b].host| then b' == b && p' == p + 1
             else p' == 0 && b' == if b + 1 < |bs| then b + 1 else 0
    ensures IsPage(bs, b', p') && Position(bs, b', p') == Around(Total(bs), start, k + 1)
  {
    assert bs[b'].Formed();
    PositionBound(bs, b, p);
    assert Base(bs, b + 1) == Base(bs, b) + |bs[b].host|;
    hide Base, Blocks;
    if p + 1 < |bs[b].host| {
      PositionBound(bs, b, p + 1);
    } else if b + 1 < |bs| {
      PositionBound(bs, b + 1, 0);
    } else {
      FirstBase(bs);
    }
  }

  lemma {:induction false} FirstBase(bs: seq<RAMBlock>)
    ensures Base(bs, 0) == 0
  {
  }

  /** The k-th page of the scan is the one at distance k. */
  lemma {:induction false} AtDistance(s: State, b: nat, p: nat, k: nat)
    requires Blocks(s.blocks) && CursorOk(s) && IsPage(s.blocks, b, p) && k < Total(s.blocks)
    requires Position(s.blocks, b, p) == Around(Total(s.blocks), Cursor(s), k)
    ensures Distance(s, b, p) == k
  {
    PositionBound(s.blocks, CursorBlock(s), s.lastOffset / PAGE);
    PositionBound(s.blocks, b, p);
  }

  lemma {:induction false} DistanceInjective(s: State, b: nat, p: nat, c: nat, q: nat)
    requires CursorOk(s) && IsPage(s.blocks, b, p) && IsPage(s.blocks, c, q) && Distance(s, b, p) == Distance(s, c, q)
    ensures b == c && p == q
  {
    PositionBound(s.blocks, CursorBlock(s), s.lastOffset / PAGE);
    PositionBound(s.blocks, b, p);
    PositionBound(s.blocks, c, q);
    PositionUnique(s.blocks, b, p, c, q);
  }

  lemma {:induction false} DistanceBound(s: State, b: nat, p: nat)
    requires CursorOk(s) && IsPage(s.blocks, b, p)
    ensures 0 <= Distance(s, b, p) < Total(s.blocks)
  {
    PositionBound(s.blocks, CursorBlock(s), s.lastOffset / PAGE);
    PositionBound(s.blocks, b, p);
  }

  /** Pages nearer than k are clean. */
  ghost predicate CleanWithin(s: State, k: nat)
    requires CursorOk(s)
  {
    forall c: nat, q: nat :: IsPage(s.blocks, c, q) && Distance(s, c, q) < k ==> !PageDirty(s, c, q)
  }

  lemma {:induction false} CleanMore(s: State, k: nat, b: nat, p: nat)
    requires CursorOk(s) && CleanWithin(s, k) && IsPage(s.blocks, b, p) && Distance(s, b, p) == k && !PageDirty(s, b, p)
    ensures CleanWithin(s, k + 1)
  {
    forall c: nat, q: nat | IsPage(s.blocks, c, q) && Distance(s, c, q) < k + 1 ensures !PageDirty(s, c, q) {
      if Distance(s, c, q) == k { DistanceInjective(s, b, p, c, q); }
    }
  }

  lemma {:induction false} CleanAll(s: State)
    requires CursorOk(s) && CleanWithin(s, Total(s.blocks))
    ensures NoDirty(s)
  {
    forall c: nat, q: nat | IsPage(s.blocks, c, q) ensures !PageDirty(s, c, q) { DistanceBound(s, c, q); }
  }

  /** is_dup_page (arch_init.c:95-108): compares a page word by word with four copies of
      its first byte. */
  method IsDupPage(page: Page, ch: bv8) returns (dup: bool)
    requires |page| == PAGE
    ensures dup <==> forall k :: 0 <= k < PAGE ==> page[k] == ch
  {
    var val := [ch, ch, ch, ch];
    var i := 0;
    while i < PAGE / 4
      invariant 0 <= i <= PAGE / 4
      invariant forall k :: 0 <= k < 4 * i ==> page[k] == ch
    {
      var word := page[4 * i..4 * i + 4];
      if word != val {
        assert exists k :: 0 <= k < 4 && word[k] != ch;
        ghost var k :| 0 <= k < 4 && word[k] != ch;
        assert page[4 * i + k] != ch;
        return false;
      }
      assert forall k :: 0 <= k < 4 ==> page[4 * i + k] == word[k] == val[k];
      assert forall k :: 4 * i <= k < 4 * i + 4 ==> page[k] == page[4 * i + (k - 4 * i)];
      i := i + 1;
    }
    return true;
  }

  /** The address test fails exactly when the scan is back where it began. */
  lemma {:induction false} BackAtCursor(s: State, b: nat, offset: nat, k: nat, scanning: bool)
    requires Blocks(s.blocks) && CursorOk(s) && s.lastBlock.Some? && offset % PAGE == 0
    requires 0 < k <= Total(s.blocks) && IsPage(s.blocks, b, offset / PAGE)
    requires Position(s.blocks, b, offset / PAGE) == Around(Total(s.blocks), Cursor(s), k)
    requires scanning == (s.blocks[b].offset + offset != s.blocks[s.lastBlock.value].offset + s.lastOffset)
    ensures scanning <==> k < Total(s.blocks)
  {
    var c, q := s.lastBlock.value, s.lastOffset / PAGE;
    assert s.blocks[b].Formed() && s.blocks[c].Formed();
    FrameUnique(s.blocks, b, offset / PAGE, c, q);
    PositionBound(s.blocks, c, q);
    if Position(s.blocks, b, offset / PAGE) == Cursor(s) {
      PositionUnique(s.blocks, b, offset / PAGE, c, q);
    }
  }

  /** Where the scan stands after k turns, everything behind it clean. */
  ghost predicate ScanAt(s: State, block: nat, offset: nat, k: nat) {
    && Blocks(s.blocks) && CursorOk(s) && offset % PAGE == 0 && IsPage(s.blocks, block, offset / PAGE)
    && k <= Total(s.blocks)
    && Position(s.blocks, block, offset / PAGE) == Around(Total(s.blocks), Cursor(s), k)
    && CleanWithin(s, k)
  }

  lemma {:induction false} ScanStart(s: State)
    requires Inv(s)
    ensures ScanAt(s, CursorBlock(s), s.lastOffset, 0) && 0 < Total(s.blocks)
  {
    PositionBound(s.blocks, CursorBlock(s), s.lastOffset / PAGE);
    forall c: nat, q: nat | IsPage(s.blocks, c, q) ensures Distance(s, c, q) >= 0 { DistanceBound(s, c, q); }
  }

  lemma {:induction false} ScanFrame(s: State, block: nat, offset: nat)
    requires Blocks(s.blocks) && offset % PAGE == 0 && IsPage(s.blocks, block, offset / PAGE)
    ensures (s.blocks[block].offset + offset) / PAGE == s.blocks[block].Frame(offset / PAGE)
  {
    assert s.blocks[block].Formed();
  }

  lemma {:induction false} ScanFinds(s: State, block: nat, offset: nat, k: nat)
    requires ScanAt(s, block, offset, k) && k < Total(s.blocks) && PageDirty(s, block, offset / PAGE)
    ensures FirstDirty(s, block, offset / PAGE)
  {
    AtDistance(s, block, offset / PAGE, k);
  }

  /** A turn that finds its page clean. */
  lemma {:induction false} ScanTurn(s: State, block: nat, offset: nat, k: nat, block': nat, offset': nat,
                                    scanning: bool)
    requires ScanAt(s, block, offset, k) && k < Total(s.blocks) && !PageDirty(s, block, offset / PAGE)
             && s.lastBlock.Some?
    requires if offset + PAGE < s.blocks[block].Length() then block' == block && offset' == offset + PAGE
             else offset' == 0 && block' == if block + 1 < |s.blocks| then block + 1 else 0
    requires block' < |s.blocks|
    requires scanning == (s.blocks[block'].offset + offset' != s.blocks[s.lastBlock.value].offset + s.lastOffset)
    ensures ScanAt(s, block', offset', k + 1) && (scanning <==> k + 1 < Total(s.blocks))
  {
    AtDistance(s, block, offset / PAGE, k);
    CleanMore(s, k, block, offset / PAGE);
    PositionBound(s.blocks, CursorBlock(s), s.lastOffset / PAGE);
    Advance(s.blocks, block, offset / PAGE, Cursor(s), k, block', offset' / PAGE);
    BackAtCursor(s, block', offset', k + 1, scanning);
  }

  /** A full circle ends at the cursor with nothing dirty anywhere. */
  lemma {:induction false} ScanDone(s: State, block: nat, offset: nat)
    requires ScanAt(s, block, offset, Total(s.blocks)) && s.lastBlock.Some?
    ensures NoDirty(s) && block == s.lastBlock.value && offset == s.lastOffset
  {
    CleanAll(s);
    PositionUnique(s.blocks, block, offset / PAGE, s.lastBlock.value, s.lastOffset / PAGE);
  }

  lemma {:induction false} ScanFacts(s: State, block: nat, offset: nat, k: nat)
    requires Inv(s) && ScanAt(s, block, offset, k)
    ensures offset % PAGE == 0 && IsPage(s.blocks, block, offset / PAGE)
    ensures (s.blocks[block].offset + offset) / PAGE == s.blocks[block].Frame(offset / PAGE)
    ensures s.lastBlock.Some? ==> s.lastBlock.value < |s.blocks|
    ensures s.lastBlock.None? ==> PageDirty(s, block, offset / PAGE)
  {
    ScanFrame(s, block, offset);
  }

  lemma {:induction false} NothingSaved(s: State)
    requires NoDirty(s)
    ensures SaveResult(s, s)
  {
  }

  lemma {:induction false} Sending(s: State, b: nat, p: nat)
    requires Inv(s) && FirstDirty(s, b, p)
    ensures |s.blocks[b].host[p]| == PAGE && Inv(SendPage(s, b, p)) && SaveResult(s, SendPage(s, b, p))
    ensures !NoDirty(s) && |SendPage(s, b, p).dirty| == |s.dirty| - 1
  {
    SendKeepsInv(s, b, p);
    SaveShrinks(s, b, p);
  }

  class Sender {
    var blocks: seq<RAMBlock>
    var dirty: set<nat>
    var lastBlock: Option<nat>
    var lastOffset: nat
    var bytesTransferred: nat
    var stream: seq<Record>
    ghost var rx0: Receiver

    ghost function St(): State
      reads this
    {
      State(blocks, dirty, lastBlock, lastOffset, stream, rx0)
    }

    /** ram_save_block (arch_init.c:113-175).  The loop test reads last_block only when it
        is not NULL: with NULL every page is dirty and the first turn sends. */
    method SaveBlock() returns (bytesSent: nat)
      requires Inv(St())
      modifies this`dirty, this`lastBlock, this`lastOffset, this`stream
      ensures Inv(St()) && SaveResult(old(St()), St())
      ensures bytesSent == 0 <==> NoDirty(old(St()))
      ensures bytesSent == 0 ==> St() == old(St())
      ensures bytesSent > 0 ==> |dirty| == |old(dirty)| - 1
    {
      ghost var s := St();
      var block: nat := if lastBlock.None? then 0 else lastBlock.value;
      var offset: nat := lastOffset;
      ghost var k := 0;
      ScanStart(s);
      hide Inv, SaveResult, NoDirty, FirstDirty, ScanAt, Total, PageDirty;
      var scanning := true;
      while scanning
        invariant St() == s && Inv(s) && ScanAt(s, block, offset, k) && s.lastBlock == lastBlock
        invariant k <= Total(s.blocks) && (scanning <==> k < Total(s.blocks)) && (k > 0 ==> lastBlock.Some?)
        decreases Total(s.blocks) - k, scanning
      {
        ScanFacts(s, block, offset, k);
        if (blocks[block].offset + offset) / PAGE in dirty {
          ScanFinds(s, block, offset, k);
          bytesSent := Send(block, offset);
          return;
        }
        assert lastBlock.Some?;
        ghost var b, o := block, offset;
        block, offset, scanning := NextPage(block, offset);
        ScanTurn(s, b, o, k, block, offset, scanning);
        k := k + 1;
      }
      ScanDone(s, block, offset);
      lastBlock := Some(block);
      lastOffset := offset;
      bytesSent := 0;
      assert St() == s;
      NothingSaved(s);
    }

    /** Step to the next page, block by block and around, and compare with where the scan began
        (arch_init.c:159-169). */
    method NextPage(block: nat, offset: nat) returns (block': nat, offset': nat, scanning: bool)
      requires block < |blocks| && lastBlock.Some? && lastBlock.value < |blocks|
      ensures if offset + PAGE < blocks[block].Length() then block' == block && offset' == offset + PAGE
              else offset' == 0 && block' == if block + 1 < |blocks| then block + 1 else 0
      ensures block' < |blocks|
      ensures scanning == (blocks[block'].offset + offset' != blocks[lastBlock.value].offset + lastOffset)
    {
      block', offset' := block, offset + PAGE;
      if offset' >= blocks[block].Length() {
        offset' := 0;
        block' := if block + 1 < |blocks| then block + 1 else 0;
      }
      scanning := blocks[block'].offset + offset' != blocks[lastBlock.value].offset + lastOffset;
    }

    /** The dirty branch of the scan (arch_init.c:127-156, 171-172). */
    method Send(block: nat, offset: nat) returns (bytesSent: nat)
      requires Inv(St()) && offset % PAGE == 0 && FirstDirty(St(), block, offset / PAGE)
      modifies this`dirty, this`lastBlock, this`lastOffset, this`stream
      ensures Inv(St()) && SaveResult(old(St()), St())
      ensures !NoDirty(old(St())) && bytesSent > 0 && |dirty| == |old(dirty)| - 1
    {
      var p, frame := offset / PAGE, (blocks[block].offset + offset) / PAGE;
      assert offset == p * PAGE;
      Sending(St(), block, p);
      ScanFrame(St(), block, offset);
      hide *;
      bytesSent := EmitPage(block, p, frame);
    }

    method EmitPage(block: nat, p: nat, frame: nat) returns (bytesSent: nat)
      requires IsPage(blocks, block, p) && |blocks[block].host[p]| == PAGE && frame == blocks[block].Frame(p)
      modifies this`dirty, this`lastBlock, this`lastOffset, this`stream
      ensures St() == SendPage(old(St()), block, p) && bytesSent > 0
    {
      var page := blocks[block].host[p];
      var cont := lastBlock == Some(block);
      var name := if cont then [] else [Name(blocks[block].id)];
      var flags := if cont then CONTINUE else 0;
      dirty := dirty - {frame};
      var dup := IsDupPage(page, page[0]);
      if dup {
        stream := stream + [Record(p * PAGE + (flags + COMPRESS), name + [Byte(page[0])])];
        bytesSent := 1;
      } else {
        stream := stream + [Record(p * PAGE + (flags + FULL_PAGE), name + [Bytes(page)])];
        bytesSent := PAGE;
      }
      assert stream == old(stream) + [RecordFor(old(St()), block, p)];
      lastBlock := Some(block);
      lastOffset := p * PAGE;
    }

    /** ram_save_remaining (arch_init.c:179-195): counts the dirty pages of all blocks. */
    method SaveRemaining() returns (count: nat)
      requires Blocks(blocks)
      ensures count == |DirtyFrames(St())|
      ensures count == 0 <==> NoDirty(St())
    {
      count := 0;
      ghost var seen: set<nat> := {};
      ghost var s := St();
      hide Counted, NoDirty;
      CountedNone(s);
      for b := 0 to |blocks|
        invariant St() == s && count == |seen| && Counted(s, seen, b, 0)
      {
        for p := 0 to |blocks[b].host|
          invariant St() == s && count == |seen| && Counted(s, seen, b, p)
        {
          CountedStep(s, seen, b, p);
          if blocks[b].Frame(p) in dirty {
            CountedFresh(s, seen, b, p);
            seen := seen + {blocks[b].Frame(p)};
            count := count + 1;
          }
        }
        CountedNextBlock(s, seen, b);
      }
      CountedAll(s, seen);
    }

    /** Stage 1 of ram_save_live up to the block list (arch_init.c:268-296). */
    method StageOne()
      requires Blocks(blocks) && Paired(blocks, rx0)
      modifies this
      ensures Inv(St()) && blocks == old(blocks) && rx0 == old(rx0)
      ensures AllDirty(St()) && stream == [SizeRecord(blocks)] && bytesTransferred == 0
    {
      bytesTransferred := 0;
      lastBlock := None;
      lastOffset := 0;
      for b := 0 to |blocks|
        invariant blocks == old(blocks) && rx0 == old(rx0) && lastBlock == None && lastOffset == 0
                  && bytesTransferred == 0
        invariant forall c: nat, q: nat :: IsPage(blocks, c, q) && c < b ==> blocks[c].Frame(q) in dirty
      {
        for p := 0 to |blocks[b].host|
          invariant blocks == old(blocks) && rx0 == old(rx0) && lastBlock == None && lastOffset == 0
                    && bytesTransferred == 0
          invariant forall c: nat, q: nat :: IsPage(blocks, c, q) && (c < b || (c == b && q < p))
                                             ==> blocks[c].Frame(q) in dirty
        {
          if blocks[b].Frame(p) !in dirty {
            dirty := dirty + {blocks[b].Frame(p)};
          }
        }
      }
      stream := [SizeRecord(blocks)];
      StageOneInv(St());
    }

    /** ram_save_live from its first loop on (arch_init.c:298-331), for stages 1, 2 and 3.
        After stage 3 nothing is dirty and the receiver has all of RAM. */
    method SaveLive(stage: int)
      requires Inv(St())
      modifies this`dirty, this`lastBlock, this`lastOffset, this`stream, this`bytesTransferred
      ensures Inv(St()) && bytesTransferred >= old(bytesTransferred)
      ensures stage == 3 ==> NoDirty(St()) && Arrived(St())
      ensures rx0 == old(rx0) && stream != [] && stream[|stream| - 1] == EosRecord()
    {
      hide Inv, SaveResult, NoDirty, Arrived;
      var limited: bool := *;
      while !limited
        invariant Inv(St()) && bytesTransferred >= old(bytesTransferred)
        decreases |dirty|, !limited
      {
        var sent := SaveBlock();
        bytesTransferred := bytesTransferred + sent;
        limited := *;
        if sent == 0 {
          limited := true;
        }
      }
      if stage == 3 {
        var sent := SaveBlock();
        while sent != 0
          invariant Inv(St()) && bytesTransferred >= old(bytesTransferred)
          invariant sent == 0 ==> NoDirty(St())
          decreases |dirty|, sent
        {
          bytesTransferred := bytesTransferred + sent;
          sent := SaveBlock();
        }
      }
      EndOfSection(St());
      stream := stream + [EosRecord()];
    }
  }

  /** Ending a section keeps everything. */
  lemma {:induction false} EndOfSection(s: State)
    requires Inv(s)
    ensures var t := s.(stream := s.stream + [EosRecord()]);
            Inv(t) && (NoDirty(s) ==> NoDirty(t) && Arrived(t))
  {
    NextKeepsInv(s, EndSection, s.(stream := s.stream + [EosRecord()]));
  }

  /** Frames of the dirty pages of the block list. */
  ghost function DirtyFrames(s: State): set<nat> {
    set f | f in s.dirty && IsFrame(s, f)
  }

  ghost predicate IsFrame(s: State, f: nat) {
    exists b: nat, p: nat :: IsPage(s.blocks, b, p) && s.blocks[b].Frame(p) == f
  }

  /** seen holds the dirty frames of the pages before (b, p) in list order. */
  ghost predicate Counted(s: State, seen: set<nat>, b: nat, p: nat) {
    && (forall f :: f in seen
                    ==> f in s.dirty && exists c: nat, q: nat :: IsPage(s.blocks, c, q) && Before(c, q, b, p)
                                                                 && s.blocks[c].Frame(q) == f)
    && (forall c: nat, q: nat :: IsPage(s.blocks, c, q) && Before(c, q, b, p) && PageDirty(s, c, q)
                                 ==> s.blocks[c].Frame(q) in seen)
  }

  predicate Before(c: nat, q: nat, b: nat, p: nat) { c < b || (c == b && q < p) }

  lemma {:induction false} CountedFresh(s: State, seen: set<nat>, b: nat, p: nat)
    requires Blocks(s.blocks) && IsPage(s.blocks, b, p) && Counted(s, seen, b, p)
    ensures s.blocks[b].Frame(p) !in seen
  {
    if s.blocks[b].Frame(p) in seen {
      var c: nat, q: nat :| IsPage(s.blocks, c, q) && Before(c, q, b, p)
                            && s.blocks[c].Frame(q) == s.blocks[b].Frame(p);
      FrameUnique(s.blocks, b, p, c, q);
    }
  }

  lemma {:induction false} CountedAll(s: State, seen: set<nat>)
    requires Counted(s, seen, |s.blocks|, 0)
    ensures seen == DirtyFrames(s) && (seen == {} <==> NoDirty(s))
  {
    assert forall c: nat, q: nat :: IsPage(s.blocks, c, q) ==> Before(c, q, |s.blocks|, 0);
  }

  lemma {:induction false} CountedNone(s: State)
    ensures Counted(s, {}, 0, 0)
  {
  }

  lemma {:induction false} CountedStep(s: State, seen: set<nat>, b: nat, p: nat)
    requires IsPage(s.blocks, b, p) && Counted(s, seen, b, p)
    ensures Counted(s, if PageDirty(s, b, p) then seen + {s.blocks[b].Frame(p)} else seen, b, p + 1)
  {
    var now := if PageDirty(s, b, p) then seen + {s.blocks[b].Frame(p)} else seen;
    forall f | f in now
      ensures f in s.dirty && exists c: nat, q: nat :: IsPage(s.blocks, c, q) && Before(c, q, b, p + 1)
                                                       && s.blocks[c].Frame(q) == f
    {
      if f in seen {
        var c: nat, q: nat :| IsPage(s.blocks, c, q) && Before(c, q, b, p) && s.blocks[c].Frame(q) == f;
        assert Before(c, q, b, p + 1);
      } else {
        assert Before(b, p, b, p + 1);
      }
    }
    forall c: nat, q: nat | IsPage(s.blocks, c, q) && Before(c, q, b, p + 1) && PageDirty(s, c, q)
      ensures s.blocks[c].Frame(q) in now
    {
      assert Before(c, q, b, p) || (c == b && q == p);
    }
  }

  lemma {:induction false} CountedNextBlock(s: State, seen: set<nat>, b: nat)
    requires b < |s.blocks| && Counted(s, seen, b, |s.blocks[b].host|)
    ensures Counted(s, seen, b + 1, 0)
  {
    forall f | f in seen
      ensures f in s.dirty && exists c: nat, q: nat :: IsPage(s.blocks, c, q) && Before(c, q, b + 1, 0)
                                                       && s.blocks[c].Frame(q) == f
    {
      var c: nat, q: nat :| IsPage(s.blocks, c, q) && Before(c, q, b, |s.blocks[b].host|) && s.blocks[c].Frame(q) == f;
      assert Before(c, q, b + 1, 0);
    }
    forall c: nat, q: nat | IsPage(s.blocks, c, q) && Before(c, q, b + 1, 0)
      ensures Before(c, q, b, |s.blocks[b].host|)
    {
    }
  }

  class Loader {
    var blocks: seq<RAMBlock>
    var block: Option<nat>

    function Rx(): Receiver
      reads this
    {
      Receiver(blocks, block)
    }

    /** ram_load (arch_init.c:368-458) on the records that have arrived: it stops after the
        first EOS record; the static block carries over to the next call. */
    method Load(stream: seq<Record>) returns (ok: bool, n: nat)
      modifies this
      ensures n <= |stream|
      ensures ok ==> Replay(old(Rx()), stream[..n]) == Ok(Rx()) && n > 0 && Ends(stream[n - 1])
      ensures forall i :: 0 <= i < n - 1 ==> !Ends(stream[i])
      // it fails only on a bad record or when the stream ends before EOS
      ensures !ok ==> n == |stream| || Replay(old(Rx()), stream[..n + 1]) == Bad
      ensures !ok ==> forall i :: 0 <= i < n ==> !Ends(stream[i])
    {
      n := 0;
      assert Replay(Rx(), stream[..0]) == Ok(Rx());
      hide Replay, RamStream.Load, Ends;
      while n < |stream|
        invariant n <= |stream| && Replay(old(Rx()), stream[..n]) == Ok(Rx())
        invariant forall i :: 0 <= i < n ==> !Ends(stream[i])
      {
        var r := RamStream.Load(Rx(), stream[n]);
        ReplaySnoc(old(Rx()), stream[..n], stream[n]);
        assert stream[..n] + [stream[n]] == stream[..n + 1];
        if r.Bad? {
          return false, n;
        }
        blocks, block := r.rx.blocks, r.rx.block;
        n := n + 1;
        if Ends(stream[n - 1]) {
          return true, n;
        }
      }
      ok := false;
    }

    /** The call of ram_load that finds the stream at record `at`. */
    method LoadNext(ghost rx0: Receiver, stream: seq<Record>, at: nat) returns (ok: bool, next: nat)
      requires at < |stream| && Replay(rx0, stream[..at]) == Ok(Rx())
      modifies this
      ensures ok ==> at < next <= |stream| && Sections(stream[..next]) && Replay(rx0, stream[..next]) == Ok(Rx())
      ensures !ok ==> !(Replay(rx0, stream).Ok? && Sections(stream))
    {
      hide *;
      ghost var rx := Rx();
      var n;
      ok, n := Load(stream[at..]);
      next := at + n;
      if ok {
        SectionLoaded(rx0, rx, Rx(), stream, at, n);
      } else {
        LoadStuck(rx0, rx, stream, at, n);
      }
    }

    /** Successive calls of ram_load on a stream of sections: they succeed exactly when the whole stream
        replays and ends a section, and then the receiver is where the replay leads. */
    method LoadSections(stream: seq<Record>) returns (ok: bool)
      modifies this
      ensures ok <==> Replay(old(Rx()), stream).Ok? && Sections(stream)
      ensures ok ==> Replay(old(Rx()), stream) == Ok(Rx())
    {
      var at := 0;
      ok := true;
      assert stream[..0] == [];
      while ok && at < |stream|
        invariant 0 <= at <= |stream|
        invariant ok ==> Sections(stream[..at]) && Replay(old(Rx()), stream[..at]) == Ok(Rx())
        invariant !ok ==> !(Replay(old(Rx()), stream).Ok? && Sections(stream))
        decreases ok, |stream| - at
      {
        hide *;
        var next;
        ok, next := LoadNext(old(Rx()), stream, at);
        at := if ok then next else at;
      }
      assert at == |stream| ==> stream[..at] == stream;
    }
  }

  /** A stream that ends with an end-of-section mark, or has not begun. */
  predicate Sections(stream: seq<Record>) {
    stream != [] ==> Ends(stream[|stream| - 1])
  }

  lemma {:induction false} ReplayConcat(rx: Receiver, a: seq<Record>, b: seq<Record>)
    ensures Replay(rx, a).Bad? ==> Replay(rx, a + b).Bad?
    ensures Replay(rx, a).Ok? ==> Replay(rx, a + b) == Replay(Replay(rx, a).rx, b)
    decreases |b|
  {
    if b == [] {
      assert a + b == a;
    } else {
      var init := b[..|b| - 1];
      ReplayConcat(rx, a, init);
      assert (a + b)[..|a + b| - 1] == a + init;
    }
  }

  lemma {:induction false} SectionLoaded(rx0: Receiver, rx: Receiver, next: Receiver, stream: seq<Record>, at: nat,
                                         n: nat)
    requires at + n <= |stream| && n > 0 && Replay(rx0, stream[..at]) == Ok(rx)
    requires Replay(rx, stream[at..][..n]) == Ok(next) && Ends(stream[at..][n - 1])
    ensures Replay(rx0, stream[..at + n]) == Ok(next) && Sections(stream[..at + n])
  {
    hide Replay, Ends;
    ReplayConcat(rx0, stream[..at], stream[at..][..n]);
    assert stream[..at] + stream[at..][..n] == stream[..at + n];
    assert stream[at..][n - 1] == stream[..at + n][at + n - 1];
  }

  /** A call that fails does so because the stream does not replay or stops inside a section. */
  lemma {:induction false} LoadStuck(rx0: Receiver, rx: Receiver, stream: seq<Record>, at: nat, n: nat)
    requires at < |stream| && n <= |stream| - at && Replay(rx0, stream[..at]) == Ok(rx)
    requires n == |stream| - at || Replay(rx, stream[at..][..n + 1]) == Bad
    requires forall i :: 0 <= i < n ==> !Ends(stream[at..][i])
    ensures !(Replay(rx0, stream).Ok? && Sections(stream))
  {
    hide Ends;
    if n == |stream| - at {
      assert stream[at..][n - 1] == stream[|stream| - 1];
    } else {
      ReplayConcat(rx0, stream[..at], stream[at..at + n + 1]);
      assert stream[at..][..n + 1] == stream[at..at + n + 1];
      ReplayConcat(rx0, stream[..at] + stream[at..at + n + 1], stream[at + n + 1..]);
      assert stream[..at] + stream[at..at + n + 1] + stream[at + n + 1..] == stream;
    }
  }

  /** Stage 3 on the source, then ram_load over everything that was sent: the destination's blocks hold
      the source's RAM. */
  method FinishMigration(src: Sender, dst: Loader) returns (ok: bool)
    requires Inv(src.St()) && dst.Rx() == src.rx0
    modifies src, dst
    ensures ok && Paired(src.blocks, dst.Rx())
    ensures forall b: nat, p: nat :: IsPage(src.blocks, b, p)
                                     ==> Copy(src.blocks, dst.Rx(), b, p) == src.blocks[b].host[p]
  {
    src.SaveLive(3);
    assert Ends(EosRecord());
    hide Inv;
    ok := dst.LoadSections(src.stream);
  }
}
