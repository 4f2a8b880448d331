/** Live migration of RAM (arch_init.c): ram_save_block as a complete cyclic scan,
    agreement of sender and receiver on the current block, and convergence for every
    interleaving of guest writes with the three stages. */
module RamMigration {
  import opened Common
  import Bitmap
  import opened RamStream

  // ------------------------------------------------------------- page order

  /** Pages of the blocks before b, in list order. */
  function Base(bs: seq<RAMBlock>, b: nat): nat
    requires b <= |bs|
  {
    if b == 0 then 0 else Base(bs, b - 1) + |bs[b - 1].host|
  }

  function Total(bs: seq<RAMBlock>): nat { Base(bs, |bs|) }

  lemma {:induction false} BaseMonotone(bs: seq<RAMBlock>, b: nat, c: nat)
    requires b <= c <= |bs|
    ensures Base(bs, b) <= Base(bs, c)
    ensures b < c ==> Base(bs, b) + |bs[b].host| <= Base(bs, c)
  {
    if b < c {
      if b < c - 1 { BaseMonotone(bs, b, c - 1); }
    }
  }

  predicate IsPage(bs: seq<RAMBlock>, b: nat, p: nat) { b < |bs| && p < |bs[b].host| }

  /** Position of a page in list order. */
  function Position(bs: seq<RAMBlock>, b: nat, p: nat): nat
    requires IsPage(bs, b, p)
  {
    Base(bs, b) + p
  }

  lemma {:induction false} PositionBound(bs: seq<RAMBlock>, b: nat, p: nat)
    requires IsPage(bs, b, p)
    ensures Position(bs, b, p) < Total(bs)
  {
    BaseMonotone(bs, b, |bs|);
  }

  lemma {:induction false} PositionUnique(bs: seq<RAMBlock>, b: nat, p: nat, c: nat, q: nat)
    requires IsPage(bs, b, p) && IsPage(bs, c, q) && Position(bs, b, p) == Position(bs, c, q)
    ensures b == c && p == q
  {
    if b < c { BaseMonotone(bs, b, c); }
    if c < b { BaseMonotone(bs, c, b); }
  }

  /** Distinct pages have distinct frames, so comparing addresses compares pages. */
  lemma {:induction false} FrameUnique(bs: seq<RAMBlock>, b: nat, p: nat, c: nat, q: nat)
    requires Blocks(bs) && IsPage(bs, b, p) && IsPage(bs, c, q)
    ensures bs[b].Frame(p) == bs[c].Frame(q) <==> b == c && p == q
  {
    assert bs[b].Formed() && bs[c].Formed();
    if b < c { assert Disjoint(bs[b], bs[c]); }
    if c < b { assert Disjoint(bs[c], bs[b]); }
  }

  /** The page reached from position `start` after k steps of the cyclic scan. */
  function Around(total: nat, start: nat, k: nat): nat {
    if start + k < total then start + k else start + k - total
  }

  // ------------------------------------------------------------------ sender

  /** ram_list with its dirty map, the statics of ram_save_block, the records emitted so
      far and the receiver as it was before the first of them. */
  datatype State = State(
    blocks: seq<RAMBlock>, dirty: set<nat>, lastBlock: Option<nat>, lastOffset: nat,
    stream: seq<Record>, rx0: Receiver)

  predicate PageDirty(s: State, b: nat, p: nat)
    requires IsPage(s.blocks, b, p)
  {
    s.blocks[b].Frame(p) in s.dirty
  }

  /** Where ram_save_block starts looking (arch_init.c:115-123). */
  function CursorBlock(s: State): nat { if s.lastBlock.None? then 0 else s.lastBlock.value }

  predicate CursorOk(s: State) {
    s.lastOffset % PAGE == 0 && IsPage(s.blocks, CursorBlock(s), s.lastOffset / PAGE)
  }

  function Cursor(s: State): nat
    requires CursorOk(s)
  {
    Position(s.blocks, CursorBlock(s), s.lastOffset / PAGE)
  }

  /** Steps of the cyclic scan from the cursor to a page. */
  function Distance(s: State, b: nat, p: nat): int
    requires CursorOk(s) && IsPage(s.blocks, b, p)
  {
    var pos := Position(s.blocks, b, p);
    if pos >= Cursor(s) then pos - Cursor(s) else pos - Cursor(s) + Total(s.blocks)
  }

  ghost predicate NoDirty(s: State) {
    forall b: nat, p: nat :: IsPage(s.blocks, b, p) ==> !PageDirty(s, b, p)
  }

  ghost predicate AllDirty(s: State) {
    forall b: nat, p: nat :: IsPage(s.blocks, b, p) ==> PageDirty(s, b, p)
  }

  /** The first dirty page at or cyclically after the cursor. */
  ghost predicate FirstDirty(s: State, b: nat, p: nat) {
    && CursorOk(s) && IsPage(s.blocks, b, p) && PageDirty(s, b, p)
    && forall c: nat, q: nat :: IsPage(s.blocks, c, q) && PageDirty(s, c, q) ==> Distance(s, b, p) <= Distance(s, c, q)
  }

  predicate IsDup(page: Page) { |page| > 0 && forall k :: 0 <= k < |page| ==> page[k] == page[0] }

  /** The record for a page (arch_init.c:128-154). */
  function RecordFor(s: State, b: nat, p: nat): Record
    requires IsPage(s.blocks, b, p) && |s.blocks[b].host[p]| == PAGE
  {
    var page := s.blocks[b].host[p];
    var cont := s.lastBlock == Some(b);
    var flags := (if cont then CONTINUE else 0) + (if IsDup(page) then COMPRESS else FULL_PAGE);
    Record(p * PAGE + flags,
           (if cont then [] else [Name(s.blocks[b].id)]) + [if IsDup(page) then Byte(page[0]) else Bytes(page)])
  }

  function SendPage(s: State, b: nat, p: nat): State
    requires IsPage(s.blocks, b, p) && |s.blocks[b].host[p]| == PAGE
  {
    s.(dirty := s.dirty - {s.blocks[b].Frame(p)}, lastBlock := Some(b), lastOffset := p * PAGE,
       stream := s.stream + [RecordFor(s, b, p)])
  }

  // --------------------------------------------------------------- invariant

  function Peer(rx: Receiver, id: string): Option<nat> { Find(rx.blocks, id) }

  /** The receiver has every block, with as many pages. */
  predicate Paired(bs: seq<RAMBlock>, rx: Receiver) {
    forall b :: 0 <= b < |bs| ==>
      Peer(rx, bs[b].id).Some? && |rx.blocks[Peer(rx, bs[b].id).value].host| == |bs[b].host|
  }

  function Copy(bs: seq<RAMBlock>, rx: Receiver, b: nat, p: nat): Page
    requires Paired(bs, rx) && IsPage(bs, b, p)
  {
    rx.blocks[Peer(rx, bs[b].id).value].host[p]
  }

  /** Once the sender has a last_block, it is the receiver's static block; before that the next record
      names its block, so what an earlier load left in the static block does not matter. */
  predicate SameBlock(s: State, rx: Receiver) {
    s.lastBlock.Some? ==> s.lastBlock.value < |s.blocks| && rx.block == Peer(rx, s.blocks[s.lastBlock.value].id)
  }

  ghost predicate CleanCopied(s: State, rx: Receiver)
    requires Paired(s.blocks, rx)
  {
    forall b: nat, p: nat :: IsPage(s.blocks, b, p) && !PageDirty(s, b, p)
        ==> Copy(s.blocks, rx, b, p) == s.blocks[b].host[p]
  }

  ghost predicate Inv(s: State) {
    && Blocks(s.blocks) && CursorOk(s)
    && (s.lastBlock.None? ==> AllDirty(s))
    && Replay(s.rx0, s.stream).Ok?
    && Paired(s.blocks, Replay(s.rx0, s.stream).rx)
    && SameBlock(s, Replay(s.rx0, s.stream).rx)
    && CleanCopied(s, Replay(s.rx0, s.stream).rx)
  }

  lemma {:induction false} FindSame(bs: seq<RAMBlock>, cs: seq<RAMBlock>, id: string)
    requires |bs| == |cs| && forall b :: 0 <= b < |bs| ==> bs[b].id == cs[b].id
    ensures Find(bs, id) == Find(cs, id)
  {
    if bs != [] { FindSame(bs[1..], cs[1..], id); }
  }

  /** Storing a page keeps the pairing and changes exactly that copy. */
  lemma {:induction false} StoreCopy(bs: seq<RAMBlock>, rx: Receiver, b: nat, p: nat, page: Page)
    requires Blocks(bs) && Paired(bs, rx) && IsPage(bs, b, p)
    ensures var r := StorePage(rx, Peer(rx, bs[b].id).value, p * PAGE, page);
            && r.Ok? && Paired(bs, r.rx) && r.rx.block == Peer(rx, bs[b].id)
            && (forall c :: 0 <= c < |bs| ==> Peer(r.rx, bs[c].id) == Peer(rx, bs[c].id))
            && (forall c: nat, q: nat :: IsPage(bs, c, q) ==>
                  Copy(bs, r.rx, c, q) == if c == b && q == p then page else Copy(bs, rx, c, q))
  {
    var m := Peer(rx, bs[b].id).value;
    var r := StorePage(rx, m, p * PAGE, page);
    assert p * PAGE / PAGE == p;
    forall c | 0 <= c < |bs| ensures Peer(r.rx, bs[c].id) == Peer(rx, bs[c].id) {
      FindSame(rx.blocks, r.rx.blocks, bs[c].id);
    }
    assert forall c :: 0 <= c < |bs| && c != b ==> bs[c].id != bs[b].id;
  }

  /** The header is written as a bitwise or of page address and flags; they share no bit, so it is
      their sum. */
  lemma {:induction false} HeaderIsOr(address: seq<bool>, flagBits: seq<bool>, p: nat, flags: nat)
    requires |address| == |flagBits| && Bitmap.Value(address) == p * PAGE && Bitmap.Value(flagBits) == flags < PAGE
    ensures Bitmap.Value(Bitmap.OrBits(address, flagBits)) == p * PAGE + flags
  {
    PageIsPow2();
    Bitmap.LowClear(address, 12);
    Bitmap.HighClear(flagBits, 12);
    Bitmap.OrIsSum(address, flagBits);
  }

  lemma {:induction false} PageIsPow2()
    ensures Bitmap.Pow2(12) == PAGE
  {
    assert Bitmap.Pow2(4) == 16;
    assert Bitmap.Pow2(8) == 256;
  }

  lemma {:induction false} HeaderDecodes(p: nat, flags: nat)
    requires flags in {COMPRESS, FULL_PAGE, CONTINUE + COMPRESS, CONTINUE + FULL_PAGE}
    ensures (p * PAGE + flags) % PAGE == flags
    ensures !IsMemSize(flags)
    ensures IsCompress(flags) <==> flags == COMPRESS || flags == CONTINUE + COMPRESS
    ensures IsFullPage(flags) <==> flags == FULL_PAGE || flags == CONTINUE + FULL_PAGE
    ensures IsContinue(flags) <==> flags >= CONTINUE
  {
  }

  /** A page record always decodes to its own block and page, whether it names the block
      or continues the previous one. */
  lemma {:induction false} RecordDecodes(s: State, rx: Receiver, b: nat, p: nat)
    requires Blocks(s.blocks) && Paired(s.blocks, rx) && SameBlock(s, rx) && IsPage(s.blocks, b, p)
    requires |s.blocks[b].host[p]| == PAGE
    ensures Load(rx, RecordFor(s, b, p)) == StorePage(rx, Peer(rx, s.blocks[b].id).value, p * PAGE, s.blocks[b].host[p])
  {
    var page, r := s.blocks[b].host[p], RecordFor(s, b, p);
    HeaderDecodes(p, r.header - p * PAGE);
    if IsDup(page) { assert Filled(page[0]) == page; }
  }

  lemma {:induction false} SendKeepsInv(s: State, b: nat, p: nat)
    requires Inv(s) && IsPage(s.blocks, b, p) && PageDirty(s, b, p)
    ensures |s.blocks[b].host[p]| == PAGE && Inv(SendPage(s, b, p))
  {
    assert s.blocks[b].Formed();
    var rx, t := Replay(s.rx0, s.stream).rx, SendPage(s, b, p);
    RecordDecodes(s, rx, b, p);
    ReplaySnoc(s.rx0, s.stream, RecordFor(s, b, p));
    StoreCopy(s.blocks, rx, b, p, s.blocks[b].host[p]);
    assert t.lastOffset / PAGE == p;
    var rx' := Replay(t.rx0, t.stream).rx;
    forall c: nat, q: nat | IsPage(t.blocks, c, q) && !PageDirty(t, c, q)
      ensures Copy(t.blocks, rx', c, q) == t.blocks[c].host[q]
    {
      if c != b || q != p { FrameUnique(s.blocks, b, p, c, q); }
    }
  }

  // -------------------------------------------------------------------- runs

  datatype Event =
    | GuestWrite(b: nat, p: nat, page: Page)  // the guest stores to a page; its dirty flags are set
    | SaveBlock                               // ram_save_block
    | EndSection                              // the EOS record of a ram_save_live call

  function EosRecord(): Record { Record(EOS, []) }

  /** One event, taken in any order: stages 1, 2 and 3 are SaveBlock and EndSection events
      with guest writes in between. */
  ghost predicate Next(s: State, e: Event, t: State) {
    match e
    case GuestWrite(b, p, page) =>
      && IsPage(s.blocks, b, p) && |page| == PAGE
      && t == s.(blocks := s.blocks[b := s.blocks[b].(host := s.blocks[b].host[p := page])],
                 dirty := s.dirty + {s.blocks[b].Frame(p)})
    case SaveBlock => SaveResult(s, t)
    case EndSection => t == s.(stream := s.stream + [EosRecord()])
  }

  /** What ram_save_block may do: nothing if no page is dirty, otherwise send and clean
      the first dirty page of the cyclic scan. */
  ghost predicate SaveResult(s: State, t: State) {
    || (NoDirty(s) && t == s)
    || exists b: nat, p: nat :: FirstDirty(s, b, p) && |s.blocks[b].host[p]| == PAGE && t == SendPage(s, b, p)
  }

  /** Same names, places and sizes. */
  predicate SameLayout(bs: seq<RAMBlock>, cs: seq<RAMBlock>) {
    && |bs| == |cs|
    && forall b :: 0 <= b < |bs| ==> bs[b].id == cs[b].id && bs[b].offset == cs[b].offset
                                     && |bs[b].host| == |cs[b].host|
  }

  lemma {:induction false} LayoutBlocks(bs: seq<RAMBlock>, cs: seq<RAMBlock>)
    requires Blocks(bs) && SameLayout(bs, cs) && forall b :: 0 <= b < |cs| ==> cs[b].Formed()
    ensures Blocks(cs)
  {
    forall b, c | 0 <= b < c < |cs| ensures Disjoint(cs[b], cs[c]) && cs[b].id != cs[c].id {
      assert Disjoint(bs[b], bs[c]) && bs[b].id != bs[c].id;
    }
  }

  lemma {:induction false} GuestKeepsInv(s: State, b: nat, p: nat, page: Page, t: State)
    requires Inv(s) && Next(s, GuestWrite(b, p, page), t)
    ensures Inv(t)
  {
    var rx := Replay(s.rx0, s.stream).rx;
    GuestLayout(s, b, p, page, t);
    LayoutBlocks(s.blocks, t.blocks);
    GuestCursor(s, t);
    GuestCopies(s, b, p, page, t, rx);
    GuestBlocks(s, b, p, page, t, rx);
    hide Replay, Blocks, CursorOk, AllDirty, Paired, SameBlock, CleanCopied, SameLayout;
  }

  lemma {:induction false} GuestLayout(s: State, b: nat, p: nat, page: Page, t: State)
    requires Blocks(s.blocks) && Next(s, GuestWrite(b, p, page), t)
    ensures SameLayout(s.blocks, t.blocks)
  {
    assert s.blocks[b].Formed();
  }

  lemma {:induction false} GuestBlocks(s: State, b: nat, p: nat, page: Page, t: State, rx: Receiver)
    requires Next(s, GuestWrite(b, p, page), t) && SameLayout(s.blocks, t.blocks)
    ensures AllDirty(s) ==> AllDirty(t)
    ensures SameBlock(s, rx) ==> SameBlock(t, rx)
  {
    if AllDirty(s) {
      forall c: nat, q: nat | IsPage(t.blocks, c, q)
        ensures PageDirty(t, c, q)
      {
        assert IsPage(s.blocks, c, q) && PageDirty(s, c, q);
      }
    }
  }

  lemma {:induction false} GuestCopies(s: State, b: nat, p: nat, page: Page, t: State, rx: Receiver)
    requires Next(s, GuestWrite(b, p, page), t) && SameLayout(s.blocks, t.blocks)
    requires Paired(s.blocks, rx) && CleanCopied(s, rx)
    ensures Paired(t.blocks, rx) && CleanCopied(t, rx)
  {
    forall c: nat, q: nat | IsPage(t.blocks, c, q) && !PageDirty(t, c, q)
      ensures Copy(t.blocks, rx, c, q) == t.blocks[c].host[q]
    {
      assert IsPage(s.blocks, c, q) && !PageDirty(s, c, q);
    }
  }

  lemma {:induction false} GuestCursor(s: State, t: State)
    requires CursorOk(s) && t.lastBlock == s.lastBlock && t.lastOffset == s.lastOffset
    requires |t.blocks| == |s.blocks| && forall c :: 0 <= c < |t.blocks| ==> |t.blocks[c].host| == |s.blocks[c].host|
    ensures CursorOk(t)
  {
  }

  lemma {:induction false} EosDecodes(rx: Receiver)
    ensures Load(rx, EosRecord()) == Ok(rx)
  {
  }

  lemma {:induction false} NextKeepsInv(s: State, e: Event, t: State)
    requires Inv(s) && Next(s, e, t)
    ensures Inv(t)
  {
    match e
    case GuestWrite(b, p, page) => GuestKeepsInv(s, b, p, page, t);
    case SaveBlock =>
      if !NoDirty(s) || t != s {
        var b: nat, p: nat :| FirstDirty(s, b, p) && |s.blocks[b].host[p]| == PAGE && t == SendPage(s, b, p);
        SendKeepsInv(s, b, p);
      }
    case EndSection =>
      ReplaySnoc(s.rx0, s.stream, EosRecord());
      EosDecodes(Replay(s.rx0, s.stream).rx);
  }

  ghost predicate Run(states: seq<State>, events: seq<Event>) {
    && |states| == |events| + 1
    && forall i :: 0 <= i < |events| ==> Next(states[i], events[i], states[i + 1])
  }

  lemma {:induction false} RunKeepsInv(states: seq<State>, events: seq<Event>, n: nat)
    requires Run(states, events) && Inv(states[0]) && n < |states|
    ensures Inv(states[n])
  {
    if n > 0 {
      RunKeepsInv(states, events, n - 1);
      NextKeepsInv(states[n - 1], events[n - 1], states[n]);
    }
  }

  /** Destination RAM equals source RAM. */
  ghost predicate Arrived(s: State) {
    && Replay(s.rx0, s.stream).Ok? && Paired(s.blocks, Replay(s.rx0, s.stream).rx)
    && forall b: nat, p: nat :: IsPage(s.blocks, b, p)
        ==> Copy(s.blocks, Replay(s.rx0, s.stream).rx, b, p) == s.blocks[b].host[p]
  }

  /** MAIN RESULT.  After any interleaving of guest writes with the calls of stages 1 to 3,
      as soon as no page is dirty the replayed stream is the source's RAM; and at every
      moment the receiver's static block is the sender's last_block. */
  lemma {:induction false} Converges(states: seq<State>, events: seq<Event>)
    requires Run(states, events) && Inv(states[0])
    ensures forall i :: 0 <= i < |states| ==>
              && Replay(states[i].rx0, states[i].stream).Ok?
              && SameBlock(states[i], Replay(states[i].rx0, states[i].stream).rx)
              && (states[i].lastBlock.None? ==> AllDirty(states[i]))
              && (NoDirty(states[i]) ==> Arrived(states[i]))
  {
    forall i | 0 <= i < |states| ensures Inv(states[i]) { RunKeepsInv(states, events, i); }
  }

  /** A page is never sent while the list is clean, and a page is never dirty twice over:
      each SaveBlock that sends lowers the number of dirty pages by exactly one. */
  lemma {:induction false} SaveShrinks(s: State, b: nat, p: nat)
    requires Blocks(s.blocks) && IsPage(s.blocks, b, p) && PageDirty(s, b, p) && |s.blocks[b].host[p]| == PAGE
    ensures |SendPage(s, b, p).dirty| == |s.dirty| - 1
  {
  }

  // ---------------------------------------------------------------- stage 1

  /** Names and lengths of the blocks from the i-th on (arch_init.c:291-295). */
  function BlockList(bs: seq<RAMBlock>): seq<Field> {
    if bs == [] then [] else [Name(bs[0].id), Size(bs[0].Length())] + BlockList(bs[1..])
  }

  /** ram_bytes_total (arch_init.c:207-216). */
  function BytesTotal(bs: seq<RAMBlock>): nat {
    if bs == [] then 0 else bs[0].Length() + BytesTotal(bs[1..])
  }

  function SizeRecord(bs: seq<RAMBlock>): Record { Record(BytesTotal(bs) + MEM_SIZE, BlockList(bs)) }

  lemma {:induction false} BlockListChecks(bs: seq<RAMBlock>, rx: Receiver)
    requires (forall b :: 0 <= b < |bs| ==> bs[b].Formed()) && Paired(bs, rx)
    ensures CheckBlockList(rx.blocks, BytesTotal(bs), BlockList(bs)) == Some([])
  {
    if bs != [] {
      assert bs[0].Formed() && Peer(rx, bs[0].id).Some?;
      var tail := bs[1..];
      assert Paired(tail, rx) by {
        assert forall b :: 0 <= b < |tail| ==> tail[b] == bs[b + 1];
      }
      BlockListChecks(tail, rx);
      hide *;
      BlockListStep(bs, rx);
    }
  }

  lemma {:induction false} BlockListStep(bs: seq<RAMBlock>, rx: Receiver)
    requires bs != [] && bs[0].Formed() && Peer(rx, bs[0].id).Some?
    requires |rx.blocks[Peer(rx, bs[0].id).value].host| == |bs[0].host|
    ensures CheckBlockList(rx.blocks, BytesTotal(bs), BlockList(bs))
            == CheckBlockList(rx.blocks, BytesTotal(bs[1..]), BlockList(bs[1..]))
  {
    assert BlockList(bs)[2..] == BlockList(bs[1..]);
    assert bs[0].Length() > 0;
  }

  lemma {:induction false} TotalIsPages(bs: seq<RAMBlock>)
    ensures BytesTotal(bs) % PAGE == 0
  {
    if bs != [] {
      TotalIsPages(bs[1..]);
    }
  }

  /** A receiver with the same blocks accepts the size record and stays unchanged. */
  lemma {:induction false} SizeRecordLoads(bs: seq<RAMBlock>, rx: Receiver)
    requires Blocks(bs) && Paired(bs, rx)
    ensures Load(rx, SizeRecord(bs)) == Ok(rx)
  {
    BlockListChecks(bs, rx);
    TotalIsPages(bs);
    hide CheckBlockList, BytesTotal, BlockList, Blocks, Paired, LoadPage, Load;
    SizeLoads(rx, BytesTotal(bs), BlockList(bs));
  }

  lemma {:induction false} SizeLoads(rx: Receiver, total: nat, fields: seq<Field>)
    requires total % PAGE == 0 && CheckBlockList(rx.blocks, total, fields) == Some([])
    ensures Load(rx, Record(total + MEM_SIZE, fields)) == Ok(rx)
  {
    SizeFlags(total);
    NoPage(rx, total);
    hide CheckBlockList, LoadPage, IsMemSize;
  }

  lemma {:induction false} SizeFlags(total: nat)
    requires total % PAGE == 0
    ensures (total + MEM_SIZE) % PAGE == MEM_SIZE && IsMemSize(MEM_SIZE)
  {
  }

  lemma {:induction false} NoPage(rx: Receiver, addr: nat)
    ensures LoadPage(rx, MEM_SIZE, addr, []) == Ok(rx)
  {
  }

  /** The state stage 1 sets up satisfies the invariant. */
  lemma {:induction false} StageOneInv(s: State)
    requires Blocks(s.blocks) && AllDirty(s) && s.lastBlock == None && s.lastOffset == 0
    requires s.stream == [SizeRecord(s.blocks)] && Paired(s.blocks, s.rx0)
    ensures Inv(s)
  {
    SizeRecordLoads(s.blocks, s.rx0);
    ReplaySnoc(s.rx0, [], SizeRecord(s.blocks));
    assert [] + [SizeRecord(s.blocks)] == s.stream;
    assert s.blocks[0].Formed();
  }
}
