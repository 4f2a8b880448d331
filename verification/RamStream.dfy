/** RAM blocks and the records ram_save_live and ram_load exchange (arch_init.c). */
module RamStream {
  import opened Common

  // TARGET_PAGE_SIZE for the targets with 12 page bits
  const PAGE: nat := 4096

  // RAM_SAVE_FLAG_* (arch_init.c:88-93)
  const COMPRESS: nat := 0x02
  const MEM_SIZE: nat := 0x04
  const FULL_PAGE: nat := 0x08
  const EOS: nat := 0x10
  const CONTINUE: nat := 0x20

  type Page = seq<bv8>

  datatype RAMBlock = RAMBlock(id: string, offset: nat, host: seq<Page>) {
    function Length(): nat { |host| * PAGE }

    /** Page number of a page of this block in the physical dirty map. */
    function Frame(page: nat): nat { offset / PAGE + page }

    predicate Formed() {
      && offset % PAGE == 0 && |host| > 0 && |id| < 256
      && forall p :: 0 <= p < |host| ==> |host[p]| == PAGE
    }
  }

  predicate Disjoint(a: RAMBlock, b: RAMBlock) {
    a.offset + a.Length() <= b.offset || b.offset + b.Length() <= a.offset
  }

  /** What the machine guarantees of its block list: page-aligned, non-empty, disjoint
      blocks with distinct names. */
  predicate Blocks(bs: seq<RAMBlock>) {
    && |bs| > 0
    && (forall b :: 0 <= b < |bs| ==> bs[b].Formed())
    && (forall b, c :: 0 <= b < c < |bs| ==> Disjoint(bs[b], bs[c]) && bs[b].id != bs[c].id)
  }

  /** What follows a record's 64-bit header on the wire. */
  datatype Field =
    | Name(id: string)          // length byte and characters
    | Byte(ch: bv8)
    | Bytes(page: Page)
    | Size(length: nat)

  datatype Record = Record(header: nat, fields: seq<Field>)

  // Tests of single flag bits, `flags & RAM_SAVE_FLAG_...`
  predicate IsCompress(flags: nat) { flags / 0x02 % 2 == 1 }

  predicate IsMemSize(flags: nat) { flags / 0x04 % 2 == 1 }

  predicate IsFullPage(flags: nat) { flags / 0x08 % 2 == 1 }

  predicate IsEos(flags: nat) { flags / 0x10 % 2 == 1 }

  /** The record ends a section. */
  predicate Ends(r: Record) { IsEos(r.header % PAGE) }

  predicate IsContinue(flags: nat) { flags / 0x20 % 2 == 1 }

  // ---------------------------------------------------------------- receiver

  /** The destination: its RAM blocks and the static `block` of host_from_stream_offset. */
  datatype Receiver = Receiver(blocks: seq<RAMBlock>, block: Option<nat>)

  datatype Loaded = Ok(rx: Receiver) | Bad

  /** QLIST_FOREACH with strncmp (arch_init.c:359-362). */
  function Find(bs: seq<RAMBlock>, id: string): (r: Option<nat>)
    ensures r.Some? ==> r.value < |bs| && bs[r.value].id == id
    ensures r.None? ==> forall b :: 0 <= b < |bs| ==> bs[b].id != id
  {
    if bs == [] then None
    else if bs[0].id == id then Some(0)
    else
      match Find(bs[1..], id)
      case None => None
      case Some(k) => assert bs[1..][k] == bs[k + 1]; Some(k + 1)
  }

  /** host_from_stream_offset (arch_init.c:338-366): the new static block and the fields
      left, or None for the NULL results. */
  function HostBlock(rx: Receiver, flags: nat, fields: seq<Field>): Option<(nat, seq<Field>)> {
    if IsContinue(flags) then
      if rx.block.None? then None else Some((rx.block.value, fields))
    else if fields == [] || !fields[0].Name? then None
    else
      match Find(rx.blocks, fields[0].id)
      case None => None
      case Some(b) => Some((b, fields[1..]))
  }

  function StorePage(rx: Receiver, b: nat, addr: nat, page: Page): Loaded {
    if b < |rx.blocks| && addr / PAGE < |rx.blocks[b].host| then
      Ok(Receiver(rx.blocks[b := rx.blocks[b].(host := rx.blocks[b].host[addr / PAGE := page])], Some(b)))
    else Bad
  }

  function Filled(ch: bv8): (p: Page)
    ensures |p| == PAGE && forall k :: 0 <= k < PAGE ==> p[k] == ch
  {
    seq(PAGE, _ => ch)
  }

  /** Checking the block list of version 4 streams (arch_init.c:390-419): the fields left
      after it, or None when a block is unknown or has another length. */
  function CheckBlockList(bs: seq<RAMBlock>, total: int, fields: seq<Field>): Option<seq<Field>>
    decreases |fields|
  {
    if total == 0 then Some(fields)
    else if |fields| < 2 || !fields[0].Name? || !fields[1].Size? then None
    else
      match Find(bs, fields[0].id)
      case None => None
      case Some(b) =>
        if bs[b].Length() != fields[1].length then None
        else CheckBlockList(bs, total - fields[1].length, fields[2..])
  }

  /** The page part of a record (arch_init.c:422-451). */
  function LoadPage(rx: Receiver, flags: nat, addr: nat, fields: seq<Field>): Loaded {
    if IsCompress(flags) || IsFullPage(flags) then
      match HostBlock(rx, flags, fields)
      case None => Bad
      case Some((b, rest)) =>
        if |rest| != 1 then Bad
        else if IsCompress(flags) then
          if rest[0].Byte? then StorePage(rx, b, addr, Filled(rest[0].ch)) else Bad
        else
          if rest[0].Bytes? && |rest[0].page| == PAGE then StorePage(rx, b, addr, rest[0].page) else Bad
    else if fields == [] then Ok(rx)
    else Bad
  }

  /** One turn of the loop in ram_load, version 4 (arch_init.c:377-454).  A record whose
      fields are not exactly those the flags announce would put the two sides out of
      step, so it is Bad here. */
  function Load(rx: Receiver, r: Record): Loaded {
    var flags := r.header % PAGE;
    var addr := r.header - flags;
    if IsMemSize(flags) then
      match CheckBlockList(rx.blocks, addr, r.fields)
      case None => Bad
      case Some(rest) => LoadPage(rx, flags, addr, rest)
    else LoadPage(rx, flags, addr, r.fields)
  }

  function Replay(rx: Receiver, stream: seq<Record>): Loaded {
    if stream == [] then Ok(rx)
    else
      match Replay(rx, stream[..|stream| - 1])
      case Bad => Bad
      case Ok(rx') => Load(rx', stream[|stream| - 1])
  }

  lemma {:induction false} ReplaySnoc(rx: Receiver, stream: seq<Record>, r: Record)
    requires Replay(rx, stream).Ok?
    ensures Replay(rx, stream + [r]) == Load(Replay(rx, stream).rx, r)
  {
    assert (stream + [r])[..|stream|] == stream;
  }
}
