/** block.c:894-1085: byte reads and writes built from whole-sector transfers, proved to be reads and
    writes of a plain array of bytes. */
module ByteIO {
  import opened Common

  type u8 = bv8

  /** b with the bytes of d from position o on. */
  function Splice(b: seq<u8>, o: nat, d: seq<u8>): (r: seq<u8>)
    requires o + |d| <= |b|
    ensures |r| == |b|
  {
    b[..o] + d + b[o + |d|..]
  }

  lemma {:induction false} SplicedAt(b: seq<u8>, o: nat, d: seq<u8>)
    requires o + |d| <= |b|
    ensures var r := Splice(b, o, d);
            forall i :: 0 <= i < |b| ==> r[i] == if o <= i < o + |d| then d[i - o] else b[i]
  {
  }

  lemma {:induction false} SpliceAll(b: seq<u8>, d: seq<u8>)
    requires |d| == |b|
    ensures Splice(b, 0, d) == d
  {
  }

  /** Splicing two pieces one after the other is splicing them together. */
  lemma {:induction false} SpliceTwice(b: seq<u8>, o: nat, d: seq<u8>, e: seq<u8>)
    requires o + |d| + |e| <= |b|
    ensures Splice(Splice(b, o, d), o + |d|, e) == Splice(b, o, d + e)
  {
    hide Splice;
    SplicedAt(b, o, d);
    SplicedAt(Splice(b, o, d), o + |d|, e);
    SplicedAt(b, o, d + e);
  }

  /** A read of what was written sees it; a read of other bytes sees what was there. */
  lemma {:induction false} ReadAfterWrite(b: seq<u8>, o: nat, d: seq<u8>, p: nat, n: nat)
    requires o + |d| <= |b| && p + n <= |b|
    ensures Splice(b, o, d)[o..o + |d|] == d
    ensures p + n <= o || o + |d| <= p ==> Splice(b, o, d)[p..p + n] == b[p..p + n]
  {
    hide Splice;
    SplicedAt(b, o, d);
  }

  /** memcpy into buf from position `at` */
  method Copy(buf: array<u8>, at: nat, data: seq<u8>)
    requires at + |data| <= buf.Length
    modifies buf
    ensures buf[..] == Splice(old(buf[..]), at, data)
  {
    ghost var was := buf[..];
    forall i | 0 <= i < |data| {
      buf[at + i] := data[i];
    }
    hide Splice;
    SplicedAt(was, at, data);
    assert buf[..] == Splice(was, at, data);
  }

  /** A write of n bytes from offset begins with part of a sector, which is read first. */
  predicate PatchesFirst(offset: int, n: nat) {
    offset % SECTOR != 0 || n < SECTOR
  }

  /** How many of them lie in the sector of the first. */
  function FirstPart(offset: int, n: nat): nat {
    Min(SECTOR - offset % SECTOR, n)
  }

  /** A transfer's result, and how many sectors a failed write stored. */
  datatype Fault = Fault(ret: int, stored: nat)

  class BlockDriverState {
    var inserted: bool        // a driver is open
    var readOnly: bool
    var bytes: seq<u8>        // the medium
    var faults: seq<Fault>    // how the driver's next transfers end; once used up, well

    ghost predicate Valid()
      reads this
    {
      |bytes| % SECTOR == 0 && forall i :: 0 <= i < |faults| ==> faults[i].ret <= 0
    }

    predicate InRange(offset: int, count: nat)
      reads this
    {
      0 <= offset && offset + count <= |bytes|
    }

    /** What a write of n bytes returns when no transfer fails: a read-only device refuses it, but a first
        sector that must be patched is read before that is noticed. */
    function Expected(offset: int, n: nat): int
      reads this
    {
      if !inserted then -ENOMEDIUM
      else if !readOnly then if InRange(offset, n) then n else -EIO
      else if PatchesFirst(offset, n) && !InRange(offset, FirstPart(offset, n)) then -EIO
      else -EACCES
    }

    /** bdrv_check_byte_request for a device that does not grow */
    method CheckByteRequest(offset: int, size: nat) returns (r: int)
      ensures r == if !inserted then -ENOMEDIUM else if InRange(offset, size) then 0 else -EIO
    {
      if !inserted {
        return -ENOMEDIUM;
      }
      if offset < 0 {
        return -EIO;
      }
      if offset > |bytes| || |bytes| - offset < size {
        return -EIO;
      }
      r := 0;
    }

    /** The driver's answer to the next transfer. */
    method Driver() returns (r: int, stored: nat)
      requires Valid()
      modifies this`faults
      ensures Valid() && r <= 0 && (old(faults) == [] ==> r == 0 && faults == [])
    {
      if faults == [] {
        return 0, 0;
      }
      r, stored := faults[0].ret, faults[0].stored;
      faults := faults[1..];
    }

    /** bdrv_read of nb sectors into buf from position `at` */
    method Read(sector: int, buf: array<u8>, at: nat, nb: nat) returns (r: int)
      requires Valid() && at + nb * SECTOR <= buf.Length
      modifies this`faults, buf
      ensures Valid() && r <= 0
      ensures r == 0 ==> inserted && InRange(sector * SECTOR, nb * SECTOR)
                         && buf[..] == Splice(old(buf[..]), at, bytes[sector * SECTOR..sector * SECTOR + nb * SECTOR])
      ensures r < 0 ==> buf[..] == old(buf[..])
      ensures !inserted ==> r == -ENOMEDIUM
      ensures inserted && !InRange(sector * SECTOR, nb * SECTOR) ==> r == -EIO
      ensures old(faults) == [] ==> faults == []
      ensures old(faults) == [] && inserted && InRange(sector * SECTOR, nb * SECTOR) ==> r == 0
    {
      if !inserted {
        return -ENOMEDIUM;
      }
      var bad := CheckByteRequest(sector * SECTOR, nb * SECTOR);
      if bad != 0 {
        return -EIO;
      }
      var stored;
      r, stored := Driver();
      if r < 0 {
        return;
      }
      Copy(buf, at, bytes[sector * SECTOR..sector * SECTOR + nb * SECTOR]);
    }

    /** bdrv_write; a failed transfer may have stored its first sectors. */
    method Write(sector: int, data: seq<u8>, nb: nat) returns (r: int, ghost stored: nat)
      requires Valid() && |data| == nb * SECTOR
      modifies this`faults, this`bytes
      ensures Valid() && r <= 0 && |bytes| == |old(bytes)|
      ensures r == 0 || stored > 0 ==> inserted && !readOnly && InRange(sector * SECTOR, nb * SECTOR)
      ensures stored <= nb && (r == 0 ==> stored == nb)
      ensures bytes == if stored == 0 then old(bytes) else Splice(old(bytes), sector * SECTOR, data[..stored * SECTOR])
      ensures !inserted ==> r == -ENOMEDIUM
      ensures inserted && readOnly ==> r == -EACCES
      ensures inserted && !readOnly && !InRange(sector * SECTOR, nb * SECTOR) ==> r == -EIO
      ensures old(faults) == [] ==> faults == []
      ensures old(faults) == [] && inserted && !readOnly && InRange(sector * SECTOR, nb * SECTOR) ==> r == 0
    {
      stored := 0;
      if !inserted {
        return -ENOMEDIUM, 0;
      }
      if readOnly {
        return -EACCES, 0;
      }
      var bad := CheckByteRequest(sector * SECTOR, nb * SECTOR);
      if bad != 0 {
        return -EIO, 0;
      }
      var n;
      r, n := Driver();
      n := if r == 0 then nb else Min(n, nb);
      stored := n;
      if n > 0 {
        bytes := Splice(bytes, sector * SECTOR, data[..n * SECTOR]);
      }
    }

    /** A partial sector into buf: through a sector-sized buffer. */
    method ReadPart(sector: int, inner: nat, buf: array<u8>, at: nat, len: nat) returns (r: int)
      requires Valid() && at + len <= buf.Length && inner + len <= SECTOR && len > 0
      modifies this`faults, buf
      ensures Valid() && r <= 0
      ensures r == 0 ==> inserted && InRange(sector * SECTOR + inner, len)
                         && buf[..] == Splice(old(buf[..]), at,
                                              bytes[sector * SECTOR + inner..sector * SECTOR + inner + len])
      ensures r < 0 ==> buf[..] == old(buf[..])
      ensures !inserted ==> r == -ENOMEDIUM
      ensures inserted && !InRange(sector * SECTOR + inner, len) ==> r == -EIO
      ensures old(faults) == [] ==> faults == []
      ensures old(faults) == [] && inserted && InRange(sector * SECTOR + inner, len) ==> r == 0
    {
      hide Splice;
      WholeSector(|bytes|, sector, inner, len);
      var tmp := new u8[SECTOR];
      ghost var blank := tmp[..];
      r := Read(sector, tmp, 0, 1);
      if r < 0 {
        return;
      }
      var from := sector * SECTOR;
      ghost var want := bytes[from + inner..from + inner + len];
      SpliceAll(blank, bytes[from..from + SECTOR]);
      assert tmp[inner..inner + len] == tmp[..][inner..inner + len];
      SubSlice(bytes, from, inner, len);
      Copy(buf, at, tmp[inner..inner + len]);
    }

    /** A partial sector out of data: read, patch, write. */
    method WritePart(sector: int, inner: nat, data: seq<u8>) returns (r: int, ghost stored: bool)
      requires Valid() && inner + |data| <= SECTOR && |data| > 0
      modifies this`faults, this`bytes
      ensures Valid() && r <= 0 && |bytes| == |old(bytes)|
      ensures (r == 0 ==> stored) && (stored ==> inserted && !readOnly && InRange(sector * SECTOR + inner, |data|))
      ensures bytes == if stored then Splice(old(bytes), sector * SECTOR + inner, data) else old(bytes)
      ensures !inserted ==> r == -ENOMEDIUM
      ensures inserted && !InRange(sector * SECTOR + inner, |data|) ==> r == -EIO
      ensures old(faults) == [] ==> faults == []
      ensures old(faults) == [] && inserted && !readOnly && InRange(sector * SECTOR + inner, |data|) ==> r == 0
      ensures old(faults) == [] && inserted && readOnly && InRange(sector * SECTOR + inner, |data|) ==> r == -EACCES
    {
      hide Splice;
      stored := false;
      WholeSector(|bytes|, sector, inner, |data|);
      var tmp := new u8[SECTOR];
      ghost var blank := tmp[..];
      r := Read(sector, tmp, 0, 1);
      if r < 0 {
        return;
      }
      ghost var from, was := sector * SECTOR, bytes;
      SpliceAll(blank, was[from..from + SECTOR]);
      Copy(tmp, inner, data);
      ghost var n;
      r, n := Write(sector, tmp[..], 1);
      stored := n > 0;
      assert tmp[..][..SECTOR] == tmp[..];
      SplicePart(was, from, inner, data);
    }

    /** bdrv_pread: the bytes asked for, or an error after a prefix of them. Without driver faults it
        succeeds exactly when a medium is there and holds them all. */
    method Pread(offset: int, buf: array<u8>, count: nat) returns (r: int, ghost done: nat)
      requires Valid() && count <= buf.Length
      modifies this`faults, buf
      ensures Valid() && done <= count && Fetched(old(buf[..]), buf[..], bytes, offset, done)
      ensures if done == count then r == count else r < 0
      ensures old(faults) == [] && count > 0
              ==> r == if !inserted then -ENOMEDIUM else if InRange(offset, count) then count else -EIO
    {
      hide Splice, Valid;
      var left, sector, at := count, offset / SECTOR, 0;
      var len := Min((SECTOR - offset) % SECTOR, count);
      ghost var was := buf[..];
      done := 0;
      if len > 0 {
        r := ReadPart(sector, offset % SECTOR, buf, 0, len);
        if r < 0 {
          return;
        }
        FetchMore(was, was, buf[..], bytes, offset, 0, len);
        left, done := left - len, len;
        if left == 0 {
          r := count;
          return;
        }
        sector, at := sector + 1, len;
      }
      r, done := PreadAligned(sector, offset, buf, at, count, was);
    }

    /** The whole sectors and the tail, from the sector where byte `at` of the range begins. */
    method PreadAligned(sector: int, offset: int, buf: array<u8>, at: nat, count: nat, ghost was: seq<u8>)
      returns (r: int, ghost done: nat)
      requires Valid() && at <= count <= buf.Length && (at < count ==> sector * SECTOR == offset + at)
      requires Fetched(was, buf[..], bytes, offset, at) && (at < count || at == 0) && (at > 0 ==> inserted)
      modifies this`faults, buf
      ensures Valid() && at <= done <= count && Fetched(was, buf[..], bytes, offset, done)
      ensures if done == count then r == count else r < 0
      ensures old(faults) == [] && count > 0
              ==> r == if !inserted then -ENOMEDIUM else if InRange(offset, count) then count else -EIO
    {
      hide Splice, Valid;
      var left := count - at;
      var nb := left / SECTOR;
      done := at;
      if nb > 0 {
        ghost var now := buf[..];
        r := Read(sector, buf, at, nb);
        if r < 0 {
          return;
        }
        FetchMore(was, now, buf[..], bytes, offset, at, nb * SECTOR);
      }
      r, done := PreadTail(sector + nb, offset, buf, at + nb * SECTOR, count, was);
    }

    /** The part of a sector that is left. */
    method PreadTail(sector: int, offset: int, buf: array<u8>, at: nat, count: nat, ghost was: seq<u8>)
      returns (r: int, ghost done: nat)
      requires Valid() && at <= count <= buf.Length && count - at < SECTOR
      requires at < count ==> sector * SECTOR == offset + at
      requires Fetched(was, buf[..], bytes, offset, at) && (at > 0 ==> inserted)
      modifies this`faults, buf
      ensures Valid() && at <= done <= count && Fetched(was, buf[..], bytes, offset, done)
      ensures if done == count then r == count else r < 0
      ensures old(faults) == [] && count > 0
              ==> r == if !inserted then -ENOMEDIUM else if InRange(offset, count) then count else -EIO
    {
      hide Splice, Valid;
      ghost var now := buf[..];
      done := at;
      if at < count {
        r := ReadPart(sector, 0, buf, at, count - at);
        if r < 0 {
          return;
        }
        FetchMore(was, now, buf[..], bytes, offset, at, count - at);
        done := count;
      }
      r := count;
    }

    /** bdrv_pwrite: the medium with the new bytes in place, or an error with a prefix of them in place;
        no other byte changes. */
    method Pwrite(offset: int, data: seq<u8>) returns (r: int, ghost done: nat)
      requires Valid()
      modifies this`faults, this`bytes
      ensures Valid() && done <= |data| && Stored(old(bytes), bytes, offset, data, done)
      ensures (r == |data| || r < 0) && (r == |data| ==> done == |data|)
      ensures old(faults) == [] && |data| > 0 ==> r == old(Expected(offset, |data|))
    {
      hide Splice, Valid;
      var left, sector, at := |data|, offset / SECTOR, 0;
      var len := Min((SECTOR - offset) % SECTOR, |data|);
      ghost var was := bytes;
      done := 0;
      if len > 0 {
        ghost var stored;
        r, stored := WritePart(sector, offset % SECTOR, data[..len]);
        if stored {
          StoreMore(was, was, bytes, offset, data, 0, len);
        }
        if r < 0 {
          done := if stored then len else 0;
          return;
        }
        left, done := left - len, len;
        if left == 0 {
          r := |data|;
          return;
        }
        sector, at := sector + 1, len;
      }
      r, done := PwriteAligned(sector, offset, data, at, was);
    }

    method PwriteAligned(sector: int, offset: int, data: seq<u8>, at: nat, ghost was: seq<u8>)
      returns (r: int, ghost done: nat)
      requires Valid() && at <= |data| && (at < |data| ==> sector * SECTOR == offset + at)
      requires Stored(was, bytes, offset, data, at) && (at < |data| || at == 0) && (at > 0 ==> inserted && !readOnly)
      modifies this`faults, this`bytes
      ensures Valid() && at <= done <= |data| && Stored(was, bytes, offset, data, done)
      ensures (r == |data| || r < 0) && (r == |data| ==> done == |data|)
      ensures old(faults) == [] && |data| > 0 ==> r == old(Expected(offset, |data|))
    {
      hide Splice, Valid;
      var left := |data| - at;
      var nb := left / SECTOR;
      done := at;
      if nb > 0 {
        ghost var now := bytes;
        ghost var stored;
        r, stored := Write(sector, data[at..at + nb * SECTOR], nb);
        if stored > 0 {
          TakeOfSlice(data, at, nb * SECTOR, stored * SECTOR);
          StoreMore(was, now, bytes, offset, data, at, stored * SECTOR);
        }
        if r < 0 {
          done := at + stored * SECTOR;
          return;
        }
      }
      r, done := PwriteTail(sector + nb, offset, data, at + nb * SECTOR, was);
    }

    method PwriteTail(sector: int, offset: int, data: seq<u8>, at: nat, ghost was: seq<u8>)
      returns (r: int, ghost done: nat)
      requires Valid() && at <= |data| && |data| - at < SECTOR
      requires at < |data| ==> sector * SECTOR == offset + at
      requires Stored(was, bytes, offset, data, at) && (at > 0 ==> inserted && !readOnly)
      modifies this`faults, this`bytes
      ensures Valid() && at <= done <= |data| && Stored(was, bytes, offset, data, done)
      ensures (r == |data| || r < 0) && (r == |data| ==> done == |data|)
      ensures old(faults) == [] && |data| > 0 ==> r == old(Expected(offset, |data|))
    {
      hide Splice, Valid;
      ghost var now := bytes;
      done := at;
      if at < |data| {
        ghost var stored;
        r, stored := WritePart(sector, 0, data[at..]);
        if stored {
          assert data[at..] == data[at..at + (|data| - at)];
          StoreMore(was, now, bytes, offset, data, at, |data| - at);
          done := |data|;
        }
        if r < 0 {
          return;
        }
      }
      r := |data|;
    }
  }

  /** now is was with the first n bytes replaced by n bytes of b from offset on. */
  ghost predicate Fetched(was: seq<u8>, now: seq<u8>, b: seq<u8>, offset: int, n: nat) {
    && n <= |was| && (n > 0 ==> 0 <= offset && offset + n <= |b|)
    && now == if n == 0 then was else Splice(was, 0, b[offset..offset + n])
  }

  /** now is was with the first n bytes of data in place from offset on. */
  ghost predicate Stored(was: seq<u8>, now: seq<u8>, offset: int, data: seq<u8>, n: nat) {
    && n <= |data| && (n > 0 ==> 0 <= offset && offset + n <= |was|)
    && now == if n == 0 then was else Splice(was, offset, data[..n])
  }

  /** All of data was stored, and as many bytes were fetched from there. */
  lemma {:induction false} ReadBack(was: seq<u8>, now: seq<u8>, blank: seq<u8>, got: seq<u8>, offset: int,
                                    data: seq<u8>)
    requires Stored(was, now, offset, data, |data|) && Fetched(blank, got, now, offset, |data|)
    requires |blank| == |data|
    ensures got == data
  {
    if |data| > 0 {
      hide Splice;
      assert data[..|data|] == data;
      ReadAfterWrite(was, offset, data, 0, 0);
      assert now[offset..offset + |data|] == data;
      SpliceAll(blank, data);
    }
  }

  /** What a write stored, a read of the same range returns. */
  method WriteThenRead(dev: BlockDriverState, offset: int, data: seq<u8>, buf: array<u8>) returns (w: int, r: int)
    requires dev.Valid() && buf.Length == |data|
    modifies dev, buf
    ensures dev.Valid() && (w == |data| && r == |data| ==> buf[..] == data)
  {
    hide Splice, Stored, Fetched;
    ghost var done, was, blank := 0, dev.bytes, buf[..];
    w, done := dev.Pwrite(offset, data);
    r, done := dev.Pread(offset, buf, |data|);
    if w == |data| && r == |data| {
      ReadBack(was, dev.bytes, blank, buf[..], offset, data);
    }
  }

  lemma {:induction false} FetchMore(was: seq<u8>, now: seq<u8>, next: seq<u8>, b: seq<u8>, offset: int, at: nat,
                                     n: nat)
    requires Fetched(was, now, b, offset, at) && n > 0 && at + n <= |was|
    requires 0 <= offset + at && offset + at + n <= |b| && (at == 0 || 0 <= offset)
    requires |now| == |was| && next == Splice(now, at, b[offset + at..offset + at + n])
    ensures Fetched(was, next, b, offset, at + n)
  {
    hide Splice;
    if at > 0 {
      SpliceTwice(was, 0, b[offset..offset + at], b[offset + at..offset + at + n]);
      assert b[offset..offset + at] + b[offset + at..offset + at + n] == b[offset..offset + at + n];
    }
  }

  lemma {:induction false} StoreMore(was: seq<u8>, now: seq<u8>, next: seq<u8>, offset: int, data: seq<u8>, at: nat,
                                     n: nat)
    requires Stored(was, now, offset, data, at) && n > 0 && at + n <= |data|
    requires 0 <= offset + at && offset + at + n <= |was| == |now|
    requires next == Splice(now, offset + at, data[at..at + n])
    ensures Stored(was, next, offset, data, at + n)
  {
    hide Splice;
    if at > 0 {
      SpliceTwice(was, offset, data[..at], data[at..at + n]);
      assert data[..at] + data[at..at + n] == data[..at + n];
    } else {
      assert data[..n] == data[0..n];
    }
  }

  /** Some bytes of a sector are on the medium exactly when all of it is. */
  lemma {:induction false} WholeSector(size: nat, sector: int, inner: nat, len: nat)
    requires size % SECTOR == 0 && inner + len <= SECTOR && len > 0
    ensures 0 <= sector * SECTOR + inner && sector * SECTOR + inner + len <= size
            <==> 0 <= sector * SECTOR && sector * SECTOR + SECTOR <= size
  {
  }

  lemma {:induction false} TakeOfSlice(data: seq<u8>, at: nat, m: nat, k: nat)
    requires at + m <= |data| && k <= m
    ensures data[at..at + m][..k] == data[at..at + k]
  {
    var x, y := data[at..at + m][..k], data[at..at + k];
    assert forall i :: 0 <= i < k ==> x[i] == y[i];
  }

  lemma {:induction false} SubSlice(b: seq<u8>, from: nat, inner: nat, len: nat)
    requires from + SECTOR <= |b| && inner + len <= SECTOR
    ensures b[from..from + SECTOR][inner..inner + len] == b[from + inner..from + inner + len]
  {
    var x, y := b[from..from + SECTOR][inner..inner + len], b[from + inner..from + inner + len];
    assert forall i :: 0 <= i < len ==> x[i] == y[i];
  }

  /** Patching a sector's copy and writing it back is splicing the medium. */
  lemma {:induction false} SplicePart(b: seq<u8>, from: nat, inner: nat, d: seq<u8>)
    requires from + SECTOR <= |b| && inner + |d| <= SECTOR
    ensures Splice(b, from, Splice(b[from..from + SECTOR], inner, d)) == Splice(b, from + inner, d)
  {
    hide Splice;
    SplicedAt(b[from..from + SECTOR], inner, d);
    SplicedAt(b, from, Splice(b[from..from + SECTOR], inner, d));
    SplicedAt(b, from + inner, d);
  }
}
