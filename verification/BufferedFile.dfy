/** buffered_file.c: the rate-limited, buffering transport under live migration. Until the backend
    first fails, what it has been given followed by what is buffered is exactly what callers put. */
module BufferedFile {
  import opened Common

  newtype u8 = x: int | 0 <= x < 256

  /** A backend that sometimes stalls but never fails. */
  predicate Healthy(replies: seq<int>) {
    forall i :: 0 <= i < |replies| ==> replies[i] > 0 || replies[i] == -EAGAIN
  }

  // ------------------------------------------------------------------ specification

  datatype Stop = Unstopped | Stalled | Failed

  /** The outcome of handing bytes to the backend: how many it took, what it will answer next, and
      what stopped it, if anything did. */
  datatype Handed = Handed(n: nat, replies: seq<int>, stop: Stop) {
    function Plus(k: nat): Handed { Handed(k + n, replies, stop) }
  }

  /** Handing over data until a stall, a failure, or more than `room` bytes went. */
  function Hand(data: seq<u8>, replies: seq<int>, room: int): (h: Handed)
    ensures h.n <= |data|
    decreases |data|
  {
    if data == [] || room < 0 then Handed(0, replies, Unstopped)
    else if replies == [] then Handed(|data|, [], Unstopped)
    else if replies[0] == -EAGAIN then Handed(0, replies[1..], Stalled)
    else if replies[0] <= 0 then Handed(0, replies[1..], Failed)
    else
      var n := Min(replies[0], |data|);
      Hand(data[n..], replies[1..], room - n).Plus(n)
  }

  /** One call of the backend with n bytes: its answer, and what it will answer next. */
  predicate Answers(replies: seq<int>, n: nat, ret: int, next: seq<int>) {
    if replies == [] then ret == n && next == []
    else ret == (if replies[0] > n then n else replies[0]) && next == replies[1..]
  }

  lemma {:induction false} HandStep(data: seq<u8>, at: nat, replies: seq<int>, room: int, ret: int, next: seq<int>)
    requires at < |data| && room >= 0 && Answers(replies, |data| - at, ret, next)
    ensures ret > 0 ==> at + ret <= |data|
                        && Hand(data[at..], replies, room) == Hand(data[at + ret..], next, room - ret).Plus(ret)
    ensures ret <= 0 ==> Hand(data[at..], replies, room) == Handed(0, next, if ret == -EAGAIN then Stalled else Failed)
  {
    if ret > 0 {
      assert data[at..][ret..] == data[at + ret..];
    }
  }

  lemma {:induction false} HandEnds(data: seq<u8>, at: nat, replies: seq<int>, room: int)
    requires at <= |data|
    ensures at == |data| || room < 0 ==> Hand(data[at..], replies, room) == Handed(0, replies, Unstopped)
  {
  }

  lemma {:induction false} MoreSent(sent: seq<u8>, data: seq<u8>, at: nat, n: nat)
    requires at + n <= |data|
    ensures (sent + data[..at]) + data[at..][..n] == sent + data[..at + n]
  {
    assert data[..at] + data[at..][..n] == data[..at + n];
  }

  lemma {:induction false} Rejoined(sent: seq<u8>, buffer: seq<u8>, n: nat)
    requires n <= |buffer|
    ensures (sent + buffer[..n]) + buffer[n..] == sent + buffer
  {
    assert buffer[..n] + buffer[n..] == buffer;
  }

  /** Handing over uses answers up; it leaves bytes only on a stall, a failure or the limit; a healthy
      backend stays healthy and never fails. */
  lemma {:induction false} HandFacts(data: seq<u8>, replies: seq<int>, room: int)
    ensures var h := Hand(data, replies, room);
            && |h.replies| <= |replies| && (!h.stop.Unstopped? ==> |h.replies| < |replies|)
            && (h.n < |data| ==> !h.stop.Unstopped? || h.n > room)
            && (Healthy(replies) ==> Healthy(h.replies) && !h.stop.Failed?)
    decreases |data|
  {
    if data != [] && room >= 0 && replies != [] && replies[0] > 0 {
      var n := Min(replies[0], |data|);
      HandFacts(data[n..], replies[1..], room - n);
    }
  }

  /** What a put keeps. */
  lemma {:induction false} PutFacts(s: Snapshot, data: seq<u8>)
    ensures var t := s.AfterPut(data);
            && (!t.hasError ==> s.Takes(data) && (s.InOrder() ==> t.InOrder()))
            && (Healthy(s.replies) ==> Healthy(t.replies) && t.hasError == s.hasError)
            && (s.InOrder() && s.Takes(data) && (s.buffer == [] || s.bytesXfer > s.xferLimit || data == [])
                ==> t.InOrder())
  {
    if s.hasError {
      return;
    }
    var f, d := s.Flushed(), s.Direct(data);
    HandFacts(s.buffer, s.replies, |s.buffer|);
    HandFacts(data, f.replies, s.xferLimit - s.bytesXfer);
    Commuting(s.sent, s.buffer, data, f.n, d.n);
  }

  /** The state a put works on. */
  datatype Snapshot = Snapshot(hasError: bool, freezeOutput: bool, bytesXfer: nat, xferLimit: nat,
                               buffer: seq<u8>, replies: seq<int>, sent: seq<u8>, accepted: seq<u8>)
  {
    /** Nothing is lost, repeated or reordered. */
    predicate InOrder() { sent + buffer == accepted }

    /** What a put of data does with the buffer and then with the data. */
    function Flushed(): Handed { Hand(buffer, replies, |buffer|) }
    function Direct(data: seq<u8>): Handed {
      if Flushed().stop.Stalled? then Handed(0, Flushed().replies, Stalled)
      else Hand(data, Flushed().replies, xferLimit - bytesXfer)
    }

    /** Whether a put reports success. */
    predicate Takes(data: seq<u8>) { !hasError && !Direct(data).stop.Failed? }

    function AfterPut(data: seq<u8>): Snapshot {
      if hasError then this
      else
        var f, d := Flushed(), Direct(data);
        Snapshot(f.stop.Failed? || d.stop.Failed?, d.stop.Stalled?, bytesXfer + d.n, xferLimit,
                 buffer[f.n..] + (if d.stop.Failed? then [] else data[d.n..]), d.replies,
                 sent + buffer[..f.n] + data[..d.n], if d.stop.Failed? then accepted else accepted + data)
    }
  }

  class QEMUFileBuffered {
    var hasError: bool
    var freezeOutput: bool
    var bytesXfer: nat
    var xferLimit: nat
    var buffer: seq<u8>
    var closed: bool
    var notified: nat              // times put_ready was called
    var replies: seq<int>          // what the backend will answer; once used up it takes everything
    ghost var sent: seq<u8>        // bytes the backend has taken
    ghost var accepted: seq<u8>    // bytes of the puts that reported success

    constructor (bytesPerSec: nat, backend: seq<int>)
      ensures !hasError && !freezeOutput && bytesXfer == 0 && xferLimit == bytesPerSec / 10 && !closed
      ensures buffer == [] && replies == backend && sent == [] && accepted == [] && InOrder()
    {
      hasError, freezeOutput, bytesXfer, xferLimit, buffer := false, false, 0, bytesPerSec / 10, [];
      closed, notified, replies, sent, accepted := false, 0, backend, [], [];
    }

    ghost function Now(): Snapshot
      reads this
    {
      Snapshot(hasError, freezeOutput, bytesXfer, xferLimit, buffer, replies, sent, accepted)
    }

    ghost predicate InOrder()
      reads this
    {
      Now().InOrder()
    }

    /** The backend's put_buffer: takes a prefix, or answers zero or a negative number and takes
        nothing. */
    method Backend(data: seq<u8>) returns (ret: int)
      requires |data| > 0
      modifies this`replies, this`sent
      ensures ret <= |data| && sent == old(sent) + data[..if ret > 0 then ret else 0]
      ensures Answers(old(replies), |data|, ret, replies)
      ensures ret <= 0 ==> |replies| < |old(replies)|
      ensures Healthy(old(replies)) ==> Healthy(replies) && (ret > 0 || ret == -EAGAIN)
      ensures |replies| <= |old(replies)|
    {
      if replies == [] {
        ret := |data|;
      } else {
        ret := if replies[0] > |data| then |data| else replies[0];
        replies := replies[1..];
      }
      sent := sent + data[..if ret > 0 then ret else 0];
    }

    /** buffered_flush: moves a prefix of the buffer, of length f, to the backend. */
    method Flush() returns (ghost f: nat)
      modifies this`replies, this`sent, this`buffer, this`freezeOutput, this`hasError
      ensures f <= |old(buffer)| && sent == old(sent) + old(buffer)[..f] && buffer == old(buffer)[f..]
      ensures old(hasError) ==> f == 0 && hasError && freezeOutput == old(freezeOutput) && replies == old(replies)
      ensures !old(hasError) ==>
                var h := Hand(old(buffer), old(replies), |old(buffer)|);
                f == h.n && replies == h.replies && hasError == h.stop.Failed?
                && freezeOutput == (old(freezeOutput) || h.stop.Stalled?)
    {
      hide Hand, Answers;
      var offset := 0;
      f := 0;
      if hasError {
        return;
      }
      ghost var h := Hand(buffer, replies, |buffer|);
      assert buffer[0..] == buffer;
      while offset < |buffer|
        invariant offset <= |buffer| && buffer == old(buffer) && sent == old(sent) + buffer[..offset]
        invariant hasError == old(hasError) && freezeOutput == old(freezeOutput)
        invariant h == Hand(buffer[offset..], replies, |buffer| - offset).Plus(offset)
      {
        ghost var now := replies;
        var ret := Backend(buffer[offset..]);
        HandStep(buffer, offset, now, |buffer| - offset, ret, replies);
        if ret == -EAGAIN {
          freezeOutput := true;
          break;
        }
        if ret <= 0 {
          hasError := true;
          break;
        } else {
          MoreSent(old(sent), buffer, offset, ret);
          offset := offset + ret;
        }
      }
      f := offset;
      HandEnds(buffer, offset, replies, |buffer| - offset);
      buffer := buffer[offset..];
    }

    /** The direct part of buffered_put_buffer: hands over a prefix of data, of length d, until the
        backend stalls or fails or the rate limit is passed. */
    method PutDirect(data: seq<u8>) returns (failed: bool, ghost d: nat, offset: nat)
      modifies this`replies, this`sent, this`freezeOutput, this`hasError, this`bytesXfer
      ensures d == offset <= |data| && sent == old(sent) + data[..d] && bytesXfer == old(bytesXfer) + d
      ensures hasError == (old(hasError) || failed)
      ensures old(freezeOutput) ==> d == 0 && !failed && freezeOutput && replies == old(replies)
      ensures !old(freezeOutput) ==>
                var h := Hand(data, old(replies), xferLimit - old(bytesXfer));
                d == h.n && replies == h.replies && failed == h.stop.Failed? && freezeOutput == h.stop.Stalled?
      ensures !failed && d < |data| ==> freezeOutput || bytesXfer > xferLimit
    {
      hide Hand, Answers;
      offset, failed, d := 0, false, 0;
      ghost var h := Hand(data, replies, xferLimit - bytesXfer);
      assert data[0..] == data;
      while !freezeOutput && offset < |data|
        invariant offset <= |data| && sent == old(sent) + data[..offset] && bytesXfer == old(bytesXfer) + offset
        invariant hasError == old(hasError) && freezeOutput == old(freezeOutput) && (freezeOutput ==> offset == 0)
        invariant freezeOutput ==> replies == old(replies)
        invariant h == Hand(data[offset..], replies, xferLimit - bytesXfer).Plus(offset)
        decreases |data| - offset
      {
        if bytesXfer > xferLimit {
          break;
        }
        ghost var now := replies;
        var ret := Backend(data[offset..]);
        HandStep(data, offset, now, xferLimit - bytesXfer, ret, replies);
        if ret == -EAGAIN {
          freezeOutput := true;
          break;
        }
        if ret <= 0 {
          hasError, failed := true, true;
          break;
        }
        MoreSent(old(sent), data, offset, ret);
        offset := offset + ret;
        bytesXfer := bytesXfer + ret;
      }
      d := offset;
      HandEnds(data, offset, replies, xferLimit - bytesXfer);
    }

    /** buffered_put_buffer. The new state is AfterPut of the old: f bytes of the buffer and d bytes of
        data reach the backend, in that order; the rest is kept unless the direct part failed. Order
        is kept while there is no error, and whatever happens when nothing was buffered, nothing is
        put or the limit was passed; otherwise a failed flush lets data overtake the buffer
        (OrderKeptExactly). */
    method PutBuffer(data: seq<u8>, pos: int) returns (r: int, ghost f: nat, ghost d: nat)
      modifies this
      ensures Now() == old(Now()).AfterPut(data) && r == if old(Now()).Takes(data) then |data| else -EINVAL
      ensures closed == old(closed) && (old(hasError) ==> notified == old(notified))
      ensures f <= |old(buffer)| && d <= |data| && sent == old(sent) + old(buffer)[..f] + data[..d]
      ensures r == |data| ==> buffer == old(buffer)[f..] + data[d..] && accepted == old(accepted) + data
      ensures r == -EINVAL ==> hasError && buffer == old(buffer)[f..] && accepted == old(accepted)
      ensures old(hasError) ==> hasError && r == -EINVAL && f == 0 && d == 0
      ensures old(InOrder()) && !hasError ==> InOrder()
      ensures old(InOrder()) && r == |data| && (old(buffer) == [] || old(bytesXfer) > xferLimit || data == [])
              ==> InOrder()
      ensures Healthy(old(replies)) ==> Healthy(replies) && hasError == old(hasError)
    {
      PutFacts(Now(), data);
      hide Hand, Healthy, Snapshot.InOrder;
      f, d := 0, 0;
      if hasError {
        r := -EINVAL;
        return;
      }
      freezeOutput := false;
      f := Flush();
      var failed, offset;
      failed, d, offset := PutDirect(data);
      if !failed {
        buffer := buffer + data[offset..];
        accepted := accepted + data;
        r := |data|;
      } else {
        r := -EINVAL;
      }
      if pos == 0 && |data| == 0 {
        if bytesXfer <= xferLimit {
          notified := notified + 1;
        }
      }
    }

    /** buffered_close: without an error everything accepted reaches the backend. The backend becomes
        ready again in wait_for_unfreeze. */
    method Close()
      modifies this
      ensures closed && |replies| <= |old(replies)| && accepted == old(accepted)
      ensures old(InOrder()) ==> InOrder()
      ensures old(hasError) ==> hasError && sent == old(sent)
      ensures bytesXfer == old(bytesXfer) && xferLimit == old(xferLimit) && notified == old(notified)
      ensures !hasError ==> buffer == []
      ensures Healthy(old(replies)) ==> Healthy(replies) && hasError == old(hasError)
      ensures exists f :: 0 <= f <= |old(buffer)| && sent == old(sent) + old(buffer)[..f] && buffer == old(buffer)[f..]
    {
      hide Hand, Healthy;
      ghost var total := 0;
      assert old(buffer)[..0] == [] && old(buffer)[0..] == old(buffer);
      while !hasError && |buffer| > 0
        invariant total <= |old(buffer)| && sent == old(sent) + old(buffer)[..total] && buffer == old(buffer)[total..]
        invariant |replies| <= |old(replies)| && accepted == old(accepted) && notified == old(notified)
        invariant bytesXfer == old(bytesXfer) && xferLimit == old(xferLimit)
        invariant old(hasError) ==> hasError && total == 0
        invariant Healthy(old(replies)) ==> Healthy(replies) && hasError == old(hasError)
        decreases |replies|, |buffer|
      {
        HandFacts(buffer, replies, |buffer|);
        ghost var f := Flush();
        MoreSent(old(sent), old(buffer), total, f);
        assert old(buffer)[total..][f..] == old(buffer)[total + f..];
        total := total + f;
      }
      closed := true;
      Rejoined(old(sent), old(buffer), total);
    }

    /** buffered_rate_limit: whether the sender should hold back. */
    method RateLimit() returns (r: bool)
      ensures r <==> !hasError && (freezeOutput || bytesXfer > xferLimit)
    {
      if hasError {
        return false;
      }
      if freezeOutput {
        return true;
      }
      r := bytesXfer > xferLimit;
    }

    /** buffered_set_rate_limit; a size_t has 32 bits here. */
    method SetRateLimit(newRate: nat) returns (r: nat)
      modifies this`xferLimit
      ensures r == xferLimit && xferLimit == if hasError then old(xferLimit) else Min(newRate, 0xffff_ffff) / 10
    {
      if !hasError {
        xferLimit := Min(newRate, 0xffff_ffff) / 10;
      }
      r := xferLimit;
    }

    /** buffered_rate_tick: a new period unless the output is frozen; after an error, a close. */
    method RateTick()
      modifies this
      ensures |replies| <= |old(replies)| && accepted == old(accepted)
      ensures old(hasError) ==> closed && hasError && sent == old(sent)
      ensures Healthy(old(replies)) ==> Healthy(replies) && hasError == old(hasError)
      ensures old(InOrder()) ==> InOrder()
      ensures !old(hasError) && old(freezeOutput) ==> Now() == old(Now()) && notified == old(notified)
      ensures !old(hasError) && !old(freezeOutput) ==>
                var h := Hand(old(buffer), old(replies), |old(buffer)|);
                && bytesXfer == 0 && notified == old(notified) + 1 && replies == h.replies
                && sent == old(sent) + old(buffer)[..h.n] && buffer == old(buffer)[h.n..]
                && hasError == h.stop.Failed? && freezeOutput == h.stop.Stalled?
      ensures xferLimit == old(xferLimit) && (!old(hasError) ==> closed == old(closed))
    {
      hide Hand, Healthy;
      if hasError {
        Close();
        return;
      }
      if freezeOutput {
        return;
      }
      bytesXfer := 0;
      HandFacts(buffer, replies, |buffer|);
      ghost var f := Flush();
      Rejoined(old(sent), old(buffer), f);
      notified := notified + 1;
    }
  }

  /** Sending data[..d] before buffer[f..] keeps the order exactly when the two could be exchanged. */
  lemma {:induction false} Commuting(sent: seq<u8>, buffer: seq<u8>, data: seq<u8>, f: nat, d: nat)
    requires f <= |buffer| && d <= |data|
    ensures (sent + buffer[..f] + data[..d]) + (buffer[f..] + data[d..]) == sent + buffer + data
            <==> data[..d] + buffer[f..] == buffer[f..] + data[..d]
    ensures f == |buffer| || d == 0 ==> data[..d] + buffer[f..] == buffer[f..] + data[..d]
  {
    var x, p, q, y := sent + buffer[..f], data[..d], buffer[f..], data[d..];
    assert buffer == buffer[..f] + q && data == p + y;
    assert (x + p) + (q + y) == x + (p + q) + y;
    assert sent + buffer + data == x + (q + p) + y;
    assert (x + (p + q) + y)[|x|..|x| + |p| + |q|] == p + q;
    assert (x + (q + p) + y)[|x|..|x| + |p| + |q|] == q + p;
    if d == 0 {
      assert p == [];
    } else if f == |buffer| {
      assert q == [];
    }
  }

  predicate AllSame(s: seq<u8>) {
    forall i :: 0 <= i < |s| ==> s[i] == s[0]
  }

  /** A single byte moves past a sequence unnoticed exactly when the sequence repeats it. */
  lemma {:induction false} OneCommutes(b: u8, s: seq<u8>)
    ensures [b] + s == s + [b] <==> forall i :: 0 <= i < |s| ==> s[i] == b
    decreases |s|
  {
    if s != [] {
      OneCommutes(b, s[1..]);
      var l, r := [b] + s, s + [b];
      if l == r {
        assert l[0] == b && r[0] == s[0];
        assert l[1..] == s && r[1..] == s[1..] + [b];
        assert s == [b] + s[1..];
        assert forall i :: 0 < i < |s| ==> s[i] == s[1..][i - 1];
      }
      if forall i :: 0 <= i < |s| ==> s[i] == b {
        assert forall i :: 0 <= i < |l| ==> l[i] == b && r[i] == b;
        assert l == r;
      }
    }
  }

  /** Whatever the backend answers, a put that reports success keeps the order. */
  ghost predicate OrderSafe(s: Snapshot, data: seq<u8>) {
    forall backend: seq<int> :: s.(replies := backend).Takes(data)
                                ==> s.(replies := backend).AfterPut(data).InOrder()
  }

  /** A put keeps the order whatever the backend answers exactly when nothing is buffered, nothing is
      put, the rate limit was passed, or all the bytes are the same. */
  lemma {:induction false} OrderKeptExactly(s: Snapshot, data: seq<u8>)
    requires s.InOrder() && !s.hasError
    ensures OrderSafe(s, data)
            <==> s.buffer == [] || data == [] || s.bytesXfer > s.xferLimit || AllSame(s.buffer + data)
  {
    if s.buffer == [] || data == [] || s.bytesXfer > s.xferLimit || AllSame(s.buffer + data) {
      forall backend: seq<int> | s.(replies := backend).Takes(data)
        ensures s.(replies := backend).AfterPut(data).InOrder()
      {
        GuardKeepsOrder(s.(replies := backend), data);
      }
    } else if exists i :: 0 <= i < |s.buffer| && s.buffer[i] != data[0] {
      FirstByteOvertakes(s, data);
    } else {
      DataOvertakes(s, data);
    }
  }

  lemma {:induction false} SameCommute(buffer: seq<u8>, data: seq<u8>, f: nat, d: nat)
    requires AllSame(buffer + data) && f <= |buffer| && d <= |data|
    ensures data[..d] + buffer[f..] == buffer[f..] + data[..d]
  {
    var p, q, all := data[..d], buffer[f..], buffer + data;
    assert forall i :: 0 <= i < |p| ==> p[i] == all[|buffer| + i];
    assert forall i :: 0 <= i < |q| ==> q[i] == all[f + i];
    assert forall i :: 0 <= i < |p + q| ==> (p + q)[i] == all[0] && (q + p)[i] == all[0];
  }

  lemma {:induction false} GuardKeepsOrder(s: Snapshot, data: seq<u8>)
    requires s.InOrder() && s.Takes(data)
    requires s.buffer == [] || data == [] || s.bytesXfer > s.xferLimit || AllSame(s.buffer + data)
    ensures s.AfterPut(data).InOrder()
  {
    var f, d := s.Flushed(), s.Direct(data);
    hide AllSame;
    Commuting(s.sent, s.buffer, data, f.n, d.n);
    if f.n < |s.buffer| && d.n > 0 {
      SameCommute(s.buffer, data, f.n, d.n);
    }
  }

  /** The flush fails at once; then one byte of data is taken before the next stall. */
  lemma {:induction false} FirstByteOvertakes(s: Snapshot, data: seq<u8>)
    requires s.InOrder() && !s.hasError && data != [] && s.bytesXfer <= s.xferLimit
    requires exists i :: 0 <= i < |s.buffer| && s.buffer[i] != data[0]
    ensures !OrderSafe(s, data)
  {
    var backend := [0, 1, -EAGAIN];
    var t := s.(replies := backend);
    assert t.Flushed() == Handed(0, [1, -EAGAIN], Failed);
    assert [1, -EAGAIN][1..] == [-EAGAIN];
    assert Hand(data[1..], [-EAGAIN], t.xferLimit - t.bytesXfer - 1).n == 0;
    assert t.Direct(data).n == 1 && t.Takes(data);
    Commuting(t.sent, t.buffer, data, 0, 1);
    assert data[..1] == [data[0]] && t.buffer[0..] == t.buffer;
    OneCommutes(data[0], t.buffer);
    assert !t.AfterPut(data).InOrder();
  }

  /** The flush fails at its last byte; then all the data is taken. */
  lemma {:induction false} DataOvertakes(s: Snapshot, data: seq<u8>)
    requires s.InOrder() && !s.hasError && data != [] && s.buffer != [] && s.bytesXfer <= s.xferLimit
    requires forall i :: 0 <= i < |s.buffer| ==> s.buffer[i] == data[0]
    requires !AllSame(s.buffer + data)
    ensures !OrderSafe(s, data)
  {
    var last := |s.buffer| - 1;
    var backend := if last == 0 then [0, |data|] else [last, 0, |data|];
    var t := s.(replies := backend);
    assert backend[1..] == if last == 0 then [|data|] else [0, |data|];
    assert [0, |data|][1..] == [|data|] && [|data|][1..] == [];
    assert Hand(t.buffer[last..], [0, |data|], 1) == Handed(0, [|data|], Failed);
    assert t.Flushed() == Handed(last, [|data|], Failed);
    assert data[|data|..] == [];
    assert t.Direct(data) == Hand(data[|data|..], [], t.xferLimit - t.bytesXfer - |data|).Plus(|data|);
    assert t.Direct(data) == Handed(|data|, [], Unstopped) && t.Takes(data);
    Commuting(t.sent, t.buffer, data, last, |data|);
    assert t.buffer[last..] == [data[0]] && data[..|data|] == data;
    OneCommutes(data[0], data);
    var i :| 0 <= i < |s.buffer + data| && (s.buffer + data)[i] != (s.buffer + data)[0];
    assert data[i - |s.buffer|] != data[0];
    assert !t.AfterPut(data).InOrder();
  }

  // ------------------------------------------------------------------ whole runs

  datatype Op = Put(data: seq<u8>, pos: int) | Tick | SetRate(rate: nat)

  /** Everything the callers put. */
  function Written(ops: seq<Op>): seq<u8> {
    if ops == [] then [] else
      Written(ops[..|ops| - 1]) + (match ops[|ops| - 1] case Put(data, _) => data case _ => [])
  }

  /** Any sequence of puts, ticks and rate changes, then a close, over any backend: without an error
      the backend has got exactly what was put, in order; a backend that only stalls gives none. */
  method Run(bytesPerSec: nat, backend: seq<int>, ops: seq<Op>) returns (file: QEMUFileBuffered)
    ensures !file.hasError ==> file.sent == Written(ops)
    ensures Healthy(backend) ==> !file.hasError
  {
    file := new QEMUFileBuffered(bytesPerSec, backend);
    for i := 0 to |ops|
      invariant fresh(file) && (!file.hasError ==> file.InOrder() && file.accepted == Written(ops[..i]))
      invariant Healthy(backend) ==> Healthy(file.replies) && !file.hasError
    {
      hide Hand, Healthy, Snapshot.InOrder, Snapshot.AfterPut;
      assert ops[..i + 1][..i] == ops[..i];
      match ops[i]
      case Put(data, pos) =>
        var r;
        ghost var f, d;
        r, f, d := file.PutBuffer(data, pos);
      case Tick =>
        file.RateTick();
      case SetRate(rate) =>
        var r := file.SetRateLimit(rate);
    }
    assert ops[..|ops|] == ops;
    file.Close();
  }

  /** Such puts, one after the other: the backend stalls on the first, fails the flush in the second and
      then takes its byte, which arrives without the one before it. */
  lemma {:induction false} OvertakingPuts(s: Snapshot, one: seq<u8>, two: seq<u8>)
    requires s == Snapshot(false, false, 0, 100, [], [-EAGAIN, -5, 1], [], []) && one == [1] && two == [2]
    ensures s.AfterPut(one) == Snapshot(false, true, 0, 100, one, [-5, 1], [], one)
    ensures s.AfterPut(one).AfterPut(two) == Snapshot(true, false, 1, 100, one, [], two, one + two)
    ensures !s.AfterPut(one).AfterPut(two).InOrder()
  {
    assert s.Flushed() == Handed(0, [-EAGAIN, -5, 1], Unstopped);
    assert s.Direct(one) == Handed(0, [-5, 1], Stalled);
    var t := s.AfterPut(one);
    assert t.Flushed() == Handed(0, [1], Failed);
    var last := [1];
    assert two[1..] == [] && last[1..] == [];
    assert Hand(two, last, 100) == Hand(two[1..], last[1..], 99).Plus(1);
    assert t.Direct(two) == Handed(1, [], Unstopped);
    assert t.buffer[..0] == [] && two[..1] == two;
    assert (two + one)[0] != (one + two)[0];
  }

  /** The run that makes them, from the opening of the file. */
  method OvertakingRun() returns (file: QEMUFileBuffered)
    ensures file.hasError && file.accepted == [1, 2] && file.sent == [2] && file.buffer == [1] && !file.InOrder()
  {
    file := new QEMUFileBuffered(1000, [-EAGAIN, -5, 1]);
    var one: seq<u8>, two: seq<u8> := [1], [2];
    OvertakingPuts(file.Now(), one, two);
    PutTwice(file, one, two);
    assert one + two == [1, 2];
  }

  method PutTwice(file: QEMUFileBuffered, one: seq<u8>, two: seq<u8>)
    modifies file
    ensures file.Now() == old(file.Now()).AfterPut(one).AfterPut(two)
  {
    hide *;
    var r;
    ghost var f, d, s := 0, 0, file.Now();
    r, f, d := file.PutBuffer(one, 1);
    assert file.Now() == s.AfterPut(one);
    r, f, d := file.PutBuffer(two, 2);
  }
}
