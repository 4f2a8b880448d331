/** bdrv_aio_multiwrite and its completion counting (block.c:2239-2280, 2388-2474): the user
    callbacks run exactly once, when everything submitted has reported, with the first error. */
module MultiwriteCompletion {
  import opened Common
  import Merging = MultiwriteMerge

  /** What one whole request reported: the first negative result in the order they came, or 0. */
  function FirstError(log: seq<int>): (e: int)
    ensures e <= 0
  {
    if log == [] then 0
    else if FirstError(log[..|log| - 1]) < 0 then FirstError(log[..|log| - 1])
    else if log[|log| - 1] < 0 then log[|log| - 1]
    else 0
  }

  lemma {:induction false} FirstErrorIsFirst(log: seq<int>)
    ensures FirstError(log) == 0 <==> forall k :: 0 <= k < |log| ==> log[k] >= 0
    ensures FirstError(log) < 0 ==> exists k :: 0 <= k < |log| && log[k] == FirstError(log)
                                                && forall j :: 0 <= j < k ==> log[j] >= 0
  {
    if log != [] {
      var init, n := log[..|log| - 1], |log| - 1;
      FirstErrorIsFirst(init);
      if FirstError(init) < 0 {
        var k :| 0 <= k < |init| && init[k] == FirstError(init) && forall j :: 0 <= j < k ==> init[j] >= 0;
        assert log[k] == FirstError(log) && forall j :: 0 <= j < k ==> log[j] == init[j];
      } else {
        assert forall j :: 0 <= j < n ==> log[j] == init[j];
        if log[n] < 0 {
          assert log[n] == FirstError(log);
        }
      }
    }
  }

  lemma {:induction false} FirstErrorStep(log: seq<int>, ret: int)
    ensures FirstError(log + [ret]) == if FirstError(log) == 0 && ret < 0 then ret else FirstError(log)
  {
    assert (log + [ret])[..|log|] == log;
  }

  /** Each of n user callbacks called once, with the same result. */
  function CalledOnce(n: nat, error: int): (c: seq<(nat, int)>)
    ensures |c| == n && forall i :: 0 <= i < n ==> c[i] == (i, error)
  {
    seq(n, i requires 0 <= i => (i, error))
  }

  class MultiwriteCB {
    var error: int
    var numRequests: nat
    const numCallbacks: nat
    var called: seq<(nat, int)>   // user callbacks run so far: index and result
    ghost var log: seq<int>       // results passed to Cb so far
    ghost var freed: bool

    /** The record is live exactly while something is outstanding, and then no callback has run;
        afterwards all have, once each, with the first error reported. */
    ghost predicate Valid()
      reads this
    {
      && error == FirstError(log)
      && (freed <==> numRequests == 0)
      && called == if freed then CalledOnce(numCallbacks, FirstError(log)) else []
    }

    constructor (n: nat)
      ensures Valid() && !freed && numRequests == 1 && numCallbacks == n && log == []
    {
      error, numRequests, numCallbacks, called := 0, 1, n, [];
      log, freed := [], false;
    }

    /** multiwrite_user_cb */
    method UserCb()
      requires !freed && called == []
      modifies this`called
      ensures called == CalledOnce(numCallbacks, error)
    {
      for i := 0 to numCallbacks
        invariant called == CalledOnce(i, error)
      {
        called := called + [(i, error)];
      }
    }

    /** multiwrite_cb */
    method Cb(ret: int)
      requires Valid() && !freed
      modifies this
      ensures Valid() && log == old(log) + [ret] && numRequests == old(numRequests) - 1
    {
      FirstErrorStep(log, ret);
      hide FirstError, CalledOnce;
      if ret < 0 && error == 0 {
        error := ret;
      }
      log := log + [ret];
      numRequests := numRequests - 1;
      if numRequests == 0 {
        UserCb();
        freed := true;
      }
    }

    /** Results arriving one after another, from the driver or from the event loop. No callback
        runs before the last one, and all of them run with it. */
    method Deliver(rets: seq<int>)
      requires Valid() && |rets| <= numRequests
      modifies this
      ensures Valid() && log == old(log) + rets && numRequests == old(numRequests) - |rets|
      ensures |rets| < old(numRequests) ==> called == []
      ensures |rets| == old(numRequests) > 0 ==> called == CalledOnce(numCallbacks, FirstError(old(log) + rets))
    {
      for k := 0 to |rets|
        invariant Valid() && log == old(log) + rets[..k] && numRequests == old(numRequests) - k
      {
        Cb(rets[k]);
        assert rets[..k + 1] == rets[..k] + [rets[k]];
      }
      assert rets[..|rets|] == rets;
    }
  }

  // ------------------------------------------------------------------ submitting

  /** What the driver does: the results it delivers while call i of bdrv_aio_writev is running,
      and the first call that returns NULL (or the number of calls, when none does). */
  datatype Driver = Driver(during: seq<seq<int>>, failAt: nat)

  function Count(d: seq<seq<int>>): (n: nat)
  {
    if d == [] then 0 else Count(d[..|d| - 1]) + |d[|d| - 1]|
  }

  function Flat(d: seq<seq<int>>): (s: seq<int>)
    ensures |s| == Count(d)
  {
    if d == [] then [] else Flat(d[..|d| - 1]) + d[|d| - 1]
  }

  /** The calls made, and the requests handed over by them. */
  function Calls(d: Driver, n: nat): nat { if d.failAt < n then d.failAt + 1 else n }
  function Submitted(d: Driver, n: nat): nat { if d.failAt < n then d.failAt else n }

  /** During call i only requests handed over so far report, each at most once: a call that
      returns NULL hands over none. */
  ghost predicate Plausible(d: Driver, n: nat) {
    && Calls(d, n) <= |d.during|
    && forall i :: 0 <= i < Calls(d, n) ==> InTime(d, i)
  }

  predicate InTime(d: Driver, i: nat)
    requires i < |d.during|
  {
    Count(d.during[..i + 1]) <= if i == d.failAt then i else i + 1
  }

  /** Results up to and including call i. */
  lemma {:induction false} NextCall(d: Driver, i: nat)
    requires i < |d.during|
    ensures Flat(d.during[..i + 1]) == Flat(d.during[..i]) + d.during[i]
    ensures Count(d.during[..i + 1]) == Count(d.during[..i]) + |d.during[i]|
  {
    assert d.during[..i + 1][..i] == d.during[..i];
  }

  /** The results the counting sees until bdrv_aio_multiwrite returns: the driver's, then -EIO if
      a later call failed, then the dummy's 0. */
  function SubmitLog(d: Driver, n: nat): seq<int>
    requires Calls(d, n) <= |d.during|
  {
    Flat(d.during[..Calls(d, n)]) + (if d.failAt < n then [-EIO] else []) + [0]
  }

  /** The submission loop and the dummy's completion; false when the very first call failed. The
      record stays live until the dummy completes, whatever reports early. */
  method Submit(m: MultiwriteCB, n: nat, d: Driver) returns (ok: bool)
    requires m.Valid() && !m.freed && m.numRequests == 1 && m.log == [] && n > 0 && Plausible(d, n)
    modifies m
    ensures ok <==> d.failAt > 0
    ensures !ok ==> !m.freed && m.called == []
    ensures ok ==> m.Valid() && m.log == SubmitLog(d, n)
                   && m.numRequests == Submitted(d, n) - Count(d.during[..Calls(d, n)])
  {
    hide FirstError, CalledOnce, Count, Flat;
    var i := 0;
    assert Count(d.during[..0]) == 0 && Flat(d.during[..0]) == [] by { NoCalls(d); }
    while i < n && i != d.failAt
      invariant 0 <= i <= n && i <= d.failAt
      invariant m.Valid() && m.log == Flat(d.during[..i])
      invariant Count(d.during[..i]) <= i && m.numRequests == 1 + i - Count(d.during[..i])
    {
      m.numRequests := m.numRequests + 1;
      NextCall(d, i);
      assert InTime(d, i);
      m.Deliver(d.during[i]);
      i := i + 1;
    }
    if i < n {
      m.numRequests := m.numRequests + 1;
      NextCall(d, i);
      assert InTime(d, i);
      m.Deliver(d.during[i]);
      if i == 0 {
        return false;
      }
      m.Cb(-EIO);
    }
    m.Cb(0);
    ok := true;
  }

  lemma {:induction false} NoCalls(d: Driver)
    ensures Count(d.during[..0]) == 0 && Flat(d.during[..0]) == []
  {
  }

  method SetErrors(errors: array<int>, e: int)
    modifies errors
    ensures forall i :: 0 <= i < errors.Length ==> errors[i] == e
  {
    for i := 0 to errors.Length
      invariant forall k :: 0 <= k < i ==> errors[k] == e
    {
      errors[i] := e;
    }
  }

  /** The arrangement of the requests that qsort leaves. */
  ghost predicate Arranged(sorted: seq<Merging.Request>, reqs: seq<Merging.Request>) {
    |sorted| == |reqs| && multiset(sorted) == multiset(reqs)
    && (sorted != [] ==> Merging.Sorted([sorted[0]] + sorted[1..]))
  }

  /** The requests merging leaves to submit. */
  ghost function Left(e: Merging.Env, sorted: seq<Merging.Request>): seq<Merging.Request>
    requires sorted != [] ==> Merging.Sorted([sorted[0]] + sorted[1..])
  {
    if sorted == [] then [] else Merging.Merge(e, sorted[0], sorted[1..])
  }

  /** bdrv_aio_multiwrite. On failure every request's error field is set and no callback ever runs.
      Otherwise the error fields are as before, the merged requests are submitted, the results so far
      are the driver's, and what is still awaited is exactly the requests handed over that have not
      reported: the callbacks, one for each original request, have run iff there is none. */
  method AioMultiwrite(medium: bool, e: Merging.Env, reqs: array<Merging.Request>, sorted: seq<Merging.Request>,
                       d: Driver, errors: array<int>)
    returns (ret: int, mcb: MultiwriteCB?)
    requires reqs.Length == errors.Length && reqs as object != errors as object && Arranged(sorted, reqs[..])
    requires Plausible(d, |Left(e, sorted)|)
    modifies errors, reqs
    ensures ret == -1 <==> !medium || (reqs.Length > 0 && d.failAt == 0)
    ensures ret == -1 ==> mcb == null
                          && forall i :: 0 <= i < errors.Length ==> errors[i] == if medium then -EIO else -ENOMEDIUM
    ensures ret != -1 ==> ret == 0 && errors[..] == old(errors[..]) && (mcb == null <==> reqs.Length == 0)
    ensures ret == 0 ==> |Left(e, sorted)| <= reqs.Length && reqs[..|Left(e, sorted)|] == Left(e, sorted)
    ensures mcb != null ==> fresh(mcb) && mcb.Valid() && mcb.numCallbacks == errors.Length
                            && mcb.log == SubmitLog(d, |Left(e, sorted)|)
                            && mcb.numRequests == Submitted(d, |Left(e, sorted)|)
                                                  - Count(d.during[..Calls(d, |Left(e, sorted)|)])
  {
    hide Plausible, SubmitLog, Count;
    ret, mcb := -1, null;
    if !medium {
      SetErrors(errors, -ENOMEDIUM);
      return;
    }
    if reqs.Length == 0 {
      ret := 0;
      return;
    }
    var m := new MultiwriteCB(errors.Length);
    var n := Merging.MultiwriteMerge(e, reqs, sorted);
    var ok := Submit(m, n, d);
    if !ok {
      SetErrors(errors, -EIO);
      return;
    }
    ret, mcb := 0, m;
  }

  /** Whole run: after the remaining results arrive every user callback has run exactly once,
      with the first error of the run, and none ran before the last result. */
  method RunToCompletion(e: Merging.Env, reqs: array<Merging.Request>, sorted: seq<Merging.Request>, d: Driver,
                         errors: array<int>, later: seq<int>)
    returns (mcb: MultiwriteCB)
    requires reqs.Length == errors.Length > 0 && reqs as object != errors as object && Arranged(sorted, reqs[..])
    requires Plausible(d, |Left(e, sorted)|) && d.failAt > 0
    requires |later| == Submitted(d, |Left(e, sorted)|) - Count(d.during[..Calls(d, |Left(e, sorted)|)])
    modifies errors, reqs
    ensures mcb.called == CalledOnce(errors.Length, FirstError(SubmitLog(d, |Left(e, sorted)|) + later))
  {
    hide FirstError, Count;
    var ret, m := AioMultiwrite(true, e, reqs, sorted, d, errors);
    mcb := m;
    ghost var log := SubmitLog(d, |Left(e, sorted)|);
    if later == [] {
      assert log + later == log;
    }
    mcb.Deliver(later);
  }

  /** A submission that fails after the first is always reported. */
  lemma {:induction false} LateFailureReported(d: Driver, n: nat, later: seq<int>)
    requires Plausible(d, n) && 0 < d.failAt < n
    ensures FirstError(SubmitLog(d, n) + later) < 0
  {
    var log := SubmitLog(d, n) + later;
    assert log[|Flat(d.during[..Calls(d, n)])|] == -EIO;
    FirstErrorIsFirst(log);
  }

  predicate AllOk(log: seq<int>) {
    forall k :: 0 <= k < |log| ==> log[k] >= 0
  }

  lemma {:induction false} AllOkConcat(a: seq<int>, b: seq<int>)
    ensures AllOk(a + b) <==> AllOk(a) && AllOk(b)
  {
    if AllOk(a + b) {
      assert forall k :: 0 <= k < |a| ==> a[k] == (a + b)[k];
      assert forall k :: 0 <= k < |b| ==> b[k] == (a + b)[|a| + k];
    }
  }

  /** Without a failed submission, success is reported exactly when every request succeeded. */
  lemma {:induction false} SuccessReported(d: Driver, n: nat, later: seq<int>)
    requires Plausible(d, n) && n <= d.failAt
    ensures FirstError(SubmitLog(d, n) + later) == 0 <==> AllOk(Flat(d.during[..n])) && AllOk(later)
  {
    var a, log := Flat(d.during[..n]), SubmitLog(d, n) + later;
    assert log == a + [0] + later by {
      assert a + [] == a;
    }
    AllOkConcat(a + [0], later);
    AllOkConcat(a, [0]);
    FirstErrorIsFirst(log);
  }
}
