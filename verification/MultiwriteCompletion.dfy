/**
 bdrv_aio_multiwrite: submitting a merged batch and counting its completions, some of which arrive
 while requests are still being submitted.
 */
module MultiwriteCompletion {
  import opened Options
  import opened WriteMerging
  import opened Multiwrite

  /** The first error among the results, in the order they were reported; 0 if there is none. */
  ghost function FirstError(reports: seq<int>): int {
    if reports == [] then 0 else if reports[0] < 0 then reports[0] else FirstError(reports[1..])
  }

  lemma {:induction false} FirstErrorSnoc(reports: seq<int>, ret: int)
    ensures FirstError(reports + [ret]) == if FirstError(reports) != 0 then FirstError(reports) else if ret < 0 then ret else 0
    decreases |reports|
  {
    if reports != [] {
      assert (reports + [ret])[1..] == reports[1..] + [ret];
      FirstErrorSnoc(reports[1..], ret);
    } else {
      assert (reports + [ret])[1..] == [];
    }
  }

  /** A user callback that was run, and the error it was given. */
  datatype Call = Call(cb: nat, error: int)

  /** Every callback once, each with the same error. */
  ghost function EachOnce(callbacks: seq<nat>, error: int): (calls: seq<Call>) {
    seq(|callbacks|, i requires 0 <= i < |callbacks| => Call(callbacks[i], error))
  }

  /** Why multiwrite_cb is called: a request completed, a request could not be submitted, or the
      submission loop is over. */
  datatype Reason = Completed | Refused | LoopEnded

  class MultiwriteCb {
    var error: int
    var numRequests: int
    const callbacks: seq<nat>
    var calls: seq<Call>
    var freed: bool
    var accepted: nat                // requests the driver took and has not completed
    var submitted: seq<Request>      // every request the driver took
    ghost var refused: bool          // one request is counted that the driver did not take
    ghost var looping: bool          // the submission loop has not ended
    ghost var late: bool             // a request that was not taken has been reported
    ghost var reports: seq<int>      // what multiwrite_cb was told, in order

    /** The counter is what is still to come. The callbacks have run exactly when nothing is: the
        loop has ended, and every request that was submitted has completed. Every request reports
        once. */
    ghost predicate Valid()
      reads this
    {
      && numRequests == accepted + (if refused then 1 else 0) + (if looping then 1 else 0)
      && error == FirstError(reports)
      && |reports| + accepted == |submitted| + (if late then 1 else 0) + (if looping then 0 else 1)
      && (freed <==> numRequests == 0)
      && calls == if freed then EachOnce(callbacks, error) else []
    }

    constructor (callbacks: seq<nat>)
      ensures Valid() && !freed && this.callbacks == callbacks && accepted == 0 && !refused && looping
      ensures reports == [] && submitted == [] && !late
    {
      this.callbacks := callbacks;
      error, numRequests, calls, freed := 0, 1, [], false;
      accepted, submitted, refused, looping, late, reports := 0, [], false, true, false, [];
    }

    /** multiwrite_user_cb */
    method UserCb()
      requires calls == []
      modifies this`calls
      ensures calls == EachOnce(callbacks, error)
    {
      for i := 0 to |callbacks|
        invariant calls == EachOnce(callbacks, error)[..i]
      {
        calls := calls + [Call(callbacks[i], error)];
      }
    }

    /** multiwrite_cb */
    method Report(ret: int, why: Reason)
      requires Valid() && !freed
      requires match why case Completed => accepted > 0 case Refused => refused && !late case LoopEnded => looping
      modifies this
      ensures Valid() && reports == old(reports) + [ret] && submitted == old(submitted)
      ensures error == if old(error) != 0 then old(error) else if ret < 0 then ret else 0
      ensures accepted == old(accepted) - (if why == Completed then 1 else 0)
      ensures refused == (old(refused) && why != Refused) && looping == (old(looping) && why != LoopEnded)
      ensures late == (old(late) || why == Refused)
    {
      hide FirstError, EachOnce;
      FirstErrorSnoc(reports, ret);
      reports := reports + [ret];
      if ret < 0 && error == 0 { error := ret; }
      match why {
        case Completed => accepted := accepted - 1;
        case Refused => refused, late := false, true;
        case LoopEnded => looping := false;
      }
      numRequests := numRequests - 1;
      if numRequests == 0 {
        UserCb();
        freed := true;
      }
    }
  
    /** Requests the driver took complete, with these results, one after the other; results beyond
        the number of such requests are never delivered. */
    method Deliver(results: seq<int>)
      requires Valid()
      modifies this
      ensures Valid() && refused == old(refused) && looping == old(looping) && late == old(late)
      ensures submitted == old(submitted) && accepted == old(accepted) - Delivered(results, old(accepted))
      ensures reports == old(reports) + results[..Delivered(results, old(accepted))]
    {
      var k := 0;
      ghost var was := reports;
      assert was + results[..0] == was;
      while accepted > 0 && k < |results|
        invariant Valid() && refused == old(refused) && looping == old(looping) && late == old(late)
        invariant submitted == old(submitted) && k <= |results| && k <= old(accepted) && accepted == old(accepted) - k
        invariant reports == was + results[..k]
        decreases accepted
      {
        Report(results[k], Completed);
        assert was + results[..k] + [results[k]] == was + results[..k + 1];
        k := k + 1;
      }
    }
  }

  /** How many of the results are delivered when `n` requests are outstanding. */
  function Delivered(results: seq<int>, n: nat): (k: nat)
    ensures k <= |results| && k <= n
  {
    if |results| <= n then |results| else n
  }

  /** What the outside world does while a request is submitted: the driver takes it or not, and
      requests complete with these results. */
  datatype Submission = Submission(takes: bool, results: seq<int>)

  /** A submission loop from request `i` on: what is reported during it, how many requests the driver
      takes, how many of them are then outstanding, and whether it refused one. */
  datatype Loop = Loop(reports: seq<int>, taken: nat, outstanding: nat, refused: bool)

  function Nth(subs: seq<Submission>, i: nat): Submission {
    if i < |subs| then subs[i] else Submission(true, [])
  }

  function SubmitLoop(subs: seq<Submission>, i: nat, count: nat, outstanding: nat): (l: Loop)
    requires i <= count
    ensures i + l.taken <= count && (!l.refused ==> i + l.taken == count)
    decreases count - i
  {
    if i == count then Loop([], 0, outstanding, false)
    else
      var s := Nth(subs, i);
      var n := if s.takes then outstanding + 1 else outstanding;
      var k := Delivered(s.results, n);
      if !s.takes then Loop(s.results[..k], 0, n - k, true)
      else
        var l := SubmitLoop(subs, i + 1, count, n - k);
        Loop(s.results[..k] + l.reports, 1 + l.taken, l.outstanding, l.refused)
  }

  /** The results of the requests still outstanding after the loop; 0 for those not foretold. */
  function Later(results: seq<int>, n: nat): (r: seq<int>)
    ensures |r| == n
  {
    seq(n, i requires 0 <= i < n => if i < |results| then results[i] else 0)
  }

  /** All that multiwrite_cb is told. */
  ghost function AllReports(l: Loop, later: seq<int>): seq<int> {
    l.reports + (if l.refused then [-EIO] else []) + [0] + Later(later, l.outstanding)
  }

  ghost function Callbacks(rs: seq<Request>): (c: seq<nat>)
    ensures |c| == |rs| && forall i :: 0 <= i < |rs| ==> c[i] == rs[i].cb
  {
    seq(|rs|, i requires 0 <= i < |rs| => rs[i].cb)
  }

  /** bdrv_aio_writev on one request: the driver takes it or not, and meanwhile others complete. */
  method Submit(mcb: MultiwriteCb, r: Request, s: Submission)
    requires mcb.Valid() && mcb.looping && !mcb.refused
    modifies mcb
    ensures mcb.late == old(mcb.late) && mcb.Valid() && mcb.looping && mcb.refused == !s.takes
    ensures mcb.submitted == old(mcb.submitted) + if s.takes then [r] else []
    ensures var n := if s.takes then old(mcb.accepted) + 1 else old(mcb.accepted);
            mcb.accepted == n - Delivered(s.results, n) && mcb.reports == old(mcb.reports) + s.results[..Delivered(s.results, n)]
  {
    hide FirstError, EachOnce;
    mcb.numRequests := mcb.numRequests + 1;
    if s.takes {
      mcb.accepted := mcb.accepted + 1;
      mcb.submitted := mcb.submitted + [r];
    } else {
      mcb.refused := true;
    }
    mcb.Deliver(s.results);
  }

  method FailAll(reqs: array<Request>, error: int)
    modifies reqs
    ensures forall j :: 0 <= j < reqs.Length ==> reqs[j] == old(reqs[j]).(error := error)
  {
    for i := 0 to reqs.Length
      invariant forall j :: 0 <= j < reqs.Length ==> reqs[j] == if j < i then old(reqs[j]).(error := error) else old(reqs[j])
    {
      reqs[i] := reqs[i].(error := error);
    }
  }

  /** The submission loop and the dummy completion that ends it. */
  method SubmitAll(reqs: array<Request>, count: nat, mcb: MultiwriteCb, subs: seq<Submission>) returns (failed: bool)
    requires 0 < count <= reqs.Length && mcb.Valid() && mcb.looping && !mcb.refused && mcb.submitted == [] && mcb.accepted == 0
    requires mcb.reports == [] && !mcb.late
    modifies mcb
    ensures failed <==> !Nth(subs, 0).takes
    ensures failed ==> !mcb.freed && mcb.calls == [] && mcb.accepted == 0 && mcb.submitted == []
    ensures var l := SubmitLoop(subs, 0, count, 0);
            !failed ==>
              && mcb.Valid() && !mcb.looping && !mcb.refused && mcb.submitted == reqs[..l.taken] && mcb.accepted == l.outstanding
              && mcb.reports == l.reports + (if l.refused then [-EIO] else []) + [0]
  {
    hide FirstError, EachOnce, SubmitLoop, Nth;
    failed := false;
    var i := 0;
    ghost var all := SubmitLoop(subs, 0, count, 0);
    assert [] + all.reports == all.reports;
    while i < count
      invariant i <= count && mcb.Valid() && mcb.looping && !mcb.refused && mcb.submitted == reqs[..i] && !mcb.late
      invariant i == 0 ==> mcb.accepted == 0 && mcb.reports == []
      invariant i > 0 ==> Nth(subs, 0).takes
      invariant Along(all, mcb.reports, i, SubmitLoop(subs, i, count, mcb.accepted))
    {
      SubmitTurn(subs, i, count, mcb.accepted, mcb.reports, all);
      ghost var before := mcb.reports;
      var s := Nth(subs, i);
      Submit(mcb, reqs[i], s);
      if !s.takes {
        if i == 0 {
          failed := true;
          return;
        }
        mcb.Report(-EIO, Refused);
        mcb.Report(0, LoopEnded);
        return;
      }
      i := i + 1;
    }
    SubmitEnd(subs, count, mcb.accepted, mcb.reports, all);
    mcb.Report(0, LoopEnded);
    assert mcb.reports == all.reports + [] + [0];
  }

  /** Where the loop stands: `reports` were made and `taken` requests submitted, and `rest` is before
      it. */
  predicate Along(all: Loop, reports: seq<int>, taken: nat, rest: Loop) {
    all == Loop(reports + rest.reports, taken + rest.taken, rest.outstanding, rest.refused)
  }

  lemma SubmitTurn(subs: seq<Submission>, i: nat, count: nat, outstanding: nat, reports: seq<int>, all: Loop)
    requires i < count && Along(all, reports, i, SubmitLoop(subs, i, count, outstanding))
    ensures var s := Nth(subs, i);
            var n := if s.takes then outstanding + 1 else outstanding;
            var k := Delivered(s.results, n);
            if s.takes then Along(all, reports + s.results[..k], i + 1, SubmitLoop(subs, i + 1, count, n - k))
            else all == Loop(reports + s.results[..k], i, n - k, true)
  {
    hide Nth;
    var s := Nth(subs, i);
    var n := if s.takes then outstanding + 1 else outstanding;
    var now := s.results[..Delivered(s.results, n)];
    if s.takes {
      var l := SubmitLoop(subs, i + 1, count, n - |now|);
      assert reports + (now + l.reports) == reports + now + l.reports;
    }
  }

  lemma SubmitEnd(subs: seq<Submission>, count: nat, outstanding: nat, reports: seq<int>, all: Loop)
    requires Along(all, reports, count, SubmitLoop(subs, count, count, outstanding))
    ensures all == Loop(reports, count, outstanding, false)
  {
    assert reports + [] == reports;
  }

  /** bdrv_aio_multiwrite. `count` requests are left after merging. */
  method AioMultiwrite(reqs: array<Request>, hasDrv: bool, driverMerges: bool, subs: seq<Submission>)
    returns (ret: int, mcb: MultiwriteCb?, count: nat, ghost sorted: seq<Request>, ghost merged: seq<bool>)
    requires forall j :: 0 <= j < reqs.Length ==> RequestOk(reqs[j])
    modifies reqs
    ensures mcb == null <==> !hasDrv || reqs.Length == 0
    ensures !hasDrv ==> ret == -1 && forall j :: 0 <= j < reqs.Length ==> reqs[j] == old(reqs[j]).(error := -ENOMEDIUM)
    ensures hasDrv && reqs.Length == 0 ==> ret == 0
    ensures mcb != null ==> fresh(mcb) && mcb.callbacks == Callbacks(old(reqs[..])) && 0 < count <= reqs.Length
    ensures mcb != null ==> ret == if Nth(subs, 0).takes then 0 else -1
    ensures mcb != null && ret == -1 ==> mcb.calls == [] && mcb.accepted == 0 && mcb.submitted == []
    ensures mcb != null && ret == -1 ==> forall j :: 0 <= j < reqs.Length ==> reqs[j].error == -EIO
    ensures mcb != null && ret == 0 ==>
              var l := SubmitLoop(subs, 0, count, 0);
              && mcb.Valid() && !mcb.looping && !mcb.refused && mcb.submitted == reqs[..l.taken] && mcb.accepted == l.outstanding
              && mcb.reports == l.reports + (if l.refused then [-EIO] else []) + [0]
    ensures mcb != null && ret == 0 ==> SortedBatch(old(reqs[..]), sorted, merged, driverMerges) && WrittenAs(reqs[..count], sorted, merged)
  {
    hide Merging, Decides, Choices, Written, SubmitLoop, Nth, FirstError;
    mcb, sorted, merged, count := null, [], [], 0;
    if !hasDrv {
      FailAll(reqs, -ENOMEDIUM);
      ret := -1;
      return;
    }
    if reqs.Length == 0 {
      ret := 0;
      return;
    }
    var cbs := [];
    for i := 0 to reqs.Length
      invariant cbs == Callbacks(reqs[..])[..i] && reqs[..] == old(reqs[..])
    {
      cbs := cbs + [reqs[i].cb];
    }
    mcb := new MultiwriteCb(cbs);
    count, sorted, merged := Merge(reqs, driverMerges);
    var failed := SubmitAll(reqs, count, mcb, subs);
    ret := 0;
    if failed {
      FailAll(reqs, -EIO);
      ret := -1;
    }
  }

  ghost predicate SortedBatch(was: seq<Request>, sorted: seq<Request>, merged: seq<bool>, driverMerges: bool) {
    && SortedBySector(sorted) && multiset(sorted) == multiset(was)
    && |merged| == |sorted| && Batch(Spans(sorted), merged) && Choices(sorted, merged, |sorted|, driverMerges)
  }

  /** The requests, written in order, leave what Decides says of the sorted batch. */
  ghost predicate WrittenAs(left: seq<Request>, sorted: seq<Request>, merged: seq<bool>)
    requires Batch(Spans(sorted), merged)
  {
    forall p: nat :: Written(Spans(left), p) == Shows(Spans(sorted), Decides(Spans(sorted), merged, |sorted|, p), p)
  }

  /** Over every run, to the last completion: when the first submission is refused no callback ever
      runs. Otherwise exactly the requests before the first refusal are submitted, and every callback
      runs exactly once, with the first error among what was reported: the results of the requests
      submitted, one each, and -EIO for a late refusal. Without a refusal all of the merged batch
      was written. */
  method RunMultiwrite(reqs: array<Request>, driverMerges: bool, subs: seq<Submission>, later: seq<int>)
    returns (ret: int, calls: seq<Call>, submitted: seq<Request>, count: nat, ghost sorted: seq<Request>, ghost merged: seq<bool>)
    requires reqs.Length > 0 && forall j :: 0 <= j < reqs.Length ==> RequestOk(reqs[j])
    modifies reqs
    ensures 0 < count <= reqs.Length && ret == if Nth(subs, 0).takes then 0 else -1
    ensures ret == -1 ==> calls == [] && submitted == []
    ensures ret == 0 ==>
              var l := SubmitLoop(subs, 0, count, 0);
              && submitted == reqs[..l.taken]
              && calls == EachOnce(Callbacks(old(reqs[..])), FirstError(AllReports(l, later)))
    ensures ret == 0 ==> SortedBatch(old(reqs[..]), sorted, merged, driverMerges) && WrittenAs(reqs[..count], sorted, merged)
  {
    hide WrittenAs, SortedBatch, FirstError, SubmitLoop, Nth, Later;
    var mcb: MultiwriteCb?;
    ret, mcb, count, sorted, merged := AioMultiwrite(reqs, true, driverMerges, subs);
    if ret == 0 {
      ghost var l := SubmitLoop(subs, 0, count, 0);
      ghost var n, before := mcb.accepted, mcb.reports;
      mcb.Deliver(Later(later, mcb.accepted));
      assert Later(later, n)[..n] == Later(later, n);
    }
    calls, submitted := mcb.calls, mcb.submitted;
  }

  /** Every request the driver takes is reported once, during the loop or after it. */
  lemma {:induction false} EachReportsOnce(subs: seq<Submission>, i: nat, count: nat, outstanding: nat)
    requires i <= count
    ensures var l := SubmitLoop(subs, i, count, outstanding);
            |l.reports| + l.outstanding == outstanding + l.taken
    decreases count - i
  {
    if i < count && Nth(subs, i).takes {
      EachReportsOnce(subs, i + 1, count, outstanding + 1 - Delivered(Nth(subs, i).results, outstanding + 1));
    }
  }
}
