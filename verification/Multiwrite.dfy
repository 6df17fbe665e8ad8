/**
 bdrv_aio_multiwrite: a batch of write requests is sorted, merged in place, submitted, and completed
 through one shared counter.
 */
module Multiwrite {
  import opened Options
  import opened WriteMerging

  const IOV_MAX := 1024
  const EIO := 5
  const ENOMEDIUM := 123

  /** A scatter list; every element is one buffer. */
  type Iovec = seq<seq<Byte>>

  /** The bytes of a scatter list. */
  function Flat(q: Iovec): (b: seq<Byte>) {
    if q == [] then [] else q[0] + Flat(q[1..])
  }

  lemma {:induction false} FlatConcat(q: Iovec, r: Iovec)
    ensures Flat(q + r) == Flat(q) + Flat(r)
  {
    if q == [] {
      assert q + r == r;
    } else {
      assert (q + r)[1..] == q[1..] + r;
      FlatConcat(q[1..], r);
    }
  }

  lemma FlatSnoc(q: Iovec, b: seq<Byte>)
    ensures Flat(q + [b]) == Flat(q) + b
  {
    FlatConcat(q, [b]);
    assert Flat([b]) == b + Flat([]);
  }

  /** qemu_iovec_concat: the first `size` bytes of `src`, or all of it if it is shorter, go to the
      end of `dst`. */
  method IovecConcat(dst: Iovec, src: Iovec, size: nat) returns (q: Iovec)
    ensures Flat(q) == Flat(dst) + Flat(src)[..if size <= |Flat(src)| then size else |Flat(src)|]
    ensures |q| <= |dst| + |src|
  {
    hide Flat;
    q := dst;
    var done, i := 0, 0;
    FlatEnds(src);
    assert Flat(dst) == Flat(dst) + Flat(src)[..0];
    while i < |src| && done != size
      invariant i <= |src| && |q| <= |dst| + i
      invariant done == |Flat(src[..i])| <= size && Flat(q) == Flat(dst) + Flat(src[..i])
    {
      ghost var before := Flat(src[..i]);
      FlatNext(src, i);
      FlatSplit(src, i + 1);
      FlatSnoc(q, src[i]);
      if |src[i]| > 0 {
        if done + |src[i]| > size {
          FlatSnoc(q, src[i][..size - done]);
          q := q + [src[i][..size - done]];
          assert Flat(src)[..size] == before + src[i][..size - done];
          return;
        }
        q := q + [src[i]];
        done := done + |src[i]|;
      }
      i := i + 1;
    }
    FlatSplit(src, i);
    if i == |src| { FlatEnds(src[i..]); }
  }

  lemma FlatEnds(src: Iovec)
    ensures src[..0] == [] && Flat([]) == [] && src[..|src|] == src
  {
  }

  lemma FlatSplit(src: Iovec, i: nat)
    requires i <= |src|
    ensures Flat(src) == Flat(src[..i]) + Flat(src[i..])
  {
    hide Flat;
    FlatConcat(src[..i], src[i..]);
    assert src == src[..i] + src[i..];
  }

  lemma FlatNext(src: Iovec, i: nat)
    requires i < |src|
    ensures Flat(src[..i + 1]) == Flat(src[..i]) + src[i]
  {
    hide Flat;
    FlatSnoc(src[..i], src[i]);
    assert src[..i + 1] == src[..i] + [src[i]];
  }

  /** A BlockRequest; `cb` stands for the callback and its argument. */
  datatype Request = Request(sector: nat, nb: nat, qiov: Iovec, cb: nat, error: int)

  /** What callers guarantee: the scatter list holds the sectors to write. */
  ghost predicate RequestOk(r: Request) {
    |Flat(r.qiov)| == 512 * r.nb
  }

  ghost function SpanOf(r: Request): Span {
    Span(512 * r.sector, Flat(r.qiov))
  }

  ghost function Spans(rs: seq<Request>): (xs: seq<Span>)
    ensures |xs| == |rs| && forall i :: 0 <= i < |rs| ==> xs[i] == SpanOf(rs[i])
  {
    seq(|rs|, i requires 0 <= i < |rs| => SpanOf(rs[i]))
  }

  // ---------------------------------------------------------------- sorting

  predicate SortedBySector(rs: seq<Request>) {
    forall i, j :: 0 <= i <= j < |rs| ==> rs[i].sector <= rs[j].sector
  }

  /** Where a request belongs among sorted ones. */
  ghost function Place(r: Request, rs: seq<Request>, k: nat): (p: nat)
    requires SortedBySector(rs) && k <= |rs| && forall i :: 0 <= i < k ==> rs[i].sector <= r.sector
    ensures p <= |rs| && (forall i :: 0 <= i < p ==> rs[i].sector <= r.sector)
    ensures forall i :: p <= i < |rs| ==> r.sector <= rs[i].sector
    decreases |rs| - k
  {
    if k == |rs| || r.sector <= rs[k].sector then k else Place(r, rs, k + 1)
  }

  lemma InsertSorted(r: Request, rs: seq<Request>, p: nat)
    requires SortedBySector(rs) && p == Place(r, rs, 0)
    ensures SortedBySector(rs[..p] + [r] + rs[p..])
  {
    hide Place;
    var t := rs[..p] + [r] + rs[p..];
    forall i, j | 0 <= i <= j < |t| ensures t[i].sector <= t[j].sector {
      assert t[i] == (if i < p then rs[i] else if i == p then r else rs[i - 1]);
      assert t[j] == (if j < p then rs[j] else if j == p then r else rs[j - 1]);
    }
  }

  lemma InsertPermutes(r: Request, rs: seq<Request>, p: nat)
    requires p <= |rs|
    ensures multiset(rs[..p] + [r] + rs[p..]) == multiset([r] + rs)
  {
    assert rs == rs[..p] + rs[p..];
  }

  /** Every batch can be sorted. */
  lemma {:induction false} Sortable(rs: seq<Request>) returns (t: seq<Request>)
    ensures SortedBySector(t) && multiset(t) == multiset(rs)
  {
    if rs == [] {
      t := [];
    } else {
      var u := Sortable(rs[1..]);
      var p := Place(rs[0], u, 0);
      t := u[..p] + [rs[0]] + u[p..];
      InsertSorted(rs[0], u, p);
      InsertPermutes(rs[0], u, p);
      assert rs == [rs[0]] + rs[1..];
    }
  }

  /** qsort with multiwrite_req_compare: any permutation that is in order; nothing is promised about
      requests that start at the same sector. */
  method Qsort(reqs: array<Request>)
    modifies reqs
    ensures SortedBySector(reqs[..]) && multiset(reqs[..]) == multiset(old(reqs[..]))
  {
    ghost var some := Sortable(reqs[..]);
    var t: seq<Request> :| SortedBySector(t) && multiset(t) == multiset(reqs[..]);
    assert |t| == |multiset(t)| == |multiset(reqs[..])| == reqs.Length;
    for i := 0 to reqs.Length
      invariant forall j :: 0 <= j < i ==> reqs[j] == t[j]
    {
      reqs[i] := t[i];
    }
    assert reqs[..] == t;
  }

  // ---------------------------------------------------------------- merging

  lemma SpanEnd(r: Request)
    requires RequestOk(r)
    ensures End(SpanOf(r)) == 512 * (r.sector + r.nb)
  {
  }

  /** The scatter list of two requests combined: the first up to where the second starts, zeros if
      it ends before that, then the second. */
  method CombineIovecs(a: Request, b: Request) returns (q: Iovec)
    requires RequestOk(a) && RequestOk(b) && a.sector <= b.sector
    ensures Span(512 * a.sector, Flat(q)) == Combine(SpanOf(a), SpanOf(b))
    ensures |q| <= |a.qiov| + |b.qiov| + 1
  {
    hide Flat;
    var size := 512 * (b.sector - a.sector);
    var last := a.sector + a.nb;
    FlatEnds([]);
    q := IovecConcat([], a.qiov, size);
    if b.sector > last {
      var zeros := seq(512 * (b.sector - last), _ => 0);
      FlatSnoc(q, zeros);
      q := q + [zeros];
    }
    q := IovecConcat(q, b.qiov, |Flat(b.qiov)|);
  }

  /** The number of buffers in the first n requests, and one more for each. */
  ghost function Pieces(rs: seq<Request>, n: nat): nat
    requires n <= |rs|
  {
    if n == 0 then 0 else Pieces(rs, n - 1) + |rs[n - 1].qiov| + 1
  }

  lemma {:induction false} PiecesGrow(rs: seq<Request>, n: nat, m: nat)
    requires n <= m <= |rs|
    ensures Pieces(rs, n) <= Pieces(rs, m)
    decreases m - n
  {
    if n < m { PiecesGrow(rs, n, m - 1); }
  }

  /** Where the loop of multiwrite_merge stands: the sorted requests it has passed are the writes up
      to `o`, those it has not are untouched, and no callback has moved. */
  ghost predicate MergeState(now: seq<Request>, sorted: seq<Request>, merged: seq<bool>, i: nat, o: nat)
  {
    && o < i <= |sorted| == |now| && Batch(Spans(sorted), merged)
    && Merging(Spans(sorted), merged, i, Spans(now[..o]), SpanOf(now[o]))
    && (forall j :: 0 <= j <= o ==> RequestOk(now[j]))
    && (forall j :: i <= j < |now| ==> now[j] == sorted[j])
    && (forall j :: 0 <= j < |now| ==> now[j].cb == sorted[j].cb && now[j].error == sorted[j].error)
  }

  /** Which requests are combined: a gap only if the driver agrees, and every request that touches
      the one before it unless there are too many buffers. */
  ghost predicate Choices(sorted: seq<Request>, merged: seq<bool>, i: nat, driverMerges: bool)
    requires i <= |sorted| == |merged|
  {
    forall k :: 0 < k < i ==>
      && (merged[k] && End(SpanOf(sorted[k - 1])) < SpanOf(sorted[k]).start ==> driverMerges)
      && (SpanOf(sorted[k]).start <= End(SpanOf(sorted[k - 1])) && Pieces(sorted, |sorted|) <= IOV_MAX ==> merged[k])
  }

  lemma MergeStart(sorted: seq<Request>, merged: seq<bool>)
    requires 0 < |sorted| == |merged| && SortedBySector(sorted) && !merged[0] && RequestOk(sorted[0])
    ensures MergeState(sorted, sorted, merged, 1, 0)
  {
    MergingStart(Spans(sorted), merged);
    assert Spans(sorted[..0]) == [];
  }

  /** The request is kept apart: it moves up behind the others. */
  lemma MergeApart(was: seq<Request>, now: seq<Request>, sorted: seq<Request>, merged: seq<bool>, i: nat, o: nat)
    requires MergeState(was, sorted, merged, i, o) && i < |sorted| && !merged[i] && RequestOk(sorted[i])
    requires now == was[o + 1 := was[o + 1].(sector := sorted[i].sector, nb := sorted[i].nb, qiov := sorted[i].qiov)]
    ensures MergeState(now, sorted, merged, i + 1, o + 1)
  {
    hide Merging, Flat;
    NotCombined(Spans(sorted), merged, i, Spans(was[..o]), SpanOf(was[o]));
    assert Spans(now[..o + 1]) == Spans(was[..o]) + [SpanOf(was[o])];
    assert SpanOf(now[o + 1]) == Spans(sorted)[i];
  }

  /** The request is combined with the accumulated one. */
  lemma MergeTogether(was: seq<Request>, now: seq<Request>, sorted: seq<Request>, merged: seq<bool>, i: nat, o: nat, q: Iovec)
    requires MergeState(was, sorted, merged, i, o) && i < |sorted| && merged[i] && RequestOk(sorted[i])
    requires was[o].sector <= sorted[i].sector
    requires Span(512 * was[o].sector, Flat(q)) == Combine(SpanOf(was[o]), SpanOf(sorted[i]))
    requires now == was[o := was[o].(nb := |Flat(q)| / 512, qiov := q)]
    ensures MergeState(now, sorted, merged, i + 1, o)
  {
    hide Merging, Flat, Combine;
    Combined(Spans(sorted), merged, i, Spans(was[..o]), SpanOf(was[o]));
    assert Spans(now[..o]) == Spans(was[..o]);
    SpanEnd(sorted[i]);
  }

  /** A choice about request i changes nothing before it. */
  lemma MergeChoose(now: seq<Request>, sorted: seq<Request>, merged: seq<bool>, i: nat, o: nat, b: bool)
    requires MergeState(now, sorted, merged, i, o) && 0 < i < |sorted|
    ensures MergeState(now, sorted, merged[i := b], i, o)
  {
    hide Merging;
    MergingAgrees(Spans(sorted), merged, merged[i := b], i, Spans(now[..o]), SpanOf(now[o]));
  }

  /** What the accumulated request is known to be. */
  lemma MergeFacts(now: seq<Request>, sorted: seq<Request>, merged: seq<bool>, i: nat, o: nat)
    requires MergeState(now, sorted, merged, i, o) && i < |sorted| && RequestOk(sorted[i - 1])
    ensures o < i && now[i] == sorted[i] && RequestOk(now[o]) && now[o].sector <= sorted[i].sector
    ensures 512 * (now[o].sector + now[o].nb) == End(SpanOf(sorted[i - 1]))
  {
    SpanEnd(now[o]);
    var g := GroupStart(merged, i);
    assert Spans(sorted)[g].start <= Spans(sorted)[i].start;
  }

  /** multiwrite_merge. After it, writing the remaining requests in order leaves at every byte what
      Decides says of the sorted batch; with request ends that do not decrease, that is what writing
      the sorted batch one by one leaves, except for zeros in gaps the driver agreed to. */
  method Merge(reqs: array<Request>, driverMerges: bool) returns (count: nat, ghost sorted: seq<Request>, ghost merged: seq<bool>)
    requires reqs.Length > 0 && forall j :: 0 <= j < reqs.Length ==> RequestOk(reqs[j])
    modifies reqs
    ensures 0 < count <= reqs.Length && |sorted| == reqs.Length
    ensures SortedBySector(sorted) && multiset(sorted) == multiset(old(reqs[..]))
    ensures Batch(Spans(sorted), merged) && Choices(sorted, merged, |sorted|, driverMerges)
    ensures forall p: nat :: Written(Spans(reqs[..count]), p) == Shows(Spans(sorted), Decides(Spans(sorted), merged, |sorted|, p), p)
    ensures forall j :: 0 <= j < count ==> RequestOk(reqs[j])
    ensures forall j :: 0 <= j < reqs.Length ==> reqs[j].cb == sorted[j].cb && reqs[j].error == sorted[j].error
    ensures EndsAscend(Spans(sorted)) ==>
              forall p: nat :: Written(Spans(reqs[..count]), p) ==
                if InGap(Spans(sorted), merged, |sorted|, p) then Some(0) else Written(Spans(sorted), p)
  {
    hide MergeState, Choices, Flat, Decides, Written, Pieces, RequestOk, InGap, EndsAscend;
    Qsort(reqs);
    sorted := reqs[..];
    AllOk(old(reqs[..]), sorted);
    merged := seq(reqs.Length, _ => false);
    var o := 0;
    MergeStart(sorted, merged);
    NoChoiceYet(sorted, merged, driverMerges);
    for i := 1 to reqs.Length
      invariant 0 <= o < i && |merged| == |sorted| == reqs.Length
      invariant MergeState(reqs[..], sorted, merged, i, o) && Choices(sorted, merged, i, driverMerges)
      invariant |reqs[o].qiov| + 1 <= Pieces(sorted, i)
    {
      o, merged := MergeStep(reqs, i, o, driverMerges, sorted, merged);
    }
    count := o + 1;
    MergeEnd(reqs[..], sorted, merged, o);
  }

  /** One iteration of the loop of multiwrite_merge. */
  method MergeStep(reqs: array<Request>, i: nat, o: nat, driverMerges: bool, ghost sorted: seq<Request>, ghost merged: seq<bool>)
    returns (o': nat, ghost merged': seq<bool>)
    requires o < i < reqs.Length == |sorted| == |merged| && forall j :: 0 <= j < |sorted| ==> RequestOk(sorted[j])
    requires MergeState(reqs[..], sorted, merged, i, o) && Choices(sorted, merged, i, driverMerges)
    requires |reqs[o].qiov| + 1 <= Pieces(sorted, i)
    modifies reqs
    ensures o' <= i && |merged'| == |sorted|
    ensures MergeState(reqs[..], sorted, merged', i + 1, o') && Choices(sorted, merged', i + 1, driverMerges)
    ensures |reqs[o'].qiov| + 1 <= Pieces(sorted, i + 1)
  {
    hide MergeState, Choices, Flat, Pieces;
    MergeFacts(reqs[..], sorted, merged, i, o);
    PiecesNext(sorted, i);
    SpanEnd(sorted[i]);
    o' := o;
    var last := reqs[o].sector + reqs[o].nb;
    var merge := reqs[i].sector <= last;
    if !merge && driverMerges { merge := *; }
    if |reqs[o].qiov| + |reqs[i].qiov| + 1 > IOV_MAX { merge := false; }
    MergeChoose(reqs[..], sorted, merged, i, o, merge);
    ChoiceMade(sorted, merged, i, driverMerges, merge);
    merged' := merged[i := merge];
    ghost var was := reqs[..];
    if merge {
      var q := CombineIovecs(reqs[o], reqs[i]);
      reqs[o] := reqs[o].(nb := |Flat(q)| / 512, qiov := q);
      MergeTogether(was, reqs[..], sorted, merged', i, o, q);
    } else {
      o' := o + 1;
      reqs[o'] := reqs[o'].(sector := reqs[i].sector, nb := reqs[i].nb, qiov := reqs[i].qiov);
      MergeApart(was, reqs[..], sorted, merged', i, o);
    }
  }

  lemma NoChoiceYet(sorted: seq<Request>, merged: seq<bool>, driverMerges: bool)
    requires 0 < |sorted| == |merged|
    ensures Choices(sorted, merged, 1, driverMerges) && Pieces(sorted, 1) == |sorted[0].qiov| + 1
  {
  }

  lemma ChoiceMade(sorted: seq<Request>, merged: seq<bool>, i: nat, driverMerges: bool, merge: bool)
    requires 0 < i < |sorted| == |merged| && Choices(sorted, merged, i, driverMerges)
    requires merge && End(SpanOf(sorted[i - 1])) < SpanOf(sorted[i]).start ==> driverMerges
    requires SpanOf(sorted[i]).start <= End(SpanOf(sorted[i - 1])) && Pieces(sorted, |sorted|) <= IOV_MAX ==> merge
    ensures Choices(sorted, merged[i := merge], i + 1, driverMerges)
  {
    hide Pieces, Flat;
  }

  lemma AllOk(was: seq<Request>, sorted: seq<Request>)
    requires multiset(was) == multiset(sorted) && forall j :: 0 <= j < |was| ==> RequestOk(was[j])
    ensures |was| == |sorted| && forall j :: 0 <= j < |sorted| ==> RequestOk(sorted[j])
  {
    assert |was| == |multiset(was)| && |sorted| == |multiset(sorted)|;
    forall j | 0 <= j < |sorted| ensures RequestOk(sorted[j]) {
      assert sorted[j] in multiset(sorted);
      assert sorted[j] in was;
    }
  }

  lemma PiecesNext(rs: seq<Request>, i: nat)
    requires 0 < i < |rs|
    ensures Pieces(rs, i + 1) == Pieces(rs, i) + |rs[i].qiov| + 1 <= Pieces(rs, |rs|)
    ensures Pieces(rs, i) >= |rs[i - 1].qiov| + 1
  {
    PiecesGrow(rs, i + 1, |rs|);
  }

  lemma MergeEnd(now: seq<Request>, sorted: seq<Request>, merged: seq<bool>, o: nat)
    requires MergeState(now, sorted, merged, |sorted|, o)
    ensures Batch(Spans(sorted), merged)
    ensures forall p: nat :: Written(Spans(now[..o + 1]), p) == Shows(Spans(sorted), Decides(Spans(sorted), merged, |sorted|, p), p)
    ensures forall j :: 0 <= j <= o ==> RequestOk(now[j])
    ensures forall j :: 0 <= j < |now| ==> now[j].cb == sorted[j].cb && now[j].error == sorted[j].error
    ensures EndsAscend(Spans(sorted)) ==>
              forall p: nat :: Written(Spans(now[..o + 1]), p) ==
                if InGap(Spans(sorted), merged, |sorted|, p) then Some(0) else Written(Spans(sorted), p)
  {
    hide Flat, Decides, Written;
    var xs := Spans(sorted);
    assert Spans(now[..o + 1]) == Spans(now[..o]) + [SpanOf(now[o])];
    if EndsAscend(xs) {
      forall p: nat
        ensures Written(Spans(now[..o + 1]), p) == if InGap(xs, merged, |xs|, p) then Some(0) else Written(xs, p)
      {
        AscendingLosesNothing(xs, merged, |xs|, p);
        LatestIsWritten(xs, |xs|, p);
        assert xs[..|xs|] == xs;
      }
    }
  }

  /** Two requests of which the second starts later, touches the first and ends before it: the merge
      drops the end of the first and keeps every other byte. */
  method MergeDropsTail(reqs: array<Request>, driverMerges: bool) returns (count: nat)
    requires reqs.Length == 2 && RequestOk(reqs[0]) && RequestOk(reqs[1]) && |reqs[0].qiov| + |reqs[1].qiov| + 2 <= IOV_MAX
    requires reqs[0].sector < reqs[1].sector && reqs[1].sector + reqs[1].nb < reqs[0].sector + reqs[0].nb
    modifies reqs
    ensures 0 < count <= 2
    ensures forall p: nat :: Written(Spans(reqs[..count]), p) ==
              if End(SpanOf(old(reqs[1]))) <= p < End(SpanOf(old(reqs[0]))) then None else Written(Spans(old(reqs[..])), p)
    ensures Written(Spans(old(reqs[..])), End(SpanOf(old(reqs[1])))).Some?
  {
    hide Decides, Written, Flat;
    ghost var a, b, was := reqs[0], reqs[1], reqs[..];
    ghost var sorted, merged;
    SpanEnd(a);
    SpanEnd(b);
    count, sorted, merged := Merge(reqs, driverMerges);
    assert was == [a, b];
    OnlyOrder(a, b, sorted);
    TwoPieces(a, b);
    assert merged == [false, true];
    assert Spans(sorted) == [SpanOf(a), SpanOf(b)] == Spans(was);
    forall p: nat ensures Written(Spans(reqs[..count]), p) ==
              if End(SpanOf(b)) <= p < End(SpanOf(a)) then None else Written(Spans(was), p)
    {
      TwoDecide(SpanOf(a), SpanOf(b), p);
      LatestIsWritten(Spans(sorted), 2, p);
      assert Spans(sorted)[..2] == Spans(sorted);
    }
    TailWritten(SpanOf(a), SpanOf(b));
  }

  lemma OnlyOrder(a: Request, b: Request, sorted: seq<Request>)
    requires a.sector < b.sector && multiset(sorted) == multiset([a, b]) && SortedBySector(sorted)
    ensures sorted == [a, b]
  {
    assert |sorted| == |multiset(sorted)| == |multiset([a, b])| == 2;
    assert sorted == [sorted[0], sorted[1]];
    assert sorted[0] in multiset(sorted) && sorted[1] in multiset(sorted);
    assert multiset([a, b])[a] == 1;
  }

  lemma TwoPieces(a: Request, b: Request)
    ensures Pieces([a, b], 2) == |a.qiov| + |b.qiov| + 2
  {
    assert Pieces([a, b], 1) == Pieces([a, b], 0) + |a.qiov| + 1;
  }

  lemma TailWritten(x: Span, y: Span)
    requires x.start <= End(y) < End(x)
    ensures Written([x, y], End(y)).Some?
  {
    assert [x, y][..1] == [x];
  }
}
