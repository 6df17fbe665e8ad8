/**
 What multiwrite_merge does to a batch of writes, byte by byte: which of the sorted requests decides
 each byte after merging, and exactly where that differs from writing the requests one by one.
 */
module WriteMerging {
  import opened Options

  type Byte = int

  /** A write: bytes at a place. */
  datatype Span = Span(start: nat, bytes: seq<Byte>)

  function End(x: Span): (e: nat)
    ensures e >= x.start
  {
    x.start + |x.bytes|
  }

  predicate Covers(x: Span, p: nat) {
    x.start <= p < End(x)
  }

  /** What the writes, done in order, leave at `p`; None where the disk shows. */
  ghost function Written(xs: seq<Span>, p: nat): Option<Byte> {
    if xs == [] then None
    else
      var x := xs[|xs| - 1];
      if Covers(x, p) then Some(x.bytes[p - x.start]) else Written(xs[..|xs| - 1], p)
  }

  /** A disk after one write. */
  ghost function WriteTo(disk: seq<Byte>, x: Span): (r: seq<Byte>)
    requires End(x) <= |disk|
    ensures |r| == |disk|
  {
    disk[..x.start] + x.bytes + disk[End(x)..]
  }

  /** A disk after the writes, first to last. */
  ghost function Apply(disk: seq<Byte>, xs: seq<Span>): (r: seq<Byte>)
    requires forall i :: 0 <= i < |xs| ==> End(xs[i]) <= |disk|
    ensures |r| == |disk|
    decreases |xs|
  {
    if xs == [] then disk else Apply(WriteTo(disk, xs[0]), xs[1..])
  }

  lemma {:induction false} WrittenFirst(xs: seq<Span>, p: nat)
    requires xs != []
    ensures Written(xs, p) == if Written(xs[1..], p).Some? then Written(xs[1..], p)
                              else if Covers(xs[0], p) then Some(xs[0].bytes[p - xs[0].start])
                              else None
  {
    if |xs| > 1 {
      var init := xs[..|xs| - 1];
      WrittenFirst(init, p);
      assert init[1..] == xs[1..][..|xs| - 2];
      assert xs[1..][|xs| - 2] == xs[|xs| - 1];
    }
  }

  /** Doing the writes on any disk leaves at every byte what Written says. */
  lemma {:induction false} ApplyIsWritten(disk: seq<Byte>, xs: seq<Span>, p: nat)
    requires (forall i :: 0 <= i < |xs| ==> End(xs[i]) <= |disk|) && p < |disk|
    ensures Apply(disk, xs)[p] == if Written(xs, p).Some? then Written(xs, p).value else disk[p]
    decreases |xs|
  {
    if xs != [] {
      WrittenFirst(xs, p);
      ApplyIsWritten(WriteTo(disk, xs[0]), xs[1..], p);
    }
  }

  // ---------------------------------------------------------------- who decides a byte

  /** Where a byte comes from: the disk, the zeros put into a gap, or a request. */
  datatype Source = Disk | Zeros | From(k: nat)

  ghost function Shows(xs: seq<Span>, src: Source, p: nat): Option<Byte>
    requires src.From? ==> src.k < |xs| && Covers(xs[src.k], p)
  {
    match src
    case Disk => None
    case Zeros => Some(0)
    case From(k) => Some(xs[k].bytes[p - xs[k].start])
  }

  /** Without merging: the last request that covers the byte. */
  ghost function Latest(xs: seq<Span>, n: nat, p: nat): (src: Source)
    requires n <= |xs|
    ensures src != Zeros && (src.From? ==> src.k < n && Covers(xs[src.k], p))
  {
    if n == 0 then Disk else if Covers(xs[n - 1], p) then From(n - 1) else Latest(xs, n - 1, p)
  }

  lemma {:induction false} LatestIsWritten(xs: seq<Span>, n: nat, p: nat)
    requires n <= |xs|
    ensures Written(xs[..n], p) == Shows(xs, Latest(xs, n, p), p)
  {
    if n > 0 {
      assert xs[..n][..n - 1] == xs[..n - 1];
      LatestIsWritten(xs, n - 1, p);
    }
  }

  /** `merged[k]` says that request k was combined with what comes before it. The group of request
      n - 1 starts here. */
  ghost function GroupStart(merged: seq<bool>, n: nat): (g: nat)
    requires 0 < n <= |merged| && !merged[0]
    ensures g < n && !merged[g] && forall k :: g < k < n ==> merged[k]
  {
    if merged[n - 1] then GroupStart(merged, n - 1) else n - 1
  }

  ghost predicate Sorted(xs: seq<Span>) {
    forall i, j :: 0 <= i <= j < |xs| ==> xs[i].start <= xs[j].start
  }

  /** Request k was combined across a gap that holds `p`. */
  ghost predicate GapAt(xs: seq<Span>, merged: seq<bool>, k: nat, p: nat)
    requires k < |xs| == |merged|
  {
    0 < k && merged[k] && End(xs[k - 1]) <= p < xs[k].start
  }

  /** Request k was combined with one that ends after it, and `p` is in the tail this cuts off. */
  ghost predicate TailAt(xs: seq<Span>, merged: seq<bool>, k: nat, p: nat)
    requires k < |xs| == |merged|
  {
    0 < k && merged[k] && End(xs[k]) <= p < End(xs[k - 1])
  }

  ghost predicate Batch(xs: seq<Span>, merged: seq<bool>) {
    |xs| == |merged| && Sorted(xs) && (xs != [] ==> !merged[0])
  }

  /** With merging: a gap shows zeros, and a tail that was cut off shows what was there before the
      whole group. */
  ghost function Decides(xs: seq<Span>, merged: seq<bool>, n: nat, p: nat): (src: Source)
    requires Batch(xs, merged) && n <= |xs|
    ensures src.From? ==> src.k < n && Covers(xs[src.k], p)
  {
    if n == 0 then Disk
    else if Covers(xs[n - 1], p) then From(n - 1)
    else if GapAt(xs, merged, n - 1, p) then Zeros
    else if TailAt(xs, merged, n - 1, p) then Decides(xs, merged, GroupStart(merged, n - 1), p)
    else Decides(xs, merged, n - 1, p)
  }

  ghost predicate InGap(xs: seq<Span>, merged: seq<bool>, n: nat, p: nat)
    requires n <= |xs| == |merged|
  {
    exists k :: 0 <= k < n && GapAt(xs, merged, k, p)
  }

  /** The byte is in a tail that was cut off, and no later request writes it again. */
  ghost predicate Lost(xs: seq<Span>, merged: seq<bool>, n: nat, p: nat)
    requires n <= |xs| == |merged|
  {
    exists i :: 0 <= i < n && TailAt(xs, merged, i, p) && forall k :: i < k < n ==> !Covers(xs[k], p)
  }

  lemma {:induction false} GapShowsZeros(xs: seq<Span>, merged: seq<bool>, n: nat, p: nat)
    requires Batch(xs, merged) && n <= |xs| && InGap(xs, merged, n, p)
    ensures Decides(xs, merged, n, p) == Zeros
    decreases n
  {
    var k :| 0 <= k < n && GapAt(xs, merged, k, p);
    if k < n - 1 {
      assert xs[k].start <= xs[n - 1].start;
      assert xs[k].start <= xs[n - 2].start;
      assert InGap(xs, merged, n - 1, p);
      GapShowsZeros(xs, merged, n - 1, p);
    }
  }

  /** The exact condition: after merging a byte comes from the request it would come from without
      merging if and only if it is neither in a filled gap nor in a tail that was cut off and not
      written again. */
  lemma {:induction false} SameDecision(xs: seq<Span>, merged: seq<bool>, n: nat, p: nat)
    requires Batch(xs, merged) && n <= |xs|
    ensures Decides(xs, merged, n, p) == Latest(xs, n, p) <==> !InGap(xs, merged, n, p) && !Lost(xs, merged, n, p)
    decreases n
  {
    if InGap(xs, merged, n, p) {
      GapShowsZeros(xs, merged, n, p);
    } else if n > 0 && !Covers(xs[n - 1], p) {
      assert !GapAt(xs, merged, n - 1, p);
      if TailAt(xs, merged, n - 1, p) {
        assert Lost(xs, merged, n, p);
        assert xs[n - 2].start <= xs[n - 1].start;
        assert Latest(xs, n - 1, p) == From(n - 2);
      } else {
        assert !InGap(xs, merged, n - 1, p);
        LostStep(xs, merged, n, p);
        SameDecision(xs, merged, n - 1, p);
      }
    }
  }

  lemma LostStep(xs: seq<Span>, merged: seq<bool>, n: nat, p: nat)
    requires 0 < n <= |xs| == |merged| && !Covers(xs[n - 1], p) && !TailAt(xs, merged, n - 1, p)
    ensures Lost(xs, merged, n, p) <==> Lost(xs, merged, n - 1, p)
  {
    if Lost(xs, merged, n - 1, p) {
      var i :| 0 <= i < n - 1 && TailAt(xs, merged, i, p) && forall k :: i < k < n - 1 ==> !Covers(xs[k], p);
      assert TailAt(xs, merged, i, p) && forall k :: i < k < n ==> !Covers(xs[k], p);
    }
  }

  /** Request ends do not decrease. */
  ghost predicate EndsAscend(xs: seq<Span>) {
    forall i :: 0 < i < |xs| ==> End(xs[i - 1]) <= End(xs[i])
  }

  /** Then nothing is lost, whatever is combined. */
  lemma AscendingLosesNothing(xs: seq<Span>, merged: seq<bool>, n: nat, p: nat)
    requires Batch(xs, merged) && n <= |xs| && EndsAscend(xs)
    ensures !Lost(xs, merged, n, p)
    ensures Decides(xs, merged, n, p) == if InGap(xs, merged, n, p) then Zeros else Latest(xs, n, p)
  {
    SameDecision(xs, merged, n, p);
    if InGap(xs, merged, n, p) { GapShowsZeros(xs, merged, n, p); }
  }

  /** For two requests that are combined without a gap the condition is also necessary. */
  lemma TwoRequests(x: Span, y: Span)
    requires x.start <= y.start <= End(x)
    ensures (forall p: nat :: Decides([x, y], [false, true], 2, p) == Latest([x, y], 2, p)) <==> End(x) <= End(y)
  {
    var xs, merged := [x, y], [false, true];
    if End(x) <= End(y) {
      forall p: nat ensures Decides(xs, merged, 2, p) == Latest(xs, 2, p) {
        AscendingLosesNothing(xs, merged, 2, p);
        assert !InGap(xs, merged, 2, p);
      }
    } else {
      var p := End(y);
      assert TailAt(xs, merged, 1, p);
      assert Lost(xs, merged, 2, p);
      SameDecision(xs, merged, 2, p);
    }
  }

  /** Two requests combined without a gap: the tail that the second cuts off the first shows the disk,
      every other byte is as without merging. */
  lemma TwoDecide(x: Span, y: Span, p: nat)
    requires x.start <= y.start <= End(x)
    ensures Decides([x, y], [false, true], 2, p) == if End(y) <= p < End(x) then Disk else Latest([x, y], 2, p)
  {
    var xs, merged := [x, y], [false, true];
    assert GroupStart(merged, 1) == 0;
    assert Decides(xs, merged, 0, p) == Disk && Latest(xs, 0, p) == Disk;
    assert Decides(xs, merged, 1, p) == Latest(xs, 1, p);
  }

  /** A concrete batch: two sectors combined with one at the same place lose the second of them. */
  lemma TailCanBeLost()
    ensures var xs := [Span(0, seq(1024, _ => 1)), Span(0, seq(512, _ => 9))];
            Sorted(xs) && Decides(xs, [false, true], 2, 512) == Disk && Latest(xs, 2, 512) == From(0)
  {
    var x, y := Span(0, seq(1024, _ => 1)), Span(0, seq(512, _ => 9));
    TwoDecide(x, y, 512);
    assert Latest([x, y], 2, 512) == Latest([x, y], 1, 512);
  }

  // ---------------------------------------------------------------- one step of the merge

  /** The accumulated write cut or extended with zeros up to `y`, then `y`. */
  ghost function Combine(acc: Span, y: Span): (r: Span)
    requires acc.start <= y.start
    ensures r.start == acc.start && End(r) == End(y)
    ensures forall p: nat :: Covers(r, p) ==>
              r.bytes[p - r.start] == if y.start <= p then y.bytes[p - y.start]
                                      else if Covers(acc, p) then acc.bytes[p - acc.start] else 0
  {
    var head := y.start - acc.start;
    if head <= |acc.bytes| then Span(acc.start, acc.bytes[..head] + y.bytes)
    else Span(acc.start, acc.bytes + seq(head - |acc.bytes|, _ => 0) + y.bytes)
  }

  /** What the first n requests have become: finished writes and the accumulated one. */
  ghost predicate Merging(xs: seq<Span>, merged: seq<bool>, n: nat, done: seq<Span>, acc: Span)
    requires Batch(xs, merged) && 0 < n <= |xs|
  {
    var g := GroupStart(merged, n);
    && acc.start == xs[g].start && End(acc) == End(xs[n - 1])
    && (forall p: nat :: Written(done, p) == Shows(xs, Decides(xs, merged, g, p), p))
    && (forall p: nat :: Written(done + [acc], p) == Shows(xs, Decides(xs, merged, n, p), p))
  }

  lemma WrittenSnoc(done: seq<Span>, acc: Span, p: nat)
    ensures Written(done + [acc], p) == if Covers(acc, p) then Some(acc.bytes[p - acc.start]) else Written(done, p)
  {
    assert (done + [acc])[..|done|] == done;
  }

  lemma MergingStart(xs: seq<Span>, merged: seq<bool>)
    requires Batch(xs, merged) && xs != []
    ensures Merging(xs, merged, 1, [], xs[0])
  {
    forall p: nat ensures Written([] + [xs[0]], p) == Shows(xs, Decides(xs, merged, 1, p), p) {
      WrittenSnoc([], xs[0], p);
    }
  }

  lemma NotCombined(xs: seq<Span>, merged: seq<bool>, n: nat, done: seq<Span>, acc: Span)
    requires Batch(xs, merged) && 0 < n < |xs| && !merged[n] && Merging(xs, merged, n, done, acc)
    ensures Merging(xs, merged, n + 1, done + [acc], xs[n])
  {
    hide Written, Latest;
    assert GroupStart(merged, n + 1) == n;
    forall p: nat ensures Written(done + [acc] + [xs[n]], p) == Shows(xs, Decides(xs, merged, n + 1, p), p) {
      WrittenSnoc(done + [acc], xs[n], p);
      assert Written(done + [acc], p) == Shows(xs, Decides(xs, merged, n, p), p);
    }
  }

  lemma Combined(xs: seq<Span>, merged: seq<bool>, n: nat, done: seq<Span>, acc: Span)
    requires Batch(xs, merged) && 0 < n < |xs| && merged[n] && Merging(xs, merged, n, done, acc) && acc.start <= xs[n].start
    ensures Merging(xs, merged, n + 1, done, Combine(acc, xs[n]))
  {
    hide Written, Latest, Combine;
    var y, g := xs[n], GroupStart(merged, n);
    var acc' := Combine(acc, y);
    assert GroupStart(merged, n + 1) == g;
    assert xs[g].start <= y.start && xs[n - 1].start <= y.start;
    forall p: nat ensures Written(done + [acc'], p) == Shows(xs, Decides(xs, merged, n + 1, p), p) {
      CombinedAt(xs, merged, n, done, acc, p);
    }
  }

  lemma CombinedAt(xs: seq<Span>, merged: seq<bool>, n: nat, done: seq<Span>, acc: Span, p: nat)
    requires Batch(xs, merged) && 0 < n < |xs| && merged[n] && Merging(xs, merged, n, done, acc)
    requires acc.start <= xs[n].start
    ensures Written(done + [Combine(acc, xs[n])], p) == Shows(xs, Decides(xs, merged, n + 1, p), p)
  {
    hide Written, Latest, Combine;
    var y, g := xs[n], GroupStart(merged, n);
    var acc' := Combine(acc, y);
    WrittenSnoc(done, acc, p);
    WrittenSnoc(done, acc', p);
    assert Written(done, p) == Shows(xs, Decides(xs, merged, g, p), p);
    assert Written(done + [acc], p) == Shows(xs, Decides(xs, merged, n, p), p);
  }

  /** What is decided about the first n requests does not depend on later ones being combined. */
  lemma {:induction false} DecidesAgree(xs: seq<Span>, m: seq<bool>, m': seq<bool>, n: nat, p: nat)
    requires Batch(xs, m) && Batch(xs, m') && n <= |xs| && forall k :: 0 <= k < n ==> m[k] == m'[k]
    ensures Decides(xs, m, n, p) == Decides(xs, m', n, p)
    decreases n
  {
    if n > 1 {
      GroupStartAgrees(m, m', n - 1);
      DecidesAgree(xs, m, m', GroupStart(m, n - 1), p);
    }
    if n > 0 { DecidesAgree(xs, m, m', n - 1, p); }
  }

  lemma {:induction false} GroupStartAgrees(m: seq<bool>, m': seq<bool>, n: nat)
    requires 0 < n <= |m| && n <= |m'| && !m[0] && !m'[0] && forall k :: 0 <= k < n ==> m[k] == m'[k]
    ensures GroupStart(m, n) == GroupStart(m', n)
  {
    if n > 1 { GroupStartAgrees(m, m', n - 1); }
  }

  lemma MergingAgrees(xs: seq<Span>, m: seq<bool>, m': seq<bool>, n: nat, done: seq<Span>, acc: Span)
    requires Batch(xs, m) && Batch(xs, m') && 0 < n <= |xs| && forall k :: 0 <= k < n ==> m[k] == m'[k]
    requires Merging(xs, m, n, done, acc)
    ensures Merging(xs, m', n, done, acc)
  {
    hide Written, Decides;
    GroupStartAgrees(m, m', n);
    var g := GroupStart(m, n);
    forall p: nat
      ensures Decides(xs, m, g, p) == Decides(xs, m', g, p) && Decides(xs, m, n, p) == Decides(xs, m', n, p)
    {
      DecidesAgree(xs, m, m', g, p);
      DecidesAgree(xs, m, m', n, p);
    }
  }
}
