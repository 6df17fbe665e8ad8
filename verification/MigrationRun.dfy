/**
 What a run of block-migration.c does, as functions of the state it starts from and of the answers of
 the outside world: the rate limits, and which reads fail. The methods of module LiveMigration compute
 these functions; here is what they say about a whole stage 3, in terms of the state it begins in.
 */
module MigrationRun {
  import opened Options
  import opened BlockMigration

  /** The source while its stream is free of errors: its data, and the percentage last reported. */
  datatype Src = Src(mig: Mig, progress: int)

  /** Bytes in a chunk. */
  const BLOCK_SIZE: int := 0x100000

  function TotalSectors(devs: seq<Dev>): nat {
    if devs == [] then 0 else TotalSectors(devs[..|devs| - 1]) + |devs[|devs| - 1].disk|
  }

  /** The cursors are on the disks. */
  predicate OnDisk(devs: seq<Dev>) {
    forall i :: 0 <= i < |devs| ==> devs[i].cur <= |devs[i].disk|
  }

  predicate Ready(s: Src) {
    OnDisk(s.mig.devs) && TotalSectors(s.mig.devs) > 0
  }

  // ---------------------------------------------------------------- the bulk phase

  function DevLeft(d: Dev): nat {
    if d.bulkCompleted then 0 else 1 + (if d.cur <= |d.disk| then |d.disk| - d.cur else 0)
  }

  /** What is left of the bulk phase; every bulk call that does not fail makes it smaller. */
  function BulkLeft(devs: seq<Dev>): nat {
    if devs == [] then 0 else BulkLeft(devs[..|devs| - 1]) + DevLeft(devs[|devs| - 1])
  }

  lemma {:induction false} BulkLeftUpdate(devs: seq<Dev>, i: nat, d: Dev)
    requires i < |devs|
    ensures BulkLeft(devs[i := d]) == BulkLeft(devs) - DevLeft(devs[i]) + DevLeft(d)
  {
    var k := |devs| - 1;
    if i == k {
      assert devs[i := d][..k] == devs[..k];
    } else {
      assert devs[i := d][..k] == devs[..k][i := d];
      BulkLeftUpdate(devs[..k], i, d);
    }
  }

  lemma {:induction false} TotalSectorsSame(a: seq<Dev>, b: seq<Dev>)
    requires |a| == |b| && forall i :: 0 <= i < |a| ==> |a[i].disk| == |b[i].disk|
    ensures TotalSectors(a) == TotalSectors(b)
  {
    if a != [] { TotalSectorsSame(a[..|a| - 1], b[..|b| - 1]); }
  }

  /** Where the skipping loop of mig_save_device_bulk stops: with a shared base, at the first
      allocated sector. */
  function SkipTo(d: Dev, s: nat): (r: nat)
    requires s <= |d.disk|
    ensures s <= r <= |d.disk| && (r > s ==> d.sharedBase) && (forall k :: s <= k < r ==> k !in d.alloc)
    ensures d.sharedBase && r < |d.disk| ==> r in d.alloc
    decreases |d.disk| - s
  {
    if s == |d.disk| || !d.sharedBase || s in d.alloc then s else SkipTo(d, s + 1)
  }

  lemma SkipToIs(d: Dev, s: nat, r: nat)
    requires s <= r <= |d.disk| && (r > s ==> d.sharedBase) && (forall k :: s <= k < r ==> k !in d.alloc)
    requires d.sharedBase && r < |d.disk| ==> r in d.alloc
    ensures SkipTo(d, s) == r
  {
    var q := SkipTo(d, s);
    assert q < r ==> q !in d.alloc;
    assert r < q ==> r !in d.alloc;
  }

  /** The first device that is not finished. */
  function Unfinished(devs: seq<Dev>): (i: nat)
    ensures i <= |devs| && (i < |devs| ==> !devs[i].bulkCompleted) && forall j :: 0 <= j < i ==> devs[j].bulkCompleted
  {
    if devs == [] then 0
    else
      var k := Unfinished(devs[..|devs| - 1]);
      if k < |devs| - 1 || !devs[|devs| - 1].bulkCompleted then k else |devs|
  }

  /** Whether serving a device means reading a chunk, and not just finding its end. */
  predicate Reads(d: Dev)
    requires d.cur <= |d.disk|
  {
    SkipTo(d, d.cur) < |d.disk|
  }

  /** What mig_save_device_bulk makes of device `i` when the read does not fail, and the mark of a
      finished device. */
  function Served(m: Mig, i: nat, isAsync: bool): (n: Mig)
    requires OnDisk(m.devs) && i < |m.devs|
    ensures |n.devs| == |m.devs| && OnDisk(n.devs)
  {
    var d := m.devs[i];
    var from := SkipTo(d, d.cur);
    var n := if !Reads(d) then BulkFinished(m, i) else if isAsync then BulkIssued(m, i, from) else BulkSent(m, i, from);
    if n.devs[i].cur == |d.disk| then n.(devs := n.devs[i := n.devs[i].(bulkCompleted := true)]) else n
  }

  function CompletedSum(devs: seq<Dev>, n: nat): int
    requires n <= |devs|
  {
    if n == 0 then 0 else CompletedSum(devs, n - 1) + devs[n - 1].completed
  }

  lemma {:induction false} CompletedSumSame(a: seq<Dev>, b: seq<Dev>, n: nat)
    requires n <= |a| && n <= |b| && forall j :: 0 <= j < n ==> a[j].completed == b[j].completed
    ensures CompletedSum(a, n) == CompletedSum(b, n)
  {
    if n > 0 { CompletedSumSame(a, b, n - 1); }
  }

  /** The progress report at the end of blk_mig_save_bulked_block. */
  function Reported(s: Src, percent: int): Src {
    if percent == s.progress then s else Src(s.mig.(stream := s.mig.stream + [Progress(percent)]), percent)
  }

  /** blk_mig_save_bulked_block when no read fails. */
  function BulkCall(s: Src, isAsync: bool): (t: Src)
    requires Ready(s)
    ensures |t.mig.devs| == |s.mig.devs| && OnDisk(t.mig.devs)
  {
    var i := Unfinished(s.mig.devs);
    if i == |s.mig.devs| then Reported(s, CompletedSum(s.mig.devs, i) * 100 / TotalSectors(s.mig.devs))
    else
      var m := Served(s.mig, i, isAsync);
      Reported(s.(mig := m), CompletedSum(m.devs, i + 1) * 100 / TotalSectors(s.mig.devs))
  }

  lemma ServedLess(m: Mig, i: nat, isAsync: bool)
    requires OnDisk(m.devs) && i < |m.devs| && !m.devs[i].bulkCompleted
    ensures BulkLeft(Served(m, i, isAsync).devs) < BulkLeft(m.devs)
    ensures TotalSectors(Served(m, i, isAsync).devs) == TotalSectors(m.devs)
  {
    hide BulkLeft, TotalSectors;
    var n := Served(m, i, isAsync);
    assert n.devs == m.devs[i := n.devs[i]];
    BulkLeftUpdate(m.devs, i, n.devs[i]);
    TotalSectorsSame(m.devs, n.devs);
  }

  lemma BulkCallLess(s: Src, isAsync: bool)
    requires Ready(s)
    ensures TotalSectors(BulkCall(s, isAsync).mig.devs) == TotalSectors(s.mig.devs)
    ensures Unfinished(s.mig.devs) < |s.mig.devs| ==> BulkLeft(BulkCall(s, isAsync).mig.devs) < BulkLeft(s.mig.devs)
  {
    hide BulkLeft, TotalSectors, Served;
    var i := Unfinished(s.mig.devs);
    if i < |s.mig.devs| { ServedLess(s.mig, i, isAsync); }
  }

  /** The loop of block_save_live that submits reads up to the rate limit. */
  function Issuing(s: Src, rateLimit: int): (t: Src)
    requires Ready(s)
    ensures |t.mig.devs| == |s.mig.devs| && Ready(t)
    decreases BulkLeft(s.mig.devs)
  {
    BulkCallLess(s, true);
    if |s.mig.Pending()| * BLOCK_SIZE >= rateLimit then s
    else if Unfinished(s.mig.devs) == |s.mig.devs| then BulkCall(s, true)
    else Issuing(BulkCall(s, true), rateLimit)
  }

  /** The synchronous bulk loop of stage 3. */
  function Finishing(s: Src): (t: Src)
    requires Ready(s)
    ensures |t.mig.devs| == |s.mig.devs| && Ready(t)
    decreases BulkLeft(s.mig.devs)
  {
    BulkCallLess(s, false);
    if Unfinished(s.mig.devs) == |s.mig.devs| then BulkCall(s, false) else Finishing(BulkCall(s, false))
  }

  /** Reads that Issuing and Finishing attempt. */
  function IssueReads(s: Src, rateLimit: int): nat
    requires Ready(s)
    decreases BulkLeft(s.mig.devs)
  {
    BulkCallLess(s, true);
    var i := Unfinished(s.mig.devs);
    if |s.mig.Pending()| * BLOCK_SIZE >= rateLimit || i == |s.mig.devs| then 0
    else (if Reads(s.mig.devs[i]) then 1 else 0) + IssueReads(BulkCall(s, true), rateLimit)
  }

  function FinishReads(s: Src): nat
    requires Ready(s)
    decreases BulkLeft(s.mig.devs)
  {
    BulkCallLess(s, false);
    var i := Unfinished(s.mig.devs);
    if i == |s.mig.devs| then 0 else (if Reads(s.mig.devs[i]) then 1 else 0) + FinishReads(BulkCall(s, false))
  }

  /** One turn of each loop. */
  lemma IssueTurn(s: Src, rateLimit: int)
    requires Ready(s)
    ensures |s.mig.Pending()| * BLOCK_SIZE >= rateLimit ==> Issuing(s, rateLimit) == s && IssueReads(s, rateLimit) == 0
    ensures var i, t := Unfinished(s.mig.devs), BulkCall(s, true);
            Ready(t) && (|s.mig.Pending()| * BLOCK_SIZE < rateLimit ==>
              if i == |s.mig.devs| then Issuing(s, rateLimit) == t && IssueReads(s, rateLimit) == 0
              else Issuing(s, rateLimit) == Issuing(t, rateLimit) &&
                   IssueReads(s, rateLimit) == (if Reads(s.mig.devs[i]) then 1 else 0) + IssueReads(t, rateLimit))
  {
    hide BulkCall, TotalSectors, BulkLeft, Reads;
    BulkCallLess(s, true);
  }

  lemma FinishTurn(s: Src)
    requires Ready(s)
    ensures var i, t := Unfinished(s.mig.devs), BulkCall(s, false);
            Ready(t) &&
            if i == |s.mig.devs| then Finishing(s) == t && FinishReads(s) == 0
            else Finishing(s) == Finishing(t) && FinishReads(s) == (if Reads(s.mig.devs[i]) then 1 else 0) + FinishReads(t)
  {
    hide BulkCall, TotalSectors, BulkLeft, Reads;
    BulkCallLess(s, false);
  }

  /** One of the first `n` reads fails. */
  predicate AnyFails(fails: seq<bool>, n: nat) {
    exists k :: 0 <= k < |fails| && k < n && fails[k]
  }

  // ---------------------------------------------------------------- flushing

  /** The records blk_send makes of these blocks. */
  function Records(blks: seq<Blk>): seq<Record> {
    seq(|blks|, k requires 0 <= k < |blks| => Block(blks[k].dev, blks[k].sector, Payload(blks[k].buf)))
  }

  lemma RecordsSnoc(blks: seq<Blk>, n: nat)
    requires n < |blks|
    ensures Records(blks[..n + 1]) ==
            Records(blks[..n]) + [Block(blks[n].dev, blks[n].sector, Payload(blks[n].buf))]
  {
  }

  /** How many blocks flush_blks sends before the rate limit strikes. */
  function Sends(blks: seq<Blk>, budget: nat): (n: nat)
    ensures n <= budget && n <= |blks|
  {
    if budget <= |blks| then budget else |blks|
  }

  /** flush_blks when every block it comes to was read. */
  function FlushedBy(s: Src, budget: nat): Src {
    var l := s.mig.blkList;
    var n := Sends(l, budget);
    s.(mig := s.mig.(blkList := l[n..], stream := s.mig.stream + Records(l[..n])))
  }

  predicate FlushOk(s: Src, budget: nat) {
    forall k :: 0 <= k < Sends(s.mig.blkList, budget) ==> s.mig.blkList[k].ok
  }

  /** The part common to all stages: flush, submit reads, flush again. */
  function Pumped(s: Src, rateLimit: int, firstBudget: nat, secondBudget: nat): (t: Src)
    requires Ready(s)
    ensures |t.mig.devs| == |s.mig.devs| && Ready(t)
  {
    FlushedBy(Issuing(FlushedBy(s, firstBudget), rateLimit), secondBudget)
  }

  predicate PumpOk(s: Src, rateLimit: int, firstBudget: nat, secondBudget: nat, fails: seq<bool>)
    requires Ready(s)
  {
    var a := FlushedBy(s, firstBudget);
    FlushOk(s, firstBudget) && !AnyFails(fails, IssueReads(a, rateLimit)) && FlushOk(Issuing(a, rateLimit), secondBudget)
  }

  // ---------------------------------------------------------------- resending

  /** The dirty chunks of a device from `start` on, behind its cursor. */
  function DirtyFrom(d: Dev, start: nat): nat
    decreases d.cur - start
  {
    if start >= d.cur then 0 else (if start / CHUNK in d.dirty then 1 else 0) + DirtyFrom(d, start + CHUNK)
  }

  function DirtyCount(devs: seq<Dev>, i: nat): nat
    requires i <= |devs|
    decreases |devs| - i
  {
    if i == |devs| then 0 else DirtyFrom(devs[i], 0) + DirtyCount(devs, i + 1)
  }

  /** Every dirty chunk that will be resent lies on its disk as a whole. */
  predicate DirtyWhole(d: Dev) {
    forall c: nat :: c in d.dirty && c * CHUNK < d.cur ==> c * CHUNK + CHUNK <= |d.disk|
  }

  /** Exactly when blk_mig_save_dirty_blocks succeeds. */
  predicate DirtyOk(devs: seq<Dev>, fails: seq<bool>) {
    (forall i :: 0 <= i < |devs| ==> DirtyWhole(devs[i])) && !AnyFails(fails, DirtyCount(devs, 0))
  }

  // ---------------------------------------------------------------- stage 3

  /** The state in which stage 3 resends the dirty chunks. */
  function AtDirty(s: Src, rateLimit: int, firstBudget: nat, secondBudget: nat): (t: Src)
    requires Ready(s)
    ensures |t.mig.devs| == |s.mig.devs| && Ready(t)
  {
    Finishing(Pumped(s, rateLimit, firstBudget, secondBudget))
  }

  /** Exactly when stage 3 succeeds. */
  predicate CompleteOk(s: Src, rateLimit: int, firstBudget: nat, secondBudget: nat,
                       fails: seq<bool>, syncFails: seq<bool>, dirtyFails: seq<bool>)
    requires Ready(s)
  {
    && PumpOk(s, rateLimit, firstBudget, secondBudget, fails)
    && !AnyFails(syncFails, FinishReads(Pumped(s, rateLimit, firstBudget, secondBudget)))
    && DirtyOk(AtDirty(s, rateLimit, firstBudget, secondBudget).mig.devs, dirtyFails)
  }

  /** What the bulk phase leaves alone while the guest is stopped: the guest's side of every device,
      and the dirty chunks behind the cursor. */
  ghost predicate Forward(m: Mig, n: Mig) {
    && |n.devs| == |m.devs|
    && forall i :: 0 <= i < |m.devs| ==> DevForward(m.devs[i], n.devs[i])
  }

  ghost predicate DevForward(d: Dev, e: Dev) {
    && e == d.(dirty := e.dirty, cur := e.cur, completed := e.completed, bulkCompleted := e.bulkCompleted)
    && d.cur <= e.cur && e.dirty <= d.dirty
    && forall c: nat :: c in d.dirty && c * CHUNK < d.cur ==> c in e.dirty
  }

  /** The cursors are at chunk boundaries or at the end. */
  ghost predicate Chunked(devs: seq<Dev>) {
    forall i :: 0 <= i < |devs| ==>
      devs[i].cur <= |devs[i].disk| && (devs[i].cur % CHUNK == 0 || devs[i].cur == |devs[i].disk|)
  }

  /** A block of a chunk behind the cursor that is not dirty. */
  ghost predicate Spent(devs: seq<Dev>, b: Blk) {
    b.dev < |devs| && b.sector % CHUNK == 0 && b.sector < devs[b.dev].cur && b.sector / CHUNK !in devs[b.dev].dirty
  }

  lemma ForwardSelf(m: Mig)
    ensures Forward(m, m)
  {
  }

  lemma ForwardTrans(l: Mig, m: Mig, n: Mig)
    requires Forward(l, m) && Forward(m, n)
    ensures Forward(l, n)
  {
    forall i | 0 <= i < |l.devs| ensures DevForward(l.devs[i], n.devs[i]) {
      assert DevForward(l.devs[i], m.devs[i]) && DevForward(m.devs[i], n.devs[i]);
    }
  }

  /** The chunk of a block behind the cursor stays as it is. */
  lemma ForwardDirty(m: Mig, n: Mig, b: Blk)
    requires Forward(m, n) && b.dev < |m.devs| && b.sector % CHUNK == 0 && b.sector < m.devs[b.dev].cur
    ensures b.sector < n.devs[b.dev].cur
    ensures b.sector / CHUNK in m.devs[b.dev].dirty <==> b.sector / CHUNK in n.devs[b.dev].dirty
  {
    assert DevForward(m.devs[b.dev], n.devs[b.dev]);
    assert b.sector / CHUNK * CHUNK == b.sector;
  }

  lemma BulkDevForward(d: Dev, from: nat)
    requires d.cur <= from < |d.disk| && d.cur % CHUNK == 0
    ensures DevForward(d, BulkDev(d, from))
    ensures BulkDev(d, from).cur <= |d.disk| && (BulkDev(d, from).cur % CHUNK == 0 || BulkDev(d, from).cur == |d.disk|)
    ensures ChunkStart(from) % CHUNK == 0 && ChunkStart(from) < BulkDev(d, from).cur
    ensures ChunkStart(from) / CHUNK !in BulkDev(d, from).dirty
  {
    var start := ChunkStart(from);
    assert start / CHUNK == from / CHUNK && d.cur <= start;
    assert forall c: nat :: c * CHUNK < d.cur ==> c != from / CHUNK;
  }

  lemma ServedForward(m: Mig, i: nat, isAsync: bool)
    requires Chunked(m.devs) && OnDisk(m.devs) && i < |m.devs|
    ensures var n := Served(m, i, isAsync);
            Forward(m, n) && Chunked(n.devs) && n.blkList == m.blkList &&
            (if isAsync && Reads(m.devs[i])
             then |n.inFlight| == |m.inFlight| + 1 && m.inFlight <= n.inFlight && Spent(n.devs, n.inFlight[|m.inFlight|])
             else n.inFlight == m.inFlight)
  {
    hide SkipTo;
    var d := m.devs[i];
    if Reads(d) { BulkDevForward(d, SkipTo(d, d.cur)); }
  }

  lemma BulkCallForward(s: Src, isAsync: bool)
    requires Chunked(s.mig.devs) && Ready(s)
    ensures var t, i := BulkCall(s, isAsync), Unfinished(s.mig.devs);
            Forward(s.mig, t.mig) && Chunked(t.mig.devs) && t.mig.blkList == s.mig.blkList &&
            (if isAsync && i < |s.mig.devs| && Reads(s.mig.devs[i])
             then |t.mig.inFlight| == |s.mig.inFlight| + 1 && s.mig.inFlight <= t.mig.inFlight &&
                  Spent(t.mig.devs, t.mig.inFlight[|s.mig.inFlight|])
             else t.mig.inFlight == s.mig.inFlight)
  {
    hide Served, Forward, Chunked, Spent, TotalSectors;
    var i := Unfinished(s.mig.devs);
    if i < |s.mig.devs| {
      ServedForward(s.mig, i, isAsync);
      SameDevsForward(s.mig, Served(s.mig, i, isAsync), BulkCall(s, isAsync).mig);
    } else {
      ForwardSelf(s.mig);
      SameDevsForward(s.mig, s.mig, BulkCall(s, isAsync).mig);
    }
  }

  lemma SameDevsForward(l: Mig, m: Mig, n: Mig)
    requires Forward(l, m) && m.devs == n.devs
    ensures Forward(l, n)
  {
  }

  /** The blocks that Issuing starts: none of their chunks is dirty any more. */
  lemma {:induction false} IssuingForward(s: Src, rateLimit: int)
    requires Chunked(s.mig.devs) && Ready(s)
    ensures var t := Issuing(s, rateLimit);
            Forward(s.mig, t.mig) && Chunked(t.mig.devs) && t.mig.blkList == s.mig.blkList &&
            s.mig.inFlight <= t.mig.inFlight && |t.mig.inFlight| == |s.mig.inFlight| + IssueReads(s, rateLimit) &&
            forall k :: |s.mig.inFlight| <= k < |t.mig.inFlight| ==> Spent(t.mig.devs, t.mig.inFlight[k])
    decreases BulkLeft(s.mig.devs)
  {
    hide BulkCall, Forward, Chunked, Spent, BulkLeft, TotalSectors;
    ForwardSelf(s.mig);
    if |s.mig.Pending()| * BLOCK_SIZE < rateLimit {
      BulkCallForward(s, true);
      BulkCallLess(s, true);
      var u := BulkCall(s, true);
      if Unfinished(s.mig.devs) < |s.mig.devs| {
        IssuingForward(u, rateLimit);
        var t := Issuing(u, rateLimit);
        ForwardTrans(s.mig, u.mig, t.mig);
        if |u.mig.inFlight| > |s.mig.inFlight| { SpentForward(u.mig, t.mig, u.mig.inFlight[|s.mig.inFlight|]); }
      }
    }
  }

  lemma SpentForward(m: Mig, n: Mig, b: Blk)
    requires Forward(m, n) && Spent(m.devs, b)
    ensures Spent(n.devs, b)
  {
    hide Forward;
    ForwardDirty(m, n, b);
    ForwardSizes(m, n);
  }

  lemma ForwardSizes(m: Mig, n: Mig)
    requires Forward(m, n)
    ensures |m.devs| == |n.devs|
  {
  }

  lemma {:induction false} FinishingForward(s: Src)
    requires Chunked(s.mig.devs) && Ready(s)
    ensures var t := Finishing(s);
            Forward(s.mig, t.mig) && t.mig.blkList == s.mig.blkList && t.mig.inFlight == s.mig.inFlight &&
            Unfinished(t.mig.devs) == |t.mig.devs|
    decreases BulkLeft(s.mig.devs)
  {
    hide BulkCall, Forward, Chunked, Spent, BulkLeft, TotalSectors;
    BulkCallForward(s, false);
    BulkCallLess(s, false);
    var u := BulkCall(s, false);
    if Unfinished(s.mig.devs) < |s.mig.devs| {
      FinishingForward(u);
      ForwardTrans(s.mig, u.mig, Finishing(u).mig);
    } else {
      NothingServed(s, false);
    }
  }

  lemma NothingServed(s: Src, isAsync: bool)
    requires Ready(s) && Unfinished(s.mig.devs) == |s.mig.devs|
    ensures BulkCall(s, isAsync).mig.devs == s.mig.devs
  {
  }

  // ---------------------------------------------------------------- events

  /** What can happen to a migration between its stages. */
  datatype Event =
    | GuestBegins(dev: nat, id: nat, range: Range)
    | GuestTouches(dev: nat, id: nat, sector: nat, value: Sector)
    | GuestEnds(dev: nat, id: nat)
    | ReadPicksUp(block: nat, sector: nat)
    | ReadEnds(block: nat, ok: bool)
    | SaveLive(rateLimit: int, firstBudget: nat, secondBudget: nat, fails: seq<bool>)

  ghost function WithDev(s: Src, i: nat, d: Dev): (t: Src)
    requires Ready(s) && i < |s.mig.devs| && |d.disk| == |s.mig.devs[i].disk| && d.cur == s.mig.devs[i].cur
    ensures Ready(t)
  {
    var devs := s.mig.devs[i := d];
    TotalSectorsSame(s.mig.devs, devs);
    s.(mig := s.mig.(devs := devs))
  }

  /** What one event does; None if the stream fails. An event that cannot happen in this state (a
      write the guest did not begin, a sector no read asked for) is passed over. */
  ghost function Step(s: Src, e: Event): (t: Option<Src>)
    requires Ready(s)
    ensures t.Some? ==> Ready(t.value)
  {
    var m := s.mig;
    match e
    case GuestBegins(i, id, w) =>
      if i < |m.devs| && id !in m.devs[i].writes && w.hi <= |m.devs[i].disk|
      then Some(WithDev(s, i, GuestBegin(m.devs[i], id, w))) else Some(s)
    case GuestTouches(i, id, k, v) =>
      if i < |m.devs| && id in m.devs[i].writes && m.devs[i].writes[id].lo <= k < m.devs[i].writes[id].hi && k < |m.devs[i].disk|
      then Some(WithDev(s, i, GuestTouch(m.devs[i], k, v))) else Some(s)
    case GuestEnds(i, id) =>
      if i < |m.devs| && id in m.devs[i].writes then Some(WithDev(s, i, GuestEnd(m.devs[i], id))) else Some(s)
    case ReadPicksUp(j, k) =>
      if j < |m.inFlight| && k < |m.inFlight[j].buf| && m.inFlight[j].dev < |m.devs| &&
         m.inFlight[j].sector + k < |m.devs[m.inFlight[j].dev].disk|
      then Some(s.(mig := Sampled(m, j, k))) else Some(s)
    case ReadEnds(j, ok) =>
      if j < |m.inFlight| && (ok ==> None !in m.inFlight[j].buf) then Some(s.(mig := Completed(m, j, ok))) else Some(s)
    case SaveLive(rateLimit, firstBudget, secondBudget, fails) =>
      if PumpOk(s, rateLimit, firstBudget, secondBudget, fails)
      then Some(Ended(Pumped(s, rateLimit, firstBudget, secondBudget))) else None
  }

  /** The end marker of a section. */
  function Ended(s: Src): Src {
    s.(mig := s.mig.(stream := s.mig.stream + [Eos]))
  }

  /** What the first n events do. */
  ghost function Steps(s: Src, events: seq<Event>, n: nat): (t: Option<Src>)
    requires Ready(s) && n <= |events|
    ensures t.Some? ==> Ready(t.value)
  {
    if n == 0 then Some(s)
    else match Steps(s, events, n - 1) case None => None case Some(u) => Step(u, events[n - 1])
  }

  ghost predicate GuestStopped(devs: seq<Dev>) {
    forall i :: 0 <= i < |devs| ==> devs[i].writes == map[]
  }

  // ---------------------------------------------------------------- stage 3, seen from its start

  /** Blocks pending at the start of stage 3 that its flushes do not reach. */
  function Left(s: Src, budget: nat): seq<Blk> {
    s.mig.inFlight + s.mig.blkList[Sends(s.mig.blkList, budget)..]
  }

  /** Blocks that stage 3 starts to read itself and does not wait for. */
  function Started(s: Src, rateLimit: int, firstBudget: nat): seq<Blk>
    requires Ready(s)
  {
    var t := Issuing(FlushedBy(s, firstBudget), rateLimit);
    if |s.mig.inFlight| <= |t.mig.inFlight| then t.mig.inFlight[|s.mig.inFlight|..] else []
  }

  /** The destination shares a base that already says what is in the chunk of this block. */
  ghost predicate InBase(devs: seq<Dev>, base: seq<seq<Sector>>, b: Blk) {
    && b.dev < |devs| == |base| && devs[b.dev].sharedBase
    && forall s: nat :: s < |devs[b.dev].disk| && s < |base[b.dev]| && Covers(b, b.dev, s) ==>
         devs[b.dev].disk[s] == base[b.dev][s]
  }

  /** What can be known before stage 3: nothing is lost if every block its flushes leave behind is of
      a chunk that is dirty or in the shared base, and every block it starts is of a chunk in the
      shared base. */
  ghost predicate Safe(s: Src, base: seq<seq<Sector>>, rateLimit: int, firstBudget: nat, secondBudget: nat)
    requires Ready(s)
  {
    && (forall b :: b in Left(s, firstBudget + secondBudget) ==> Harmless(s.mig, base, b))
    && (forall b :: b in Started(s, rateLimit, firstBudget) ==> InBase(s.mig.devs, base, b))
  }

  /** The state between the two flushes of stage 3. */
  lemma StartedBlocks(s: Src, rateLimit: int, firstBudget: nat)
    requires Chunked(s.mig.devs) && Ready(s)
    ensures var c := Issuing(FlushedBy(s, firstBudget), rateLimit).mig;
            Forward(s.mig, c) && Chunked(c.devs) && c.inFlight == s.mig.inFlight + Started(s, rateLimit, firstBudget) &&
            c.blkList == s.mig.blkList[Sends(s.mig.blkList, firstBudget)..] &&
            forall b :: b in Started(s, rateLimit, firstBudget) ==> Spent(c.devs, b)
  {
    hide Forward, Chunked, Spent, Issuing, TotalSectors, Records, OnDisk;
    var a := FlushedBy(s, firstBudget);
    var c := Issuing(a, rateLimit);
    IssuingForward(a, rateLimit);
    SameDevsBoth(s.mig, a.mig, c.mig, c.mig);
    forall b | b in Started(s, rateLimit, firstBudget) ensures Spent(c.mig.devs, b) {
      var k :| |s.mig.inFlight| <= k < |c.mig.inFlight| && c.mig.inFlight[k] == b;
    }
  }

  lemma SendsTwice(l: seq<Blk>, x: nat, y: nat)
    ensures l[Sends(l, x)..][Sends(l[Sends(l, x)..], y)..] == l[Sends(l, x + y)..]
  {
  }

  lemma AtDirtyBlocks(s: Src, rateLimit: int, firstBudget: nat, secondBudget: nat)
    requires Chunked(s.mig.devs) && Ready(s)
    ensures var t := AtDirty(s, rateLimit, firstBudget, secondBudget).mig;
            Forward(s.mig, t) && Unfinished(t.devs) == |t.devs| &&
            t.inFlight == s.mig.inFlight + Started(s, rateLimit, firstBudget) &&
            t.blkList == s.mig.blkList[Sends(s.mig.blkList, firstBudget + secondBudget)..] &&
            forall b :: b in Started(s, rateLimit, firstBudget) ==> Spent(t.devs, b)
  {
    hide Forward, Chunked, Spent, Issuing, Finishing, TotalSectors, Records, OnDisk, Started, Sends;
    var c := Issuing(FlushedBy(s, firstBudget), rateLimit);
    var d := FlushedBy(c, secondBudget);
    var t := Finishing(d);
    StartedBlocks(s, rateLimit, firstBudget);
    SameDevsForward(s.mig, c.mig, d.mig);
    FinishingForward(d);
    ForwardTrans(s.mig, d.mig, t.mig);
    forall b | b in Started(s, rateLimit, firstBudget) ensures Spent(t.mig.devs, b) { SpentForward(d.mig, t.mig, b); }
    SendsTwice(s.mig.blkList, firstBudget, secondBudget);
  }

  lemma SameDevsBoth(s: Mig, a: Mig, c: Mig, d: Mig)
    requires s.devs == a.devs && Forward(a, c) && c.devs == d.devs
    ensures Forward(s, d)
  {
  }

  predicate SameDisk(d: Dev, e: Dev) {
    d.disk == e.disk && d.sharedBase == e.sharedBase
  }

  lemma PumpedSizes(s: Src, rateLimit: int, firstBudget: nat, secondBudget: nat)
    requires Ready(s)
    ensures var t := Pumped(s, rateLimit, firstBudget, secondBudget);
            forall i :: 0 <= i < |s.mig.devs| ==> SameDisk(s.mig.devs[i], t.mig.devs[i])
  {
    hide Issuing, TotalSectors;
    IssuingSizes(FlushedBy(s, firstBudget), rateLimit);
  }

  lemma {:induction false} IssuingSizes(s: Src, rateLimit: int)
    requires Ready(s)
    ensures forall i :: 0 <= i < |s.mig.devs| ==> SameDisk(s.mig.devs[i], Issuing(s, rateLimit).mig.devs[i])
    decreases BulkLeft(s.mig.devs)
  {
    hide TotalSectors, BulkLeft, Served, Issuing;
    IssueTurn(s, rateLimit);
    BulkCallLess(s, true);
    var i := Unfinished(s.mig.devs);
    if i < |s.mig.devs| {
      ServedSizes(s.mig, i);
      if |s.mig.Pending()| * BLOCK_SIZE < rateLimit { IssuingSizes(BulkCall(s, true), rateLimit); }
    }
  }

  lemma ServedSizes(m: Mig, i: nat)
    requires OnDisk(m.devs) && i < |m.devs|
    ensures forall j :: 0 <= j < |m.devs| ==> SameDisk(m.devs[j], Served(m, i, true).devs[j])
  {
  }

  /** Whether stage 3 loses anything is decided by the state it begins in, its rate limit and its
      budgets. */
  lemma EntryDecides(s: Src, base: seq<seq<Sector>>, rateLimit: int, firstBudget: nat, secondBudget: nat)
    requires Inv(s.mig, base) && Ready(s)
    ensures NothingLost(AtDirty(s, rateLimit, firstBudget, secondBudget).mig, base) <==>
            Safe(s, base, rateLimit, firstBudget, secondBudget)
  {
    hide Forward, AtDirty, Started, Harmless, Inv, InBase, TotalSectors, OnDisk, Chunked;
    InvChunked(s.mig, base);
    AtDirtyBlocks(s, rateLimit, firstBudget, secondBudget);
    var t := AtDirty(s, rateLimit, firstBudget, secondBudget).mig;
    var left, started := Left(s, firstBudget + secondBudget), Started(s, rateLimit, firstBudget);
    forall b | b in left ensures Harmless(t, base, b) <==> Harmless(s.mig, base, b) {
      assert b in s.mig.Pending();
      InvPending(s.mig, base, b);
      SameHarm(s.mig, t, base, b);
    }
    forall b | b in started ensures Harmless(t, base, b) <==> InBase(s.mig.devs, base, b) {
      SpentHarm(s.mig, t, base, b);
    }
    assert forall b :: b in t.Pending() <==> b in left || b in started;
  }

  lemma InvChunked(m: Mig, base: seq<seq<Sector>>)
    requires Inv(m, base)
    ensures Chunked(m.devs) && OnDisk(m.devs)
  {
    forall i | 0 <= i < |m.devs|
      ensures m.devs[i].cur <= |m.devs[i].disk| && (m.devs[i].cur % CHUNK == 0 || m.devs[i].cur == |m.devs[i].disk|)
    {
      assert DevOk(m.devs[i], base[i]);
    }
  }

  lemma InvPending(m: Mig, base: seq<seq<Sector>>, b: Blk)
    requires Inv(m, base) && b in m.Pending()
    ensures b.dev < |m.devs| && b.sector % CHUNK == 0 && b.sector < m.devs[b.dev].cur
  {
    assert BlkOk(m.devs, b);
  }

  lemma SameHarm(m: Mig, n: Mig, base: seq<seq<Sector>>, b: Blk)
    requires Forward(m, n) && b.dev < |m.devs| && b.sector % CHUNK == 0 && b.sector < m.devs[b.dev].cur
    ensures Harmless(n, base, b) <==> Harmless(m, base, b)
  {
    ForwardDirty(m, n, b);
    assert DevForward(m.devs[b.dev], n.devs[b.dev]);
  }

  lemma SpentHarm(m: Mig, n: Mig, base: seq<seq<Sector>>, b: Blk)
    requires Forward(m, n) && Spent(n.devs, b)
    ensures Harmless(n, base, b) <==> InBase(m.devs, base, b)
  {
    assert DevForward(m.devs[b.dev], n.devs[b.dev]);
  }

  // ---------------------------------------------------------------- what does not fit its disk

  /** The chunk of a block lies on its disk as a whole. */
  predicate ChunkFits(devs: seq<Dev>, b: Blk) {
    b.dev < |devs| && b.sector + CHUNK <= |devs[b.dev].disk|
  }

  /** The chunks the bulk phase has still to send lie on the disk: past the last whole chunk there is
      nothing to come, or nothing that the shared base does not have. */
  predicate FitsAhead(d: Dev) {
    forall k :: d.cur <= k < |d.disk| && |d.disk| / CHUNK * CHUNK <= k ==> Skippable(d, k)
  }

  /** A sector the bulk phase may skip. */
  predicate Skippable(d: Dev, k: nat) {
    d.sharedBase && k !in d.alloc
  }

  /** What can be known before stage 3: everything sent lies on its disk if this is so of the stream,
      of the blocks the flushes reach and of the chunks left to the synchronous loop. */
  ghost predicate Fitting(s: Src, rateLimit: int, firstBudget: nat, secondBudget: nat)
    requires Ready(s)
  {
    && AllOnDisk(s.mig.devs, s.mig.stream)
    && (forall b :: b in s.mig.blkList[..Sends(s.mig.blkList, firstBudget + secondBudget)] ==> ChunkFits(s.mig.devs, b))
    && AllFitAhead(Pumped(s, rateLimit, firstBudget, secondBudget).mig.devs)
  }

  predicate AllFitAhead(devs: seq<Dev>) {
    forall i :: 0 <= i < |devs| ==> FitsAhead(devs[i])
  }

  /** A finished device has its cursor at the end. */
  ghost predicate AtEnds(devs: seq<Dev>) {
    forall i :: 0 <= i < |devs| ==> devs[i].bulkCompleted ==> devs[i].cur == |devs[i].disk|
  }

  ghost predicate SameLengths(a: seq<Dev>, b: seq<Dev>) {
    |a| == |b| && forall i :: 0 <= i < |a| ==> |a[i].disk| == |b[i].disk|
  }

  lemma SameLengthsFit(a: seq<Dev>, b: seq<Dev>, stream: seq<Record>)
    requires SameLengths(a, b)
    ensures AllOnDisk(a, stream) <==> AllOnDisk(b, stream)
  {
    assert forall r :: r in stream ==> (LiesOnDisk(a, r) <==> LiesOnDisk(b, r));
  }

  lemma OnDiskAppend(devs: seq<Dev>, a: seq<Record>, b: seq<Record>)
    ensures AllOnDisk(devs, a + b) <==> AllOnDisk(devs, a) && AllOnDisk(devs, b)
  {
    hide LiesOnDisk;
    assert forall r :: r in a + b <==> r in a || r in b;
  }

  lemma RecordsFit(devs: seq<Dev>, blks: seq<Blk>)
    ensures AllOnDisk(devs, Records(blks)) <==> forall b :: b in blks ==> ChunkFits(devs, b)
  {
    var rs := Records(blks);
    forall k | 0 <= k < |blks| ensures LiesOnDisk(devs, rs[k]) <==> ChunkFits(devs, blks[k]) {
    }
    hide LiesOnDisk, ChunkFits, Records;
    if AllOnDisk(devs, rs) {
      forall b | b in blks ensures ChunkFits(devs, b) {
        var k :| 0 <= k < |blks| && blks[k] == b;
        assert rs[k] in rs;
      }
    }
  }

  lemma FlushFits(s: Src, budget: nat)
    ensures AllOnDisk(s.mig.devs, FlushedBy(s, budget).mig.stream) <==>
            AllOnDisk(s.mig.devs, s.mig.stream) &&
            forall b :: b in s.mig.blkList[..Sends(s.mig.blkList, budget)] ==> ChunkFits(s.mig.devs, b)
  {
    hide AllOnDisk, ChunkFits, Records, Sends;
    var sent := s.mig.blkList[..Sends(s.mig.blkList, budget)];
    OnDiskAppend(s.mig.devs, s.mig.stream, Records(sent));
    RecordsFit(s.mig.devs, sent);
  }

  lemma ReportFits(devs: seq<Dev>, s: Src, percent: int)
    ensures AllOnDisk(devs, Reported(s, percent).mig.stream) <==> AllOnDisk(devs, s.mig.stream)
  {
    OnDiskAppend(devs, s.mig.stream, [Progress(percent)]);
  }

  /** The chunk at the first sector to transfer does not fit exactly when the device had something to
      come past its last whole chunk. */
  lemma ServedDevFits(d: Dev, from: nat)
    requires d.cur <= |d.disk| && (d.cur % CHUNK == 0 || d.cur == |d.disk|)
    requires from == SkipTo(d, d.cur) < |d.disk|
    ensures FitsAhead(d) <==> ChunkStart(from) + CHUNK <= |d.disk| && FitsAhead(BulkDev(d, from))
  {
    hide SkipTo;
    var floor := |d.disk| / CHUNK * CHUNK;
    assert floor <= |d.disk| < floor + CHUNK;
    if ChunkStart(from) + CHUNK > |d.disk| {
      assert from >= floor && !Skippable(d, from);
    } else {
      var e := BulkDev(d, from);
      assert d.cur <= e.cur == ChunkStart(from) + CHUNK <= floor;
      assert forall k :: d.cur <= k < |d.disk| && floor <= k ==> (Skippable(d, k) <==> Skippable(e, k));
    }
  }

  lemma ServedNothingFits(d: Dev)
    requires d.cur <= |d.disk| && SkipTo(d, d.cur) == |d.disk|
    ensures FitsAhead(d)
  {
  }

  lemma ServedEnds(m: Mig, i: nat, isAsync: bool)
    requires OnDisk(m.devs) && AtEnds(m.devs) && i < |m.devs|
    ensures AtEnds(Served(m, i, isAsync).devs) && SameLengths(m.devs, Served(m, i, isAsync).devs)
    ensures isAsync ==> Served(m, i, isAsync).stream == m.stream
  {
    hide SkipTo, ChunkData;
  }

  lemma ServedFits(m: Mig, i: nat)
    requires Chunked(m.devs) && OnDisk(m.devs) && i < |m.devs|
    ensures var n := Served(m, i, false);
            AllOnDisk(m.devs, n.stream) && AllFitAhead(n.devs) <==> AllOnDisk(m.devs, m.stream) && AllFitAhead(m.devs)
  {
    hide SkipTo, AllOnDisk, ChunkData, FitsAhead, LiesOnDisk, AllFitAhead;
    var n, d := Served(m, i, false), m.devs[i];
    var from := SkipTo(d, d.cur);
    assert n.devs == m.devs[i := n.devs[i]];
    AheadAt(m.devs, n.devs, i);
    if Reads(d) {
      ServedDevFits(d, from);
      SameAhead(BulkDev(d, from), n.devs[i]);
      var r := Block(i, ChunkStart(from), ChunkData(d.disk, ChunkStart(from)));
      OnDiskAppend(m.devs, m.stream, [r]);
      OneFits(m.devs, r);
    } else {
      ServedNothingFits(d);
      AtEndFits(n.devs[i]);
    }
  }

  lemma AheadAt(a: seq<Dev>, b: seq<Dev>, i: nat)
    requires i < |a| == |b| && b == a[i := b[i]]
    ensures AllFitAhead(a) ==> FitsAhead(a[i])
    ensures AllFitAhead(b) ==> FitsAhead(b[i])
    ensures AllFitAhead(a) && FitsAhead(b[i]) ==> AllFitAhead(b)
    ensures AllFitAhead(b) && FitsAhead(a[i]) ==> AllFitAhead(a)
  {
    hide FitsAhead;
    if AllFitAhead(a) && FitsAhead(b[i]) {
      forall j | 0 <= j < |b| ensures FitsAhead(b[j]) { assert j != i ==> b[j] == a[j]; }
    }
    if AllFitAhead(b) && FitsAhead(a[i]) {
      forall j | 0 <= j < |a| ensures FitsAhead(a[j]) { assert j != i ==> b[j] == a[j]; }
    }
  }

  lemma SameAhead(d: Dev, e: Dev)
    requires e == d.(bulkCompleted := e.bulkCompleted)
    ensures FitsAhead(e) <==> FitsAhead(d)
  {
    assert forall k: nat :: Skippable(d, k) <==> Skippable(e, k);
  }

  lemma AtEndFits(d: Dev)
    requires d.cur == |d.disk|
    ensures FitsAhead(d)
  {
  }

  lemma OneFits(devs: seq<Dev>, r: Record)
    requires r.Block? && r.dev < |devs|
    ensures AllOnDisk(devs, [r]) <==> r.sector + |r.data| <= |devs[r.dev].disk|
  {
    assert r in [r];
  }

  lemma ReportedDevs(s: Src, percent: int)
    ensures Reported(s, percent).mig.devs == s.mig.devs
  {
  }

  /** A call of the bulk phase keeps finished devices at their ends; the asynchronous one sends no block. */
  lemma BulkCallEnds(s: Src, isAsync: bool)
    requires Ready(s) && AtEnds(s.mig.devs)
    ensures var t := BulkCall(s, isAsync);
            AtEnds(t.mig.devs) && SameLengths(s.mig.devs, t.mig.devs) &&
            (isAsync ==> (AllOnDisk(s.mig.devs, t.mig.stream) <==> AllOnDisk(s.mig.devs, s.mig.stream)))
  {
    hide Served, AtEnds, AllOnDisk, TotalSectors, CompletedSum, Reported, OnDisk;
    var i := Unfinished(s.mig.devs);
    if i < |s.mig.devs| {
      ServedEnds(s.mig, i, isAsync);
      var m := Served(s.mig, i, isAsync);
      var percent := CompletedSum(m.devs, i + 1) * 100 / TotalSectors(s.mig.devs);
      ReportFits(s.mig.devs, s.(mig := m), percent);
      ReportedDevs(s.(mig := m), percent);
    } else {
      var percent := CompletedSum(s.mig.devs, i) * 100 / TotalSectors(s.mig.devs);
      ReportFits(s.mig.devs, s, percent);
      ReportedDevs(s, percent);
    }
  }

  lemma BulkCallFits(s: Src)
    requires Ready(s) && Chunked(s.mig.devs)
    ensures var t := BulkCall(s, false);
            AllOnDisk(s.mig.devs, t.mig.stream) && AllFitAhead(t.mig.devs) <==>
            AllOnDisk(s.mig.devs, s.mig.stream) && AllFitAhead(s.mig.devs)
  {
    hide Served, Chunked, AllOnDisk, AllFitAhead, TotalSectors, CompletedSum, Reported, OnDisk;
    var i := Unfinished(s.mig.devs);
    if i < |s.mig.devs| {
      ServedFits(s.mig, i);
      var m := Served(s.mig, i, false);
      var percent := CompletedSum(m.devs, i + 1) * 100 / TotalSectors(s.mig.devs);
      ReportFits(s.mig.devs, s.(mig := m), percent);
      ReportedDevs(s.(mig := m), percent);
    } else {
      var percent := CompletedSum(s.mig.devs, i) * 100 / TotalSectors(s.mig.devs);
      ReportFits(s.mig.devs, s, percent);
      ReportedDevs(s, percent);
    }
  }

  lemma SameLengthsTrans(a: seq<Dev>, b: seq<Dev>, c: seq<Dev>)
    requires SameLengths(a, b) && SameLengths(b, c)
    ensures SameLengths(a, c)
  {
  }

  lemma SameLengthsSelf(a: seq<Dev>)
    ensures SameLengths(a, a)
  {
  }

  /** Submitting reads sends no block. */
  lemma {:induction false} IssuingFits(s: Src, rateLimit: int)
    requires Ready(s) && AtEnds(s.mig.devs)
    ensures var t := Issuing(s, rateLimit);
            AtEnds(t.mig.devs) && SameLengths(s.mig.devs, t.mig.devs) &&
            (AllOnDisk(s.mig.devs, t.mig.stream) <==> AllOnDisk(s.mig.devs, s.mig.stream))
    decreases BulkLeft(s.mig.devs)
  {
    hide BulkCall, AtEnds, SameLengths, AllOnDisk, BulkLeft, TotalSectors, Issuing, Ready;
    IssueTurn(s, rateLimit);
    SameLengthsSelf(s.mig.devs);
    if |s.mig.Pending()| * BLOCK_SIZE < rateLimit {
      var u := BulkCall(s, true);
      BulkCallEnds(s, true);
      BulkCallLess(s, true);
      if Unfinished(s.mig.devs) < |s.mig.devs| {
        IssuingFits(u, rateLimit);
        var t := Issuing(u, rateLimit);
        SameLengthsTrans(s.mig.devs, u.mig.devs, t.mig.devs);
        SameLengthsFit(s.mig.devs, u.mig.devs, u.mig.stream);
        SameLengthsFit(s.mig.devs, u.mig.devs, t.mig.stream);
      }
    }
  }

  /** The synchronous loop sends nothing that runs past its disk exactly when nothing of that kind was
      ahead. */
  lemma {:induction false} FinishingFits(s: Src)
    requires Ready(s) && Chunked(s.mig.devs) && AtEnds(s.mig.devs)
    ensures var t := Finishing(s);
            SameLengths(s.mig.devs, t.mig.devs) &&
            (AllOnDisk(s.mig.devs, t.mig.stream) <==> AllOnDisk(s.mig.devs, s.mig.stream) && AllFitAhead(s.mig.devs))
    decreases BulkLeft(s.mig.devs)
  {
    hide BulkCall, AtEnds, Chunked, SameLengths, AllOnDisk, AllFitAhead, BulkLeft, TotalSectors, Finishing, Ready, Forward;
    FinishTurn(s);
    BulkCallEnds(s, false);
    BulkCallFits(s);
    var u := BulkCall(s, false);
    if Unfinished(s.mig.devs) < |s.mig.devs| {
      BulkCallForward(s, false);
      BulkCallLess(s, false);
      FinishingFits(u);
      var t := Finishing(u);
      SameLengthsTrans(s.mig.devs, u.mig.devs, t.mig.devs);
      SameLengthsFit(s.mig.devs, u.mig.devs, u.mig.stream);
      SameLengthsFit(s.mig.devs, u.mig.devs, t.mig.stream);
    } else {
      NothingServed(s, false);
      AllDoneFit(s.mig.devs);
    }
  }

  lemma AllDoneFit(devs: seq<Dev>)
    requires AtEnds(devs) && Unfinished(devs) == |devs|
    ensures AllFitAhead(devs)
  {
  }

  lemma InvAtEnds(m: Mig, base: seq<seq<Sector>>)
    requires Inv(m, base)
    ensures AtEnds(m.devs)
  {
    forall i | 0 <= i < |m.devs| ensures m.devs[i].bulkCompleted ==> m.devs[i].cur == |m.devs[i].disk| {
      assert DevOk(m.devs[i], base[i]);
    }
  }

  /** Whether a record runs past its disk when stage 3 comes to the dirty chunks is decided by the
      state it begins in, its rate limit and its budgets. */
  lemma EntryFits(s: Src, base: seq<seq<Sector>>, rateLimit: int, firstBudget: nat, secondBudget: nat)
    requires Inv(s.mig, base) && Ready(s)
    ensures var t := AtDirty(s, rateLimit, firstBudget, secondBudget).mig;
            SameLengths(s.mig.devs, t.devs) &&
            (AllOnDisk(t.devs, t.stream) <==> Fitting(s, rateLimit, firstBudget, secondBudget))
  {
    hide Inv, Forward, Chunked, AtEnds, Spent, SameLengths, AllOnDisk, AllFitAhead, Issuing, Finishing, TotalSectors, OnDisk,
         Started, ChunkFits, FlushedBy, Sends;
    InvChunked(s.mig, base);
    InvAtEnds(s.mig, base);
    var a := FlushedBy(s, firstBudget);
    FlushedDevs(s, firstBudget);
    var c := Issuing(a, rateLimit);
    var d := FlushedBy(c, secondBudget);
    FlushedDevs(c, secondBudget);
    var t := Finishing(d);
    var l := s.mig.blkList;
    var x, y := l[..Sends(l, firstBudget)], c.mig.blkList[..Sends(c.mig.blkList, secondBudget)];
    StartedBlocks(s, rateLimit, firstBudget);
    IssuingFits(a, rateLimit);
    FinishingFits(d);
    FlushFits(s, firstBudget);
    FlushFits(c, secondBudget);
    SameLengthsTrans(s.mig.devs, d.mig.devs, t.mig.devs);
    SameLengthsFit(s.mig.devs, d.mig.devs, c.mig.stream);
    SameLengthsFit(d.mig.devs, t.mig.devs, t.mig.stream);
    SameLengthsChunks(s.mig.devs, d.mig.devs, y);
    FlushesReach(l, firstBudget, secondBudget);
  }

  lemma FlushedDevs(s: Src, budget: nat)
    ensures FlushedBy(s, budget).mig.devs == s.mig.devs && FlushedBy(s, budget).mig.inFlight == s.mig.inFlight
    ensures FlushedBy(s, budget).mig.blkList == s.mig.blkList[Sends(s.mig.blkList, budget)..]
  {
  }

  lemma SameLengthsChunks(a: seq<Dev>, b: seq<Dev>, blks: seq<Blk>)
    requires SameLengths(a, b)
    ensures (forall k :: k in blks ==> ChunkFits(a, k)) <==> (forall k :: k in blks ==> ChunkFits(b, k))
  {
    assert forall k :: k in blks ==> (ChunkFits(a, k) <==> ChunkFits(b, k));
  }

  /** The two flushes together reach a prefix of the list. */
  lemma FlushesReach(l: seq<Blk>, x: nat, y: nat)
    ensures var rest := l[Sends(l, x)..];
            l[..Sends(l, x + y)] == l[..Sends(l, x)] + rest[..Sends(rest, y)]
  {
  }

  // ---------------------------------------------------------------- what a caller can check

  /** Nothing is in flight, the bulk phase is over and the flushes reach the end of the list: then
      nothing can be lost. */
  lemma DrainedIsSafe(s: Src, base: seq<seq<Sector>>, rateLimit: int, firstBudget: nat, secondBudget: nat)
    requires Ready(s) && s.mig.inFlight == [] && Unfinished(s.mig.devs) == |s.mig.devs|
    requires |s.mig.blkList| <= firstBudget + secondBudget
    ensures Safe(s, base, rateLimit, firstBudget, secondBudget)
  {
    hide TotalSectors, BulkCall, Issuing;
    var a := FlushedBy(s, firstBudget);
    IssueTurn(a, rateLimit);
    NothingServed(a, true);
    NothingIssued(a);
    assert Left(s, firstBudget + secondBudget) == [];
    assert Started(s, rateLimit, firstBudget) == [];
  }

  lemma NothingIssued(s: Src)
    requires Ready(s) && Unfinished(s.mig.devs) == |s.mig.devs|
    ensures BulkCall(s, true).mig.inFlight == s.mig.inFlight && BulkCall(s, true).mig.blkList == s.mig.blkList
  {
  }

  /** Every disk is a whole number of chunks. */
  ghost predicate Whole(devs: seq<Dev>) {
    forall i :: 0 <= i < |devs| ==> |devs[i].disk| % CHUNK == 0
  }

  /** Some disk that is migrated in full is not. */
  ghost predicate SomeFullUneven(devs: seq<Dev>) {
    exists i :: 0 <= i < |devs| && !devs[i].sharedBase && |devs[i].disk| % CHUNK != 0
  }

  /** Whole chunks fit. */
  lemma WholeFits(s: Src, base: seq<seq<Sector>>, rateLimit: int, firstBudget: nat, secondBudget: nat)
    requires Ready(s) && Inv(s.mig, base) && Whole(s.mig.devs)
    ensures Fitting(s, rateLimit, firstBudget, secondBudget)
  {
    hide TotalSectors, Pumped, Sends;
    PumpedSizes(s, rateLimit, firstBudget, secondBudget);
    forall r | r in s.mig.stream ensures LiesOnDisk(s.mig.devs, r) {
      assert RecordOk(s.mig.devs, r);
      if r.Block? { assert DevOk(s.mig.devs[r.dev], base[r.dev]); }
    }
    forall b | b in s.mig.blkList ensures ChunkFits(s.mig.devs, b) {
      assert b in s.mig.Pending();
      InvPending(s.mig, base, b);
      assert DevOk(s.mig.devs[b.dev], base[b.dev]);
    }
  }

  /** Whole disks, blocks that were read and no failing read: then stage 3 succeeds. */
  lemma StageThreeSucceeds(s: Src, base: seq<seq<Sector>>, rateLimit: int, firstBudget: nat, secondBudget: nat,
                           fails: seq<bool>, syncFails: seq<bool>, dirtyFails: seq<bool>)
    requires Ready(s) && Inv(s.mig, base)
    requires Whole(s.mig.devs)
    requires forall b :: b in s.mig.blkList ==> b.ok
    requires true !in fails && true !in syncFails && true !in dirtyFails
    ensures CompleteOk(s, rateLimit, firstBudget, secondBudget, fails, syncFails, dirtyFails)
  {
    hide Issuing, Finishing, Forward, Inv, IssueReads, FinishReads, Chunked, OnDisk, DirtyCount, AtDirty, Started, Spent,
         FlushedBy, AnyFails, Ready;
    NoFails(fails);
    NoFails(syncFails);
    NoFails(dirtyFails);
    InvChunked(s.mig, base);
    ReadyMeans(s);
    assert PumpOk(s, rateLimit, firstBudget, secondBudget, fails) by {
      StartedBlocks(s, rateLimit, firstBudget);
      FlushesOk(s, firstBudget);
    }
    AtDirtyBlocks(s, rateLimit, firstBudget, secondBudget);
    ReadyMeans(AtDirty(s, rateLimit, firstBudget, secondBudget));
    var t := AtDirty(s, rateLimit, firstBudget, secondBudget).mig;
    ForwardSizes(s.mig, t);
    forall i | 0 <= i < |t.devs| ensures DirtyWhole(t.devs[i]) { WholeForward(s.mig, t, i); }
  }

  lemma NoFails(fails: seq<bool>)
    requires true !in fails
    ensures forall n: nat :: !AnyFails(fails, n)
  {
  }

  lemma ReadyMeans(s: Src)
    requires Ready(s)
    ensures OnDisk(s.mig.devs) && TotalSectors(s.mig.devs) > 0
  {
  }

  lemma FlushesOk(s: Src, budget: nat)
    requires forall b :: b in s.mig.blkList ==> b.ok
    ensures FlushOk(s, budget) && FlushedBy(s, budget).mig.devs == s.mig.devs
    ensures forall b :: b in s.mig.blkList[Sends(s.mig.blkList, budget)..] ==> b.ok
  {
  }

  lemma WholeForward(m: Mig, n: Mig, i: nat)
    requires Forward(m, n) && i < |m.devs| && OnDisk(n.devs) && |m.devs[i].disk| % CHUNK == 0
    ensures DirtyWhole(n.devs[i])
  {
    assert DevForward(m.devs[i], n.devs[i]);
  }

  // ---------------------------------------------------------------- migrating one chunk

  /** is_stage2_completed: only then does the migration go on to stage 3. */
  predicate Stage2Done(s: Src) {
    s.mig.inFlight == [] && Unfinished(s.mig.devs) == |s.mig.devs|
  }

  function OneDisk(disk: seq<Sector>): Dev {
    Dev(disk, {}, {}, map[], false, false, 0, 0)
  }

  /** Stage 2 issues the only chunk, which has `n` sectors; its read picks up every sector and ends
      well; the next call of stage 2 finds nothing more to do. */
  function OneChunkEvents(n: nat): (es: seq<Event>)
    ensures |es| == n + 3 && es[0] == es[n + 2] == SaveLive(1, 0, 0, []) && es[n + 1] == ReadEnds(0, true)
    ensures forall k :: 0 <= k < n ==> es[k + 1] == ReadPicksUp(0, k)
  {
    [SaveLive(1, 0, 0, [])] + seq(n, k requires 0 <= k => ReadPicksUp(0, k)) + [ReadEnds(0, true), SaveLive(1, 0, 0, [])]
  }

  function OneChunkState(disk: seq<Sector>, inFlight: seq<Blk>, blkList: seq<Blk>, stream: seq<Record>): Src {
    Src(Mig([Dev(disk, {}, {}, map[], false, true, |disk|, 0)], inFlight, blkList, stream), 0)
  }

  const AFTER_ONE: seq<Record> := [Progress(0), Eos]
  const AFTER_TWO: seq<Record> := [Progress(0), Eos, Eos]

  predicate OneChunk(disk: seq<Sector>) {
    0 < |disk| <= CHUNK
  }

  /** What the read has picked up after `n` sectors. */
  function Picked(disk: seq<Sector>, n: nat): (buf: seq<Option<Sector>>)
    ensures |buf| == |disk| && forall k :: 0 <= k < |disk| ==> buf[k] == if k < n then Some(disk[k]) else None
  {
    seq(|disk|, k requires 0 <= k < |disk| => if k < n then Some(disk[k]) else None)
  }

  function Waiting(disk: seq<Sector>, n: nat): Src {
    OneChunkState(disk, [Blk(0, 0, Picked(disk, n), false)], [], AFTER_ONE)
  }

  /** The block is read and on the list. */
  function Listed(disk: seq<Sector>, stream: seq<Record>): Src {
    OneChunkState(disk, [], [Blk(0, 0, Picked(disk, |disk|), true)], stream)
  }

  lemma OneDiskReady(disk: seq<Sector>, d: Dev, s: Src)
    requires OneChunk(disk) && d.disk == disk && d.cur <= |disk| && s.mig.devs == [d]
    ensures Ready(s) && TotalSectors(s.mig.devs) == |disk|
  {
    assert s.mig.devs[..0] == [];
    assert TotalSectors([]) == 0;
  }

  lemma FlushNothing(s: Src)
    ensures FlushedBy(s, 0) == s && FlushOk(s, 0)
  {
    assert s.mig.blkList[..0] == [] && s.mig.stream + [] == s.mig.stream;
  }

  lemma OneChunkServed(disk: seq<Sector>, s: Src)
    requires OneChunk(disk) && s == Src(Mig([OneDisk(disk)], [], [], []), -1) && Ready(s) && TotalSectors(s.mig.devs) == |disk|
    ensures BulkCall(s, true) == OneChunkState(disk, [Blk(0, 0, Picked(disk, 0), false)], [], [Progress(0)])
    ensures Unfinished(s.mig.devs) == 0
  {
    hide TotalSectors;
    var m := Served(s.mig, 0, true);
    assert Unfinished(s.mig.devs) == 0;
    var nothing: seq<Option<Sector>> := seq(|disk|, _ => None);
    assert nothing == Picked(disk, 0);
    assert SkipTo(OneDisk(disk), 0) == 0;
    var d := BulkDev(OneDisk(disk), 0);
    assert d.dirty == {} && d == Dev(disk, {}, {}, map[], false, false, |disk|, 0);
    assert m.devs == [d.(bulkCompleted := true)];
    assert m.inFlight == [Blk(0, 0, Picked(disk, 0), false)];
    assert CompletedSum(m.devs, 1) == CompletedSum(m.devs, 0) + 0;
  }

  lemma OneChunkFirst(disk: seq<Sector>, s: Src)
    requires OneChunk(disk) && s == Src(Mig([OneDisk(disk)], [], [], []), -1)
    ensures Ready(s) && Step(s, SaveLive(1, 0, 0, [])) == Some(Waiting(disk, 0))
  {
    hide Issuing, IssueReads, TotalSectors, SkipTo, BulkCall, Picked;
    OneDiskReady(disk, OneDisk(disk), s);
    OneChunkServed(disk, s);
    FlushNothing(s);
    var t := BulkCall(s, true);
    IssueTurn(s, 1);
    IssueTurn(t, 1);
    FlushNothing(t);
    assert t.mig.stream + [Eos] == AFTER_ONE;
  }

  lemma {:induction false} OneChunkPicks(disk: seq<Sector>, s: Src, n: nat)
    requires OneChunk(disk) && s == Src(Mig([OneDisk(disk)], [], [], []), -1) && Ready(s) && n <= |disk|
    ensures Steps(s, OneChunkEvents(|disk|), n + 1) == Some(Waiting(disk, n))
  {
    hide Step, OneChunkEvents, Waiting, Ready;
    var es := OneChunkEvents(|disk|);
    if n == 0 {
      OneChunkFirst(disk, s);
      assert Steps(s, es, 0) == Some(s);
    } else {
      OneChunkPicks(disk, s, n - 1);
      OneChunkPick(disk, n - 1);
    }
  }

  lemma OneChunkPick(disk: seq<Sector>, k: nat)
    requires OneChunk(disk) && k < |disk|
    ensures Ready(Waiting(disk, k)) && Step(Waiting(disk, k), ReadPicksUp(0, k)) == Some(Waiting(disk, k + 1))
  {
    hide Ready;
    var t := Waiting(disk, k);
    OneDiskReady(disk, t.mig.devs[0], t);
    assert Picked(disk, k)[k := Some(disk[k])] == Picked(disk, k + 1);
    assert Sampled(t.mig, 0, k).inFlight == [Blk(0, 0, Picked(disk, k + 1), false)];
  }

  lemma OneChunkRead(disk: seq<Sector>)
    requires OneChunk(disk)
    ensures Ready(Waiting(disk, |disk|))
    ensures Step(Waiting(disk, |disk|), ReadEnds(0, true)) == Some(Listed(disk, AFTER_ONE))
  {
    hide Ready;
    var t := Waiting(disk, |disk|);
    OneDiskReady(disk, t.mig.devs[0], t);
    assert None !in t.mig.inFlight[0].buf;
    assert Completed(t.mig, 0, true).inFlight == [];
    assert Completed(t.mig, 0, true).blkList == [Blk(0, 0, Picked(disk, |disk|), true)];
  }

  /** With the only chunk issued the bulk phase has nothing to do and nothing to report. */
  lemma OneChunkIdle(disk: seq<Sector>, t: Src)
    requires OneChunk(disk) && t == OneChunkState(disk, t.mig.inFlight, t.mig.blkList, t.mig.stream)
    ensures Ready(t) && Unfinished(t.mig.devs) == 1
    ensures forall rateLimit :: Issuing(t, rateLimit) == t && IssueReads(t, rateLimit) == 0
    ensures Finishing(t) == t && FinishReads(t) == 0
  {
    hide Issuing, IssueReads, Finishing, FinishReads, TotalSectors;
    OneDiskReady(disk, t.mig.devs[0], t);
    assert Unfinished(t.mig.devs[..0]) == 0;
    assert CompletedSum(t.mig.devs, 1) == CompletedSum(t.mig.devs, 0) == 0;
    assert BulkCall(t, true) == t && BulkCall(t, false) == t;
    forall rateLimit ensures Issuing(t, rateLimit) == t && IssueReads(t, rateLimit) == 0 { IssueTurn(t, rateLimit); }
    FinishTurn(t);
  }

  lemma OneChunkLast(disk: seq<Sector>)
    requires OneChunk(disk)
    ensures Ready(Listed(disk, AFTER_ONE))
    ensures Step(Listed(disk, AFTER_ONE), SaveLive(1, 0, 0, [])) == Some(Listed(disk, AFTER_TWO))
  {
    hide Issuing, IssueReads, TotalSectors, Picked, FlushedBy, FlushOk, Ready;
    var t := Listed(disk, AFTER_ONE);
    OneChunkIdle(disk, t);
    FlushNothing(t);
    assert t.mig.stream + [Eos] == AFTER_TWO;
  }

  /** The chunk is read and its block on the list when stage 2 reports that it is done. Then stage 3
      succeeds; it is safe only if a flush reaches the block, and it fits only if the disk fills the
      chunk. */
  lemma OneChunkRun(disk: seq<Sector>, s: Src, rateLimit: int, firstBudget: nat, secondBudget: nat)
    requires OneChunk(disk) && s == Src(Mig([OneDisk(disk)], [], [], []), -1)
    ensures Ready(s)
    ensures var t := Steps(s, OneChunkEvents(|disk|), |disk| + 3);
            t.Some? && t.value == Listed(disk, AFTER_TWO) && Stage2Done(t.value) &&
            CompleteOk(t.value, rateLimit, firstBudget, secondBudget, [], [], []) &&
            (Safe(t.value, [disk], rateLimit, firstBudget, secondBudget) <==> firstBudget + secondBudget > 0) &&
            (Fitting(t.value, rateLimit, firstBudget, secondBudget) <==> firstBudget + secondBudget == 0 || |disk| == CHUNK)
  {
    hide Step, OneChunkEvents, Waiting, Listed, Ready, CompleteOk, Safe, Fitting, OneChunk;
    OneDiskReady(disk, OneDisk(disk), s);
    var es := OneChunkEvents(|disk|);
    OneChunkPicks(disk, s, |disk|);
    OneChunkRead(disk);
    assert Steps(s, es, |disk| + 2) == Some(Listed(disk, AFTER_ONE));
    OneChunkLast(disk);
    OneChunkEnds(disk, rateLimit, firstBudget, secondBudget);
  }

  lemma OneChunkEnds(disk: seq<Sector>, rateLimit: int, firstBudget: nat, secondBudget: nat)
    requires OneChunk(disk)
    ensures var t := Listed(disk, AFTER_TWO);
            Ready(t) && Stage2Done(t) && CompleteOk(t, rateLimit, firstBudget, secondBudget, [], [], []) &&
            (Safe(t, [disk], rateLimit, firstBudget, secondBudget) <==> firstBudget + secondBudget > 0) &&
            (Fitting(t, rateLimit, firstBudget, secondBudget) <==> firstBudget + secondBudget == 0 || |disk| == CHUNK)
  {
    hide Picked, Issuing, IssueReads, Finishing, FinishReads, TotalSectors, DirtyCount, Ready, Records, FlushedBy, Sends,
         Safe, Fitting, CompleteOk;
    OneChunkIdle(disk, Listed(disk, AFTER_TWO));
    OneChunkCompletes(disk, rateLimit, firstBudget, secondBudget);
    OneChunkSafe(disk, rateLimit, firstBudget, secondBudget);
    OneChunkFits(disk, rateLimit, firstBudget, secondBudget);
  }

  lemma OneChunkCompletes(disk: seq<Sector>, rateLimit: int, firstBudget: nat, secondBudget: nat)
    requires OneChunk(disk) && Ready(Listed(disk, AFTER_TWO))
    ensures CompleteOk(Listed(disk, AFTER_TWO), rateLimit, firstBudget, secondBudget, [], [], [])
  {
    hide Picked, Issuing, IssueReads, Finishing, FinishReads, TotalSectors, DirtyCount, Ready, Records;
    var t := Listed(disk, AFTER_TWO);
    OneChunkPumped(disk, rateLimit, firstBudget, secondBudget);
    OneChunkIdle(disk, Pumped(t, rateLimit, firstBudget, secondBudget));
    NoFails([]);
    hide Pumped, PumpOk, AnyFails;
  }

  /** The flushes do all there is to do before the last loops. */
  lemma OneChunkPumped(disk: seq<Sector>, rateLimit: int, firstBudget: nat, secondBudget: nat)
    requires OneChunk(disk) && Ready(Listed(disk, AFTER_TWO))
    ensures var t := Listed(disk, AFTER_TWO); var c := Pumped(t, rateLimit, firstBudget, secondBudget);
            Issuing(FlushedBy(t, firstBudget), rateLimit).mig.inFlight == [] &&
            c == OneChunkState(disk, c.mig.inFlight, c.mig.blkList, c.mig.stream) &&
            PumpOk(t, rateLimit, firstBudget, secondBudget, [])
  {
    hide Picked, Issuing, IssueReads, TotalSectors, Ready, Records;
    var t := Listed(disk, AFTER_TWO);
    var a := FlushedBy(t, firstBudget);
    OneChunkIdle(disk, a);
  }

  lemma OneChunkSafe(disk: seq<Sector>, rateLimit: int, firstBudget: nat, secondBudget: nat)
    requires OneChunk(disk) && Ready(Listed(disk, AFTER_TWO))
    ensures Safe(Listed(disk, AFTER_TWO), [disk], rateLimit, firstBudget, secondBudget) <==> firstBudget + secondBudget > 0
  {
    hide Picked, Issuing, TotalSectors, Ready, Pumped, PumpOk, FlushedBy;
    var t := Listed(disk, AFTER_TWO);
    OneChunkPumped(disk, rateLimit, firstBudget, secondBudget);
    assert Started(t, rateLimit, firstBudget) == [];
    var blk := t.mig.blkList[0];
    if firstBudget + secondBudget == 0 {
      assert blk in Left(t, 0) && !Harmless(t.mig, [disk], blk);
    } else {
      assert Left(t, firstBudget + secondBudget) == [];
    }
  }

  lemma OneChunkFits(disk: seq<Sector>, rateLimit: int, firstBudget: nat, secondBudget: nat)
    requires OneChunk(disk) && Ready(Listed(disk, AFTER_TWO))
    ensures Fitting(Listed(disk, AFTER_TWO), rateLimit, firstBudget, secondBudget) <==>
            firstBudget + secondBudget == 0 || |disk| == CHUNK
  {
    hide Picked, Issuing, TotalSectors, Ready, Pumped, PumpOk, FlushedBy;
    var t := Listed(disk, AFTER_TWO);
    OneChunkPumped(disk, rateLimit, firstBudget, secondBudget);
    var reached := t.mig.blkList[..Sends(t.mig.blkList, firstBudget + secondBudget)];
    if firstBudget + secondBudget > 0 {
      assert reached == [t.mig.blkList[0]] && (ChunkFits(t.mig.devs, t.mig.blkList[0]) <==> |disk| == CHUNK);
    }
  }
}
