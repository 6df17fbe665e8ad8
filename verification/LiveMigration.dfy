/**
 The running side of block-migration.c: the migration state as an object whose methods are the
 functions of that file, and the destination's block_load. What happens to the data is specified
 by the functions of modules BlockMigration and MigrationRun and proved there.

 Answers of the outside world are parameters: how many blocks flush_blks may send before the rate
 limit strikes, and which reads fail. The n-th read attempted by a call fails if and
 only if `fails[n]` is there and true, so any finite number of failures is covered.
 */
module LiveMigration {
  import opened Options
  import opened BlockMigration
  import opened MigrationRun

  const MAX_IS_ALLOCATED_SEARCH: int := 65536

  class BlkMigState {
    var devs: seq<Dev>
    var inFlight: seq<Blk>
    var blkList: seq<Blk>
    var stream: seq<Record>
    var submitted: int
    var readDone: int
    var transferred: int
    var totalSectorSum: int
    var prevProgress: int
    var fileError: bool
    ghost const base: seq<seq<Sector>>
    /** Asynchronous blocks issued so far. */
    ghost var issued: int

    ghost function View(): Mig
      reads this
    {
      Mig(devs, inFlight, blkList, stream)
    }

    ghost function Now(): Src
      reads this
    {
      Src(View(), prevProgress)
    }

    ghost predicate Valid()
      reads this
    {
      && Inv(View(), base) && OnDisk(devs)
      && submitted == |inFlight| && readDone == |blkList|
      && submitted + readDone + transferred == issued
      && totalSectorSum == TotalSectors(devs) && totalSectorSum > 0
    }

    /** init_blk_migration and set_dirty_tracking(1): guest writes may already be in flight. */
    constructor (devs: seq<Dev>, ghost base: seq<seq<Sector>>)
      requires |devs| == |base| && TotalSectors(devs) > 0
      requires forall i :: 0 <= i < |devs| ==>
                 devs[i].cur == 0 && devs[i].completed == 0 && !devs[i].bulkCompleted && devs[i].dirty == {} &&
                 DevOk(devs[i], base[i])
      ensures Valid() && View() == Mig(devs, [], [], []) && this.base == base && !fileError && issued == 0
      ensures Now() == Src(Mig(devs, [], [], []), -1)
    {
      this.devs, this.base := devs, base;
      inFlight, blkList, stream := [], [], [];
      submitted, readDone, transferred, issued := 0, 0, 0, 0;
      totalSectorSum, prevProgress, fileError := TotalSectors(devs), -1, false;
      assert forall i :: 0 <= i < |devs| ==> DevOk(devs[i], base[i]);
    }

    /** blk_mig_read_cb */
    method ReadCb(j: nat, ok: bool)
      requires Valid() && j < |inFlight| && (ok ==> None !in inFlight[j].buf)
      modifies this
      ensures Valid() && View() == Completed(old(View()), j, ok)
      ensures issued == old(issued) && transferred == old(transferred) && fileError == old(fileError)
      ensures prevProgress == old(prevProgress)
    {
      hide Inv, TotalSectors;
      CompletedKeeps(View(), base, j, ok);
      var blk := inFlight[j].(ok := ok);
      inFlight := inFlight[..j] + inFlight[j + 1..];
      blkList := blkList + [blk];
      submitted := submitted - 1;
      readDone := readDone + 1;
      assert submitted >= 0;
    }

    /** flush_blks; the rate limit strikes after `budget` blocks. */
    method FlushBlks(budget: nat)
      requires Valid()
      modifies this
      ensures Valid() && devs == old(devs) && inFlight == old(inFlight)
      ensures issued == old(issued) && prevProgress == old(prevProgress)
      ensures var n := transferred - old(transferred);
              0 <= n <= budget && n <= |old(blkList)| && blkList == old(blkList)[n..] &&
              (forall k :: 0 <= k < n ==> old(blkList)[k].ok) &&
              stream == old(stream) + Records(old(blkList)[..n]) &&
              (fileError <==> old(fileError) || (n < budget && blkList != [])) &&
              (n < budget && blkList != [] ==> !blkList[0].ok)
      ensures fileError <==> old(fileError) || !FlushOk(old(Now()), budget)
      ensures FlushOk(old(Now()), budget) ==> Now() == FlushedBy(old(Now()), budget)
    {
      hide Inv, TotalSectors, Payload;
      var n := 0;
      assert blkList[..0] == [];
      assert stream + [] == stream;
      while blkList != []
        invariant Valid() && devs == old(devs) && inFlight == old(inFlight)
        invariant issued == old(issued) && prevProgress == old(prevProgress) && fileError == old(fileError)
        invariant n == transferred - old(transferred) && n <= budget && n <= |old(blkList)|
        invariant blkList == old(blkList)[n..] && forall k :: 0 <= k < n ==> old(blkList)[k].ok
        invariant stream == old(stream) + Records(old(blkList)[..n])
        decreases |blkList|
      {
        if n == budget {
          break;
        }
        var blk := blkList[0];
        if !blk.ok {
          fileError := true;
          break;
        }
        FlushedKeeps(View(), base);
        RecordsSnoc(old(blkList), n);
        stream := stream + [Block(blk.dev, blk.sector, Payload(blk.buf))];
        blkList := blkList[1..];
        readDone := readDone - 1;
        transferred := transferred + 1;
        assert readDone >= 0;
        n := n + 1;
      }
    }

    /** bdrv_is_allocated: whether `from` is allocated, and a run of sectors that agree with it. */
    method IsAllocated(d: Dev, from: nat, max: nat) returns (allocd: bool, run: nat)
      requires from < |d.disk| && max > 0
      ensures 0 < run <= max && from + run <= |d.disk|
      ensures forall s :: from <= s < from + run ==> (s in d.alloc <==> allocd)
    {
      allocd, run := from in d.alloc, 1;
      while run < max && from + run < |d.disk| && (from + run in d.alloc) == allocd
        invariant 0 < run <= max && from + run <= |d.disk|
        invariant forall s :: from <= s < from + run ==> (s in d.alloc <==> allocd)
      {
        run := run + 1;
      }
    }

    /** The skipping loop at the head of mig_save_device_bulk. */
    method SkipUnallocated(d: Dev) returns (from: nat)
      requires d.cur <= |d.disk|
      ensures d.cur <= from <= |d.disk| && (from > d.cur ==> d.sharedBase)
      ensures forall s :: d.cur <= s < from ==> s !in d.alloc
      ensures d.sharedBase && from < |d.disk| ==> from in d.alloc
    {
      from := d.cur;
      if d.sharedBase {
        while from < |d.disk|
          invariant d.cur <= from <= |d.disk|
          invariant forall s :: d.cur <= s < from ==> s !in d.alloc
        {
          var allocd, run := IsAllocated(d, from, MAX_IS_ALLOCATED_SEARCH);
          if allocd {
            return;
          }
          from := from + run;
        }
      }
    }

    /** mig_save_device_bulk: nothing is left (returns true), a block is issued or sent, or the
        read fails. */
    method MigSaveDeviceBulk(i: nat, isAsync: bool, fails: bool) returns (done: bool, tried: bool, ghost from: nat)
      requires Valid() && i < |devs| && !devs[i].bulkCompleted
      modifies this
      ensures Valid() && transferred == old(transferred) && prevProgress == old(prevProgress)
      ensures old(devs)[i].cur <= |old(devs)[i].disk| && from == SkipTo(old(devs)[i], old(devs)[i].cur)
      ensures tried <==> Reads(old(devs)[i])
      ensures !tried ==> from == |devs[i].disk| && View() == BulkFinished(old(View()), i)
      ensures tried ==> BulkAt(old(devs)[i], from)
      ensures tried && !fails ==> View() == if isAsync then BulkIssued(old(View()), i, from) else BulkSent(old(View()), i, from)
      ensures tried && fails ==> View() == old(View()).(devs := old(devs)[i := old(devs)[i].(completed := from)])
      ensures fileError <==> old(fileError) || (tried && fails)
      ensures issued == old(issued) + (if tried && !fails && isAsync then 1 else 0)
      ensures |devs| == |old(devs)| && (done <==> !(tried && fails) && devs[i].cur == |devs[i].disk|)
    {
      hide Inv, TotalSectors, Sent, SkipTo, ChunkData;
      ghost var m := View();
      var d := devs[i];
      InvDevOk(m, base, i);
      from := |d.disk|;
      var cur := SkipUnallocated(d);
      SkipToIs(d, d.cur, cur);
      TotalSectorsSame(devs, devs[i := d.(cur := |d.disk|, completed := |d.disk|)]);
      if cur >= |d.disk| {
        BulkFinishedKeeps(m, base, i);
        devs := devs[i := d.(cur := |d.disk|, completed := |d.disk|)];
        return true, false, from;
      }
      from, tried := cur, true;
      if fails {
        BookkeepingKeeps(m, base, i, cur, d.bulkCompleted);
        TotalSectorsSame(devs, devs[i := d.(completed := cur)]);
        devs := devs[i := d.(completed := cur)];
        fileError, done := true, false;
        return;
      }
      StartBlock(i, cur, isAsync);
      done := devs[i].cur >= |d.disk|;
    }

    /** The chunk at `from` is submitted, or read and sent, and the cursor moves past it. */
    method StartBlock(i: nat, from: nat, isAsync: bool)
      requires Valid() && i < |devs| && BulkAt(devs[i], from)
      modifies this
      ensures Valid() && transferred == old(transferred) && prevProgress == old(prevProgress) && fileError == old(fileError)
      ensures View() == if isAsync then BulkIssued(old(View()), i, from) else BulkSent(old(View()), i, from)
      ensures issued == old(issued) + if isAsync then 1 else 0
    {
      hide Inv, TotalSectors, Sent, BulkAt;
      ghost var m := View();
      var d := devs[i];
      InvDevOk(m, base, i);
      BulkAtMeans(d, from);
      BulkDevOk(d, base[i], from);
      TotalSectorsSame(devs, devs[i := BulkDev(d, from)]);
      var start := from / CHUNK * CHUNK;
      var nr := CHUNK;
      if |d.disk| - start < CHUNK {
        nr := |d.disk| - start;
      }
      if isAsync {
        BulkIssuedKeeps(m, base, i, from);
        inFlight := inFlight + [Blk(i, start, seq(nr, _ => None), false)];
        submitted, issued := submitted + 1, issued + 1;
      } else {
        BulkSentKeeps(m, base, i, from);
        stream := stream + [Block(i, start, ChunkData(d.disk, start))];
      }
      devs := devs[i := d.(dirty := d.dirty - {start / CHUNK}, cur := start + nr, completed := from)];
    }

    /** Serving a device: mig_save_device_bulk, and the mark of a finished device. */
    method ServeDevice(i: nat, isAsync: bool, fails: bool) returns (tried: bool)
      requires Valid() && i < |devs| && !devs[i].bulkCompleted && OnDisk(devs)
      modifies this
      ensures Valid() && transferred == old(transferred) && prevProgress == old(prevProgress)
      ensures tried <==> Reads(old(devs)[i])
      ensures !(tried && fails) ==> View() == Served(old(View()), i, isAsync)
      ensures tried && fails ==>
                exists from: nat :: View() == old(View()).(devs := old(devs)[i := old(devs)[i].(completed := from)])
      ensures fileError <==> old(fileError) || (tried && fails)
    {
      hide Inv, TotalSectors, Sent, SkipTo;
      var done;
      ghost var from;
      done, tried, from := MigSaveDeviceBulk(i, isAsync, fails);
      InvDevOk(View(), base, i);
      if done {
        BookkeepingKeeps(View(), base, i, devs[i].completed, true);
        TotalSectorsSame(devs, devs[i := devs[i].(bulkCompleted := true)]);
        devs := devs[i := devs[i].(bulkCompleted := true)];
      }
    }

    /** blk_mig_save_bulked_block: serve the first device that is not finished, then report. */
    method SaveBulkedBlock(isAsync: bool, fails: bool) returns (more: bool, tried: bool)
      requires Valid()
      modifies this
      ensures Valid() && transferred == old(transferred) && SameGuest(old(devs), devs)
      ensures OnDisk(old(devs)) && (more <==> Unfinished(old(devs)) < |old(devs)|)
      ensures tried <==> more && Reads(old(devs)[Unfinished(old(devs))])
      ensures !(tried && fails) ==> Now() == BulkCall(old(Now()), isAsync)
      ensures more && !(tried && fails) ==> BulkLeft(devs) < BulkLeft(old(devs))
      ensures BulkLeft(devs) <= BulkLeft(old(devs))
      ensures fileError <==> old(fileError) || (tried && fails)
      ensures !isAsync || (tried && fails) ==> inFlight == old(inFlight) && blkList == old(blkList)
    {
      hide Inv, TotalSectors, BulkLeft, Served, Reads, CompletedSum, SameGuest, Unfinished, OnDisk;
      ghost var s := Now();
      InvChunked(s.mig, base);
      GuestSelf(s.mig.devs);
      var sum, i := 0, 0;
      SumStart(devs);
      while i < |devs| && devs[i].bulkCompleted
        invariant unchanged(this) && i <= |devs|
        invariant (forall j :: 0 <= j < i ==> devs[j].bulkCompleted) && sum == CompletedSum(devs, i)
      {
        SumNext(devs, i);
        sum := sum + devs[i].completed;
        i := i + 1;
      }
      more, tried := false, false;
      FirstUnfinished(devs, i);
      if i < |devs| {
        tried := ServeDevice(i, isAsync, fails);
        if tried && fails {
          FailedServe(s.mig, View(), i);
        } else {
          ServedLess(s.mig, i, isAsync);
          ServedGuest(s.mig, i, isAsync);
        }
        SumNext(devs, i);
        sum := sum + devs[i].completed;
        more := true;
      }
      ReportProgress(sum * 100 / totalSectorSum);
    }

    /** The end of blk_mig_save_bulked_block. */
    method ReportProgress(progress: int)
      requires Valid()
      modifies this`prevProgress, this`stream
      ensures Valid() && prevProgress == progress && Now() == Reported(old(Now()), progress)
      ensures stream == if progress == old(prevProgress) then old(stream) else old(stream) + [Progress(progress)]
    {
      hide Inv, TotalSectors;
      if progress != prevProgress {
        RemarkKeeps(View(), base, Progress(progress));
        prevProgress := progress;
        stream := stream + [Progress(progress)];
      }
    }

    /** The dirty chunks of one device; a chunk that runs past the end of the disk cannot be read. */
    method SaveDirtyDevice(i: nat, tried: nat, fails: seq<bool>, ghost m: Mig) returns (ok: bool, tried': nat)
      requires Inv(m, base) && i < |devs| == |m.devs| && Resending(m, View(), i, 0)
      requires !AnyFails(fails, tried)
      modifies this`devs, this`stream, this`fileError
      ensures |devs| == |old(devs)| && tried' <= tried + DirtyFrom(m.devs[i], 0)
      ensures ok <==> DirtyWhole(m.devs[i]) && !AnyFails(fails, tried + DirtyFrom(m.devs[i], 0))
      ensures ok ==> Resending(m, View(), i + 1, 0) && tried' == tried + DirtyFrom(m.devs[i], 0)
      ensures fileError <==> old(fileError) || !ok
    {
      hide Inv, Resending, Sent, Shapes, DirtyFrom, AnyFails, DirtyWhole;
      InvShapes(m, base);
      var start := 0;
      tried' := tried;
      ResendingDev(m, View(), i, 0, i);
      DiskBound(m, base, i);
      while start < devs[i].cur
        invariant start % CHUNK == 0 && |devs| == |m.devs| && devs[i].cur == m.devs[i].cur
        invariant Resending(m, View(), i, start) && fileError == old(fileError)
        invariant tried' + DirtyFrom(m.devs[i], start) == tried + DirtyFrom(m.devs[i], 0)
        invariant !AnyFails(fails, tried') && WholeBelow(m.devs[i], start)
        decreases devs[i].cur - start
      {
        ResendingDev(m, View(), i, start, i);
        ResendingHere(m, View(), i, start);
        DirtyTurn(m.devs[i], start);
        FailsTurn(fails, tried', tried + DirtyFrom(m.devs[i], 0));
        if start / CHUNK in devs[i].dirty {
          if start + CHUNK > |devs[i].disk| || (tried' < |fails| && fails[tried']) {
            fileError := true;
            return false, tried';
          }
          tried' := tried' + 1;
          ResendingChunk(m, View(), base, i, start);
          stream := stream + [Block(i, start, ChunkData(devs[i].disk, start))];
          devs := devs[i := devs[i].(dirty := devs[i].dirty - {start / CHUNK})];
        } else {
          ResendingChunk(m, View(), base, i, start);
        }
        start := start + CHUNK;
        ResendingDev(m, View(), i, start, i);
      }
      DirtyEnd(m.devs[i], start);
      ResendingNextDev(m, View(), base, i, start);
      ok := true;
    }

    /** blk_mig_save_dirty_blocks */
    method SaveDirtyBlocks(fails: seq<bool>) returns (ok: bool)
      requires Inv(View(), base)
      modifies this`devs, this`stream, this`fileError
      ensures ok <==> DirtyOk(old(devs), fails)
      ensures ok ==> Resending(old(View()), View(), |devs|, 0)
      ensures |devs| == |old(devs)|
      ensures fileError <==> old(fileError) || !ok
    {
      hide Inv, Resending, Sent, Shapes, AnyFails, DirtyFrom, DirtyWhole, DirtyCount;
      ghost var m := View();
      ResendingStart(m);
      NoFailsYet(fails);
      CountEnd(m.devs);
      var i: nat, tried: nat := 0, 0;
      while i < |devs|
        invariant i <= |devs| == |m.devs| && Resending(m, View(), i, 0) && fileError == old(fileError)
        invariant tried + DirtyCount(m.devs, i) == DirtyCount(m.devs, 0) && !AnyFails(fails, tried)
        invariant forall j :: 0 <= j < i ==> DirtyWhole(m.devs[j])
      {
        CountTurn(m.devs, i);
        FailsMore(fails, tried + DirtyFrom(m.devs[i], 0), DirtyCount(m.devs, 0));
        ok, tried := SaveDirtyDevice(i, tried, fails, m);
        if !ok { return; }
        i := i + 1;
      }
      ok := true;
    }

    /** The loop of block_save_live that submits reads up to the rate limit. */
    method IssueReadsUpTo(rateLimit: int, fails: seq<bool>)
      requires Valid() && !fileError
      modifies this
      ensures Valid() && SameGuest(old(devs), devs)
      ensures fileError <==> AnyFails(fails, IssueReads(old(Now()), rateLimit))
      ensures !fileError ==> Now() == Issuing(old(Now()), rateLimit)
    {
      hide Inv, TotalSectors, BulkLeft, Issuing, IssueReads, BulkCall, SameGuest, Ready;
      ghost var s := Now();
      ReadyNow(s);
      GuestSelf(devs);
      ghost var tries := 0;
      var n := 0;
      while (submitted + readDone) * BLOCK_SIZE < rateLimit
        invariant Valid() && Ready(Now()) && SameGuest(old(devs), devs) && n <= |fails|
        invariant if fileError then AnyFails(fails, IssueReads(s, rateLimit))
                  else && Issuing(Now(), rateLimit) == Issuing(s, rateLimit)
                       && IssueReads(s, rateLimit) == tries + IssueReads(Now(), rateLimit)
                       && NoneFailed(fails, n, tries)
        decreases |fails| - n + BulkLeft(devs)
      {
        ghost var t := Now();
        assert |t.mig.Pending()| == submitted + readDone;
        IssueTurn(t, rateLimit);
        var more, tried := SaveBulkedBlock(true, n < |fails| && fails[n]);
        ReadyNow(Now());
        GuestTrans(old(devs), t.mig.devs, devs);
        NextRead(fails, n, tries, IssueReads(s, rateLimit), tried);
        if !more {
          return;
        }
        if tried {
          tries := tries + 1;
          if n < |fails| { n := n + 1; }
        }
      }
      assert |Now().mig.Pending()| == submitted + readDone;
      IssueTurn(Now(), rateLimit);
      NoMoreReads(fails, n, tries);
    }

    /** What every stage of block_save_live begins with: flush, submit bulk reads up to the rate
        limit, flush again. Returns whether the stream is free of errors. */
    method Pump(rateLimit: int, firstBudget: nat, secondBudget: nat, fails: seq<bool>) returns (ok: bool)
      requires Valid() && !fileError
      modifies this
      ensures Valid() && SameGuest(old(devs), devs) && (ok <==> !fileError)
      ensures ok <==> PumpOk(old(Now()), rateLimit, firstBudget, secondBudget, fails)
      ensures ok ==> Now() == Pumped(old(Now()), rateLimit, firstBudget, secondBudget)
    {
      hide Inv, TotalSectors, BulkLeft, Issuing, IssueReads, SameGuest, FlushOk, FlushedBy;
      GuestSelf(devs);
      FlushBlks(firstBudget);
      if fileError {
        return false;
      }
      IssueReadsUpTo(rateLimit, fails);
      FlushBlks(secondBudget);
      ok := !fileError;
    }

    /** blk_mig_cleanup: whatever is still pending is thrown away. */
    method Cleanup()
      modifies this
      ensures devs == [] && inFlight == [] && blkList == [] && stream == old(stream) && fileError == old(fileError)
    {
      devs, inFlight, blkList := [], [], [];
    }

    /** Stages 1 and 2 of block_save_live. */
    method SaveIterate(stage: int, rateLimit: int, firstBudget: nat, secondBudget: nat, fails: seq<bool>)
      returns (result: SaveResult)
      requires Valid() && !fileError && 1 <= stage <= 2
      modifies this
      ensures result.Saved? <==> PumpOk(old(Now()), rateLimit, firstBudget, secondBudget, fails)
      ensures result.Saved? ==> Valid() && !fileError && SameGuest(old(devs), devs)
      ensures result.Saved? ==> Now() == Ended(Pumped(old(Now()), rateLimit, firstBudget, secondBudget))
      ensures result.Failed? ==> fileError && devs == []
      ensures result.Saved? ==> (result.done <==> stage == 2 && Stage2Done(Now()))
      ensures result.Saved? && result.done ==> forall i :: 0 <= i < |devs| ==> devs[i].cur == |devs[i].disk|
    {
      hide Inv, TotalSectors, Pumped, PumpOk, SameGuest;
      var ok := Pump(rateLimit, firstBudget, secondBudget, fails);
      if !ok {
        Cleanup();
        return Failed;
      }
      RemarkKeeps(View(), base, Eos);
      stream := stream + [Eos];
      var completed := IsStage2Completed();
      return Saved(stage == 2 && completed);
    }

    /** is_stage2_completed */
    method IsStage2Completed() returns (done: bool)
      requires Valid()
      ensures done <==> Stage2Done(Now())
      ensures done <==> inFlight == [] && forall i :: 0 <= i < |devs| ==> devs[i].bulkCompleted
      ensures done ==> forall i :: 0 <= i < |devs| ==> devs[i].cur == |devs[i].disk|
    {
      hide Inv, TotalSectors;
      forall i | 0 <= i < |devs| ensures devs[i].bulkCompleted ==> devs[i].cur == |devs[i].disk| {
        InvDevOk(View(), base, i);
      }
      if submitted > 0 {
        return false;
      }
      for i := 0 to |devs|
        invariant forall j :: 0 <= j < i ==> devs[j].bulkCompleted
      {
        if !devs[i].bulkCompleted {
          return false;
        }
      }
      return true;
    }

    /** The synchronous bulk loop of stage 3; it ends because every turn finishes work or uses up
        one of the finitely many failures. */
    method FinishBulk(fails: seq<bool>)
      requires Valid()
      modifies this
      ensures Valid() && SameGuest(old(devs), devs) && inFlight == old(inFlight) && blkList == old(blkList)
      ensures forall i :: 0 <= i < |devs| ==> devs[i].cur == |devs[i].disk|
      ensures fileError <==> old(fileError) || AnyFails(fails, FinishReads(old(Now())))
      ensures !fileError ==> Now() == Finishing(old(Now()))
    {
      hide Inv, TotalSectors, BulkLeft, Finishing, FinishReads, BulkCall, SameGuest, Ready, AnyFails, NoneFailed;
      ghost var s := Now();
      ReadyNow(s);
      GuestSelf(devs);
      NoFailsYet(fails);
      ghost var tries, good := 0, true;
      var n := 0;
      NoneYet(fails);
      var more := true;
      while more
        invariant Valid() && Ready(Now()) && SameGuest(old(devs), devs) && n <= |fails|
        invariant inFlight == old(inFlight) && blkList == old(blkList)
        invariant !more ==> forall i :: 0 <= i < |devs| ==> devs[i].bulkCompleted
        invariant fileError <==> old(fileError) || !good
        invariant if !good then AnyFails(fails, FinishReads(s))
                  else && NoneFailed(fails, n, tries)
                       && (more ==> Finishing(Now()) == Finishing(s) && FinishReads(s) == tries + FinishReads(Now()))
                       && (!more ==> Now() == Finishing(s) && FinishReads(s) == tries)
        decreases more, |fails| - n + BulkLeft(devs)
      {
        ghost var t := Now();
        FinishTurn(t);
        var tried;
        var failing := n < |fails| && fails[n];
        more, tried := SaveBulkedBlock(false, failing);
        ReadyNow(Now());
        GuestTrans(old(devs), t.mig.devs, devs);
        NextRead(fails, n, tries, FinishReads(s), tried);
        if !more { NothingServed(t, false); }
        if tried {
          if failing { good := false; }
          tries := tries + 1;
          if n < |fails| { n := n + 1; }
        }
      }
      NoMoreReads(fails, n, tries);
      forall i | 0 <= i < |devs| ensures devs[i].cur == |devs[i].disk| {
        InvDevOk(View(), base, i);
      }
    }

    /** Stage 3 of block_save_live. It succeeds exactly when the blocks it flushes were read and none
        of its own reads fails; then the destination converges exactly when the state it began in
        was safe. */
    method SaveComplete(rateLimit: int, firstBudget: nat, secondBudget: nat,
                        fails: seq<bool>, syncFails: seq<bool>, dirtyFails: seq<bool>)
      returns (result: SaveResult)
      requires Valid() && !fileError
      modifies this
      ensures devs == [] && inFlight == [] && blkList == []
      ensures result.Failed? <==> fileError
      ensures result.Saved? <==> CompleteOk(old(Now()), rateLimit, firstBudget, secondBudget, fails, syncFails, dirtyFails)
      ensures result.Saved? && GuestStopped(old(devs)) ==>
                (Converges(old(devs), base, stream) <==>
                   Safe(old(Now()), base, rateLimit, firstBudget, secondBudget) &&
                   Fitting(old(Now()), rateLimit, firstBudget, secondBudget))
      ensures Whole(old(devs)) ==> Fitting(old(Now()), rateLimit, firstBudget, secondBudget)
      ensures result.Saved? && GuestStopped(old(devs)) && SomeFullUneven(old(devs)) ==> !Converges(old(devs), base, stream)
    {
      hide Inv, TotalSectors, BulkLeft, Resending, Converges, NothingLost, SameGuest, Pumped, PumpOk, Finishing, FinishReads,
           DirtyOk, Safe, Fitting, AnyFails, GuestStopped, Whole, SomeFullUneven;
      ghost var s := Now();
      EntryDecides(s, base, rateLimit, firstBudget, secondBudget);
      EntryFits(s, base, rateLimit, firstBudget, secondBudget);
      if Whole(devs) { WholeFits(s, base, rateLimit, firstBudget, secondBudget); }
      var ok := Pump(rateLimit, firstBudget, secondBudget, fails);
      if !ok {
        Cleanup();
        return Failed;
      }
      ghost var d := devs;
      FinishBulk(syncFails);
      ghost var m := View();
      GuestTrans(s.mig.devs, d, devs);
      var sent := SaveDirtyBlocks(dirtyFails);
      ghost var n := View();
      Cleanup();
      stream := stream + [Progress(100)];
      if fileError {
        return Failed;
      }
      stream := stream + [Eos];
      result := Saved(false);
      if GuestStopped(s.mig.devs) { ThreeStages(s.mig.devs, m, n, base); }
    }

    /** One event of the outside world or one call of stage 2. */
    method Handle(e: Event)
      requires Valid() && !fileError
      modifies this
      ensures fileError <==> Step(old(Now()), e).None?
      ensures fileError ==> devs == []
      ensures !fileError ==> Valid() && Now() == Step(old(Now()), e).value
    {
      hide Inv, TotalSectors, DevOk, Sampled, GuestBegin, GuestTouch, GuestEnd, Pumped, PumpOk;
      ghost var m := View();
      match e
      case GuestBegins(i, id, w) =>
        if i < |devs| && id !in devs[i].writes && w.hi <= |devs[i].disk| {
          GuestBeginKeeps(m, base, i, id, w);
          GuestDevs(devs[i], id, w);
          TotalSectorsSame(devs, devs[i := GuestBegin(devs[i], id, w)]);
          devs := devs[i := GuestBegin(devs[i], id, w)];
        }
      case GuestTouches(i, id, s, v) =>
        if i < |devs| && id in devs[i].writes && devs[i].writes[id].lo <= s < devs[i].writes[id].hi {
          WriteOnDisk(m, base, i, id);
          GuestTouchKeeps(m, base, i, id, s, v);
          GuestTouchDev(devs[i], s, v);
          TotalSectorsSame(devs, devs[i := GuestTouch(devs[i], s, v)]);
          devs := devs[i := GuestTouch(devs[i], s, v)];
        }
      case GuestEnds(i, id) =>
        if i < |devs| && id in devs[i].writes {
          GuestEndKeeps(m, base, i, id);
          GuestEndDev(devs[i], id);
          TotalSectorsSame(devs, devs[i := GuestEnd(devs[i], id)]);
          devs := devs[i := GuestEnd(devs[i], id)];
        }
      case ReadPicksUp(j, k) =>
        if j < |inFlight| && k < |inFlight[j].buf| {
          SampledKeeps(m, base, j, k);
          SampledFields(m, j, k);
          var b := inFlight[j];
          inFlight := inFlight[j := b.(buf := b.buf[k := Some(devs[b.dev].disk[b.sector + k])])];
        }
      case ReadEnds(j, ok) =>
        if j < |inFlight| && (ok ==> None !in inFlight[j].buf) {
          ReadCb(j, ok);
        }
      case SaveLive(rateLimit, firstBudget, secondBudget, fails) =>
        var result := SaveIterate(2, rateLimit, firstBudget, secondBudget, fails);
    }

    /** Any number of events in any order. */
    method Run(events: seq<Event>)
      requires Valid() && !fileError
      modifies this
      ensures fileError <==> Steps(old(Now()), events, |events|).None?
      ensures fileError ==> devs == []
      ensures !fileError ==> Valid() && Now() == Steps(old(Now()), events, |events|).value
    {
      hide Inv, TotalSectors, Step;
      ghost var s := Now();
      for k := 0 to |events|
        invariant !fileError && Valid() && Steps(s, events, k) == Some(Now())
      {
        Handle(events[k]);
        if fileError {
          NoneStays(s, events, k + 1, |events|);
          return;
        }
      }
    }
  }

  lemma GuestDevs(d: Dev, id: nat, w: Range)
    ensures GuestBegin(d, id, w) == d.(writes := GuestBegin(d, id, w).writes)
  {
  }

  lemma GuestTouchDev(d: Dev, s: nat, v: Sector)
    requires s < |d.disk|
    ensures |GuestTouch(d, s, v).disk| == |d.disk| && GuestTouch(d, s, v).cur == d.cur
  {
  }

  lemma GuestEndDev(d: Dev, id: nat)
    requires id in d.writes
    ensures GuestEnd(d, id).disk == d.disk && GuestEnd(d, id).cur == d.cur
  {
  }

  lemma WriteOnDisk(m: Mig, base: seq<seq<Sector>>, i: nat, id: nat)
    requires Inv(m, base) && i < |m.devs| && id in m.devs[i].writes
    ensures m.devs[i].writes[id].hi <= |m.devs[i].disk|
  {
    assert DevOk(m.devs[i], base[i]);
  }

  lemma {:induction false} NoneStays(s: Src, events: seq<Event>, k: nat, n: nat)
    requires Ready(s) && k <= n <= |events| && Steps(s, events, k).None?
    ensures Steps(s, events, n).None?
    decreases n - k
  {
    hide Step;
    if k < n { NoneStays(s, events, k, n - 1); }
  }

  lemma SampledFields(m: Mig, j: nat, k: nat)
    requires j < |m.inFlight| && k < |m.inFlight[j].buf|
    requires m.inFlight[j].dev < |m.devs| && m.inFlight[j].sector + k < |m.devs[m.inFlight[j].dev].disk|
    ensures var b := m.inFlight[j];
            Sampled(m, j, k) ==
            m.(inFlight := m.inFlight[j := b.(buf := b.buf[k := Some(m.devs[b.dev].disk[b.sector + k])])])
  {
  }

  /** Where a migration begins. */
  function Start(devs: seq<Dev>): Src {
    Src(Mig(devs, [], [], []), -1)
  }

  /** Migration convergence over whole runs: for every interleaving of guest writes, read
      completions and calls of stage 2, stage 3 succeeds exactly when no stage failed, the blocks it
      flushes were read and none of its reads fails. If the guest has stopped, the destination that
      loads the stream then ends with the source's disks, whatever it held before, if and only if the
      state in which stage 3 began was safe and fitting; both are known before stage 3. It is always
      fitting if the disks are whole numbers of chunks, and the destination never gets there if a disk
      that is migrated in full is not. */
  method Migrate(devs: seq<Dev>, ghost base: seq<seq<Sector>>, events: seq<Event>,
                 rateLimit: int, firstBudget: nat, secondBudget: nat,
                 fails: seq<bool>, syncFails: seq<bool>, dirtyFails: seq<bool>)
    returns (result: SaveResult, final: seq<Dev>, stream: seq<Record>)
    requires |devs| == |base| && Ready(Start(devs))
    requires forall i :: 0 <= i < |devs| ==>
               devs[i].cur == 0 && devs[i].completed == 0 && !devs[i].bulkCompleted && devs[i].dirty == {} &&
               DevOk(devs[i], base[i])
    ensures result.Saved? <==>
              var s := Steps(Start(devs), events, |events|);
              s.Some? && CompleteOk(s.value, rateLimit, firstBudget, secondBudget, fails, syncFails, dirtyFails)
    ensures result.Saved? ==>
              var s := Steps(Start(devs), events, |events|).value;
              final == s.mig.devs &&
              (GuestStopped(final) ==>
                 (Converges(final, base, stream) <==>
                    Safe(s, base, rateLimit, firstBudget, secondBudget) && Fitting(s, rateLimit, firstBudget, secondBudget)) &&
                 (SomeFullUneven(devs) ==> !Converges(final, base, stream))) &&
              (Whole(devs) ==> Fitting(s, rateLimit, firstBudget, secondBudget))
  {
    hide Inv, TotalSectors, Converges, DevOk, Steps, CompleteOk, Safe, Fitting, GuestStopped;
    var m := new BlkMigState(devs, base);
    m.Run(events);
    result, final, stream := Failed, [], [];
    if m.fileError {
      return;
    }
    final := m.devs;
    StepsKeepSizes(Start(devs), events, |events|);
    result := m.SaveComplete(rateLimit, firstBudget, secondBudget, fails, syncFails, dirtyFails);
    stream := m.stream;
  }

  ghost predicate SameSizes(a: seq<Dev>, b: seq<Dev>) {
    |a| == |b| && forall i :: 0 <= i < |a| ==> |a[i].disk| == |b[i].disk| && a[i].sharedBase == b[i].sharedBase
  }

  /** Events do not change the sizes of the disks. */
  lemma {:induction false} StepsKeepSizes(s: Src, events: seq<Event>, n: nat)
    requires Ready(s) && n <= |events|
    ensures var t := Steps(s, events, n);
            t.Some? ==> SameSizes(s.mig.devs, t.value.mig.devs)
  {
    hide Step;
    if n > 0 {
      StepsKeepSizes(s, events, n - 1);
      var t := Steps(s, events, n - 1);
      if t.Some? { StepKeepsSizes(t.value, events[n - 1]); }
    }
  }

  lemma StepKeepsSizes(s: Src, e: Event)
    requires Ready(s)
    ensures var t := Step(s, e);
            t.Some? ==> SameSizes(s.mig.devs, t.value.mig.devs)
  {
    hide Pumped, PumpOk, TotalSectors, Ready;
    match e
    case SaveLive(rateLimit, firstBudget, secondBudget, fails) =>
      PumpedSizes(s, rateLimit, firstBudget, secondBudget);
    case _ =>
  }

  /** Both conditions matter: a disk that is one chunk or less is read in stage 2, stage 2 reports that
      it is done, stage 3 reports success, and the destination gets the disk exactly if a flush reached
      the block and the disk fills the chunk. */
  method MigrateOneChunk(disk: seq<Sector>, rateLimit: int, firstBudget: nat, secondBudget: nat)
    returns (result: SaveResult, final: seq<Dev>, stream: seq<Record>)
    requires OneChunk(disk)
    ensures result.Saved? && |final| == 1 && final[0].disk == disk
    ensures Converges(final, [disk], stream) <==> firstBudget + secondBudget > 0 && |disk| == CHUNK
  {
    hide Converges, Steps, CompleteOk, Safe, Fitting, Ready, OneChunkEvents, Inv;
    var devs, events := [OneDisk(disk)], OneChunkEvents(|disk|);
    OneChunkRun(disk, Start(devs), rateLimit, firstBudget, secondBudget);
    result, final, stream := Migrate(devs, [disk], events, rateLimit, firstBudget, secondBudget, [], [], []);
  }

  lemma SameGuestConverges(a: seq<Dev>, b: seq<Dev>, base: seq<seq<Sector>>, stream: seq<Record>)
    requires SameGuest(a, b)
    ensures Converges(a, base, stream) <==> Converges(b, base, stream)
  {
    assert Disks(a) == Disks(b);
    assert forall dests :: Compatible(a, base, dests) <==> Compatible(b, base, dests);
  }

  /** block_load on one section of the stream, which ends with its first Eos. */
  method BlockLoad(disks: seq<seq<Sector>>, stream: seq<Record>, from: nat) returns (r: Loaded, next: nat)
    requires from < |stream| && exists k :: from <= k < |stream| && stream[k].Eos?
    ensures from < next <= |stream| && r == Load(disks, stream[from..next])
    ensures r.Ok? ==> stream[next - 1].Eos? && forall k :: from <= k < next - 1 ==> !stream[k].Eos?
  {
    next, r := from, Ok(disks);
    assert stream[from..from] == [];
    while true
      invariant from <= next < |stream| && r == Load(disks, stream[from..next]) && r.Ok?
      invariant forall k :: from <= k < next ==> !stream[k].Eos?
      decreases |stream| - next
    {
      var record := stream[next];
      assert stream[from..next + 1][..next - from] == stream[from..next];
      r := LoadRecord(r.disks, record);
      next := next + 1;
      if !r.Ok? || record.Eos? {
        return;
      }
    }
  }

  /** Loading section by section is loading the whole stream. */
  lemma {:induction false} LoadSections(disks: seq<seq<Sector>>, a: seq<Record>, b: seq<Record>)
    ensures Load(disks, a + b) == (match Load(disks, a) case Ok(ds) => Load(ds, b) case error => error)
  {
    if b == [] {
      assert a + b == a;
    } else {
      var k := |b| - 1;
      assert (a + b)[..|a| + k] == a + b[..k];
      LoadSections(disks, a, b[..k]);
    }
  }

  datatype SaveResult = Failed | Saved(done: bool)

  lemma RemarksDoNotMatter(devs: seq<Dev>, base: seq<seq<Sector>>, stream: seq<Record>, r: Record)
    requires !r.Block?
    ensures Converges(devs, base, stream + [r]) <==> Converges(devs, base, stream)
  {
    assert (stream + [r])[..|stream|] == stream;
    forall dests ensures Load(dests, stream + [r]) == Load(dests, stream) {
    }
  }

  /** The guest's view of the disks is the same. */
  ghost predicate SameGuest(a: seq<Dev>, b: seq<Dev>) {
    |a| == |b| &&
    forall i :: 0 <= i < |a| ==>
      a[i].disk == b[i].disk && a[i].writes == b[i].writes && a[i].alloc == b[i].alloc && a[i].sharedBase == b[i].sharedBase
  }

  lemma GuestSelf(devs: seq<Dev>)
    ensures SameGuest(devs, devs)
  {
  }

  lemma GuestTrans(a: seq<Dev>, b: seq<Dev>, c: seq<Dev>)
    requires SameGuest(a, b) && SameGuest(b, c)
    ensures SameGuest(a, c)
  {
  }

  lemma ReadyNow(s: Src)
    requires OnDisk(s.mig.devs) && TotalSectors(s.mig.devs) > 0
    ensures Ready(s)
  {
  }

  /** None of the reads made so far failed; `n` counts them as far as failures are foretold. */
  ghost predicate NoneFailed(fails: seq<bool>, n: nat, tries: nat) {
    n == (if tries <= |fails| then tries else |fails|) && forall k :: 0 <= k < n ==> !fails[k]
  }

  /** The next read, if one is tried, fails or not. */
  lemma NextRead(fails: seq<bool>, n: nat, tries: nat, total: nat, tried: bool)
    ensures NoneFailed(fails, n, tries) && tried && n < |fails| && fails[n] && tries < total ==> AnyFails(fails, total)
    ensures NoneFailed(fails, n, tries) && tried && !(n < |fails| && fails[n]) ==>
              NoneFailed(fails, if n < |fails| then n + 1 else n, tries + 1)
    ensures NoneFailed(fails, n, tries) ==> !AnyFails(fails, tries)
  {
  }

  lemma NoMoreReads(fails: seq<bool>, n: nat, tries: nat)
    ensures NoneFailed(fails, n, tries) ==> !AnyFails(fails, tries)
  {
  }

  lemma NoneYet(fails: seq<bool>)
    ensures NoneFailed(fails, 0, 0)
  {
  }

  lemma NoFailsYet(fails: seq<bool>)
    ensures !AnyFails(fails, 0)
  {
  }

  lemma FailsMore(fails: seq<bool>, n: nat, m: nat)
    requires n <= m
    ensures AnyFails(fails, n) ==> AnyFails(fails, m)
  {
  }

  lemma FailsTurn(fails: seq<bool>, n: nat, total: nat)
    requires !AnyFails(fails, n)
    ensures !(n < |fails| && fails[n]) ==> !AnyFails(fails, n + 1)
    ensures n < |fails| && fails[n] && n < total ==> AnyFails(fails, total)
  {
  }

  /** The dirty chunks before `start` lie on the disk as a whole. */
  ghost predicate WholeBelow(d: Dev, start: nat) {
    forall c: nat :: c in d.dirty && c * CHUNK < start ==> c * CHUNK + CHUNK <= |d.disk|
  }

  lemma DirtyTurn(d: Dev, start: nat)
    requires start % CHUNK == 0 && start < d.cur && WholeBelow(d, start)
    ensures DirtyFrom(d, start) == (if start / CHUNK in d.dirty then 1 else 0) + DirtyFrom(d, start + CHUNK)
    ensures start / CHUNK in d.dirty && start + CHUNK > |d.disk| ==> !DirtyWhole(d)
    ensures !(start / CHUNK in d.dirty && start + CHUNK > |d.disk|) ==> WholeBelow(d, start + CHUNK)
  {
    hide DirtyFrom;
    assert DirtyFrom(d, start) == (if start / CHUNK in d.dirty then 1 else 0) + DirtyFrom(d, start + CHUNK) by { DirtyUnfold(d, start); }
    assert start / CHUNK * CHUNK == start;
    if !(start / CHUNK in d.dirty && start + CHUNK > |d.disk|) {
      forall c: nat | c in d.dirty && c * CHUNK < start + CHUNK ensures c * CHUNK + CHUNK <= |d.disk| {
        assert c * CHUNK < start || c == start / CHUNK;
      }
    }
  }

  lemma DirtyUnfold(d: Dev, start: nat)
    requires start < d.cur
    ensures DirtyFrom(d, start) == (if start / CHUNK in d.dirty then 1 else 0) + DirtyFrom(d, start + CHUNK)
  {
  }

  lemma DirtyEnd(d: Dev, start: nat)
    requires start >= d.cur && WholeBelow(d, start)
    ensures DirtyFrom(d, start) == 0 && DirtyWhole(d)
  {
  }

  lemma CountTurn(devs: seq<Dev>, i: nat)
    requires i < |devs|
    ensures DirtyCount(devs, i) == DirtyFrom(devs[i], 0) + DirtyCount(devs, i + 1)
  {
  }

  lemma CountEnd(devs: seq<Dev>)
    ensures DirtyCount(devs, |devs|) == 0
  {
  }

  /** The chunk the scan is at is as dirty as it was. */
  lemma ResendingHere(m: Mig, n: Mig, i: nat, start: nat)
    requires Resending(m, n, i, start) && i < |m.devs| && start % CHUNK == 0
    ensures start / CHUNK in n.devs[i].dirty <==> start / CHUNK in m.devs[i].dirty
  {
    hide Sent, RecordOk;
    assert start / CHUNK * CHUNK == start;
  }

  /** The end of stage 3: the resend and its last two records put nothing past a disk, and the guest
      was stopped. */
  lemma ThreeStages(devs: seq<Dev>, m: Mig, n: Mig, base: seq<seq<Sector>>)
    requires SameGuest(devs, m.devs) && GuestStopped(devs)
    requires Inv(m, base) && (forall i :: 0 <= i < |m.devs| ==> m.devs[i].cur == |m.devs[i].disk|) && Resending(m, n, |m.devs|, 0)
    ensures Converges(devs, base, n.stream + [Progress(100)] + [Eos]) <==> NothingLost(m, base) && AllOnDisk(m.devs, m.stream)
    ensures SomeFullUneven(devs) ==> !Converges(devs, base, n.stream + [Progress(100)] + [Eos])
  {
    hide Inv, Resending, Converges, NothingLost, AllOnDisk;
    ConvergenceExact(m, n, base);
    ResentOnDisk(m, n);
    if i :| 0 <= i < |devs| && !devs[i].sharedBase && |devs[i].disk| % CHUNK != 0 {
      UnalignedNeverConverges(m, n, base, i);
    }
    RemarksDoNotMatter(m.devs, base, n.stream, Progress(100));
    RemarksDoNotMatter(m.devs, base, n.stream + [Progress(100)], Eos);
    SameGuestConverges(devs, m.devs, base, n.stream + [Progress(100)] + [Eos]);
  }

  lemma FirstUnfinished(devs: seq<Dev>, i: nat)
    requires i <= |devs| && (i < |devs| ==> !devs[i].bulkCompleted) && forall j :: 0 <= j < i ==> devs[j].bulkCompleted
    ensures i == Unfinished(devs)
  {
    hide Unfinished;
  }

  lemma SumStart(devs: seq<Dev>)
    ensures CompletedSum(devs, 0) == 0
  {
  }

  lemma SumNext(devs: seq<Dev>, i: nat)
    requires i < |devs|
    ensures CompletedSum(devs, i + 1) == CompletedSum(devs, i) + devs[i].completed
  {
  }

  /** Serving device `i` does not show to the guest, and leaves the other devices alone. */
  lemma ServedGuest(m: Mig, i: nat, isAsync: bool)
    requires OnDisk(m.devs) && i < |m.devs|
    ensures SameGuest(m.devs, Served(m, i, isAsync).devs)
    ensures CompletedSum(Served(m, i, isAsync).devs, i) == CompletedSum(m.devs, i)
    ensures !isAsync ==> Served(m, i, isAsync).inFlight == m.inFlight
    ensures Served(m, i, isAsync).blkList == m.blkList
  {
    hide SkipTo, CompletedSum;
    CompletedSumSame(Served(m, i, isAsync).devs, m.devs, i);
  }

  lemma FailedServe(m: Mig, n: Mig, i: nat)
    requires i < |m.devs| && exists from: nat :: n == m.(devs := m.devs[i := m.devs[i].(completed := from)])
    ensures SameGuest(m.devs, n.devs) && BulkLeft(n.devs) == BulkLeft(m.devs) && |n.devs| == |m.devs|
    ensures CompletedSum(n.devs, i) == CompletedSum(m.devs, i) && n.inFlight == m.inFlight && n.blkList == m.blkList
  {
    hide BulkLeft, CompletedSum;
    var from: nat :| n == m.(devs := m.devs[i := m.devs[i].(completed := from)]);
    BulkLeftUpdate(m.devs, i, m.devs[i].(completed := from));
    CompletedSumSame(n.devs, m.devs, i);
  }

  lemma BulkAtMeans(d: Dev, from: nat)
    requires BulkAt(d, from)
    ensures d.cur <= from < |d.disk|
  {
  }

  lemma InvShapes(m: Mig, base: seq<seq<Sector>>)
    requires Inv(m, base)
    ensures Shapes(m, base)
  {
  }

  lemma ResendingDev(m: Mig, n: Mig, i: nat, start: nat, j: nat)
    requires Resending(m, n, i, start) && j < |m.devs|
    ensures |n.devs| == |m.devs| && n.devs[j] == m.devs[j].(dirty := n.devs[j].dirty)
  {
  }

  lemma InvDevOk(m: Mig, base: seq<seq<Sector>>, i: nat)
    requires Inv(m, base) && i < |m.devs|
    ensures |base| == |m.devs| && DevOk(m.devs[i], base[i])
  {
  }
}
