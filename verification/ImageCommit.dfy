/**
 bdrv_commit: copying what an overlay holds into its backing file and emptying it, without the guest
 seeing a difference at any point.
 */
module ImageCommit {
  import opened Options
  import opened ImageChain
  import opened ImageAllocation

  const COMMIT_BUF_SECTORS := 2048
  const ENOTSUP := 95
  const EBUSY := 16
  const EACCES := 13

  /** Everything the overlay holds below `sector` is in the layer beneath. */
  ghost predicate Copied(top: Layer, below: Layer, sector: nat) {
    forall s :: s in top.data && s < sector ==> s in below.data && below.data[s] == top.data[s]
  }

  /** The layer beneath differs only in sectors the overlay hides. */
  ghost predicate HiddenBy(top: Layer, was: Layer, now: Layer) {
    && was.total == now.total
    && forall s: nat :: s !in top.data ==> (s in was.data <==> s in now.data) && (s in was.data ==> was.data[s] == now.data[s])
  }

  lemma HiddenChangeKeepsView(top: Layer, was: Layer, now: Layer, deep: seq<Layer>)
    requires HiddenBy(top, was, now)
    ensures SameView([top] + ([was] + deep), [top] + ([now] + deep))
  {
    forall s: nat ensures View([top] + ([was] + deep), s) == View([top] + ([now] + deep), s) {
      OnTop(top, [was] + deep, s);
      OnTop(top, [now] + deep, s);
      OnTop(was, deep, s);
      OnTop(now, deep, s);
    }
  }

  lemma OnTop(l: Layer, ls: seq<Layer>, s: nat)
    ensures View([l] + ls, s) == if s in l.data then l.data[s] else if s < l.total then View(ls, s) else 0
  {
    assert ([l] + ls)[1..] == ls;
  }

  /** Once everything is copied, dropping any sectors from the overlay keeps the view. */
  lemma DroppingCopied(top: Layer, top': Layer, below: Layer, deep: seq<Layer>)
    requires LayerOk(top) && Copied(top, below, top.total) && top'.total == top.total
    requires forall s :: s in top'.data ==> s in top.data && top'.data[s] == top.data[s]
    ensures SameView([top'] + ([below] + deep), [top] + ([below] + deep))
  {
    forall s: nat ensures View([top'] + ([below] + deep), s) == View([top] + ([below] + deep), s) {
      OnTop(top, [below] + deep, s);
      OnTop(top', [below] + deep, s);
      OnTop(below, deep, s);
    }
  }

  /** Once everything is copied the layers beneath show what the overlay showed. */
  lemma CopiedShowsAlone(top: Layer, below: Layer, deep: seq<Layer>)
    requires LayerOk(top) && Copied(top, below, top.total)
    ensures ShowsUpTo(top.total, [top] + ([below] + deep), [below] + deep)
  {
    forall s: nat | s < top.total ensures View([top] + ([below] + deep), s) == View([below] + deep, s) {
      OnTop(top, [below] + deep, s);
      OnTop(below, deep, s);
    }
  }

  ghost predicate ShowsUpTo(total: nat, a: seq<Layer>, b: seq<Layer>) {
    forall s: nat :: s < total ==> View(a, s) == View(b, s)
  }

  /** Emptying an overlay keeps the view exactly when what it holds is what is beneath. */
  lemma EmptyingKeepsView(top: Layer, ls: seq<Layer>)
    requires LayerOk(top)
    ensures SameView([top.(data := map[])] + ls, [top] + ls) <==> forall s :: s in top.data ==> View(ls, s) == top.data[s]
  {
    hide View;
    var e := top.(data := map[]);
    forall s: nat
      ensures View([e] + ls, s) == View([top] + ls, s) <==> (s in top.data ==> View(ls, s) == top.data[s])
    {
      OnTop(e, ls, s);
      OnTop(top, ls, s);
    }
    if SameView([e] + ls, [top] + ls) {
      forall s | s in top.data ensures View(ls, s) == top.data[s] { assert View([e] + ls, s) == View([top] + ls, s); }
    } else {
      var s: nat :| View([e] + ls, s) != View([top] + ls, s);
      assert !(s in top.data ==> View(ls, s) == top.data[s]);
    }
  }

  ghost predicate ImagesOk(c: seq<BlockDriverState>)
    reads c`layer, c`drv
  {
    forall i :: 0 <= i < |c| ==> ImageOk(c[i])
  }

  predicate Within(s: nat, sector: nat, n: nat) {
    sector <= s < sector + n
  }

  /** The data of a layer after `buf` went to [sector, sector + |buf|). */
  function Put(data: map<nat, int>, sector: nat, buf: seq<int>): (r: map<nat, int>)
    ensures forall s :: s in r <==> s in data || Within(s, sector, |buf|)
    ensures forall s :: s in r ==> r[s] == if Within(s, sector, |buf|) then buf[s - sector] else data[s]
  {
    data + map s: nat | s < sector + |buf| && Within(s, sector, |buf|) :: buf[s - sector]
  }

  /** What a failing write may leave: any contents in the sectors it was for. */
  predicate TornAt(was: Layer, now: Layer, sector: nat, n: nat) {
    && was.total == now.total && (forall s :: s in now.data ==> s < now.total)
    && (forall s :: s in was.data ==> s in now.data && (Within(s, sector, n) || now.data[s] == was.data[s]))
    && (forall s :: s in now.data && !Within(s, sector, n) ==> s in was.data)
  }

  lemma TornFacts(was: Layer, now: Layer, sector: nat, n: nat)
    requires TornAt(was, now, sector, n)
    ensures was.total == now.total && LayerOk(now) && forall s :: s in was.data ==> s in now.data
  {
  }

  /** One sector, read through the backing files. */
  method ReadSector(bs: BlockDriverState?, s: nat, ghost c: seq<BlockDriverState>, ghost i: nat) returns (v: int)
    requires Linked(c) && i <= |c| && bs == if i < |c| then c[i] else null
    ensures v == View(Layers(c)[i..], s)
    decreases |c| - i
  {
    hide Linked, Layers;
    if bs == null { return 0; }
    if s in bs.layer.data { return bs.layer.data[s]; }
    if s >= bs.layer.total { return 0; }
    LinkedAt(c, i);
    assert Layers(c)[i..][1..] == Layers(c)[i + 1..];
    v := ReadSector(bs.backing, s, c, i + 1);
  }

  /** bdrv_read: the sectors as they are visible, or an error. */
  method Read(bs: BlockDriverState, sector: nat, n: nat, ghost c: seq<BlockDriverState>) returns (ret: int, buf: seq<int>)
    requires Linked(c) && c[0] == bs
    ensures ret <= 0 && (!bs.faulty ==> ret == 0)
    ensures ret == 0 ==> |buf| == n && forall k :: 0 <= k < n ==> buf[k] == View(Layers(c), sector + k)
  {
    NotFirstAgain(c);
    hide Linked, Layers, View;
    ret, buf := 0, [];
    assert Layers(c)[0..] == Layers(c);
    for k := 0 to n
      invariant |buf| == k && forall j :: 0 <= j < k ==> buf[j] == View(Layers(c), sector + j)
    {
      var fails: bool := *;
      if bs.faulty && fails { return -EIO, buf; }
      var v := ReadSector(bs, sector + k, c, 0);
      buf := buf + [v];
    }
  }

  /** bdrv_write. It fails without a medium, on a read-only image and past the end; when the driver
      fails, any of the sectors may hold anything. */
  method Write(bs: BlockDriverState, sector: nat, buf: seq<int>) returns (ret: int)
    requires ImageOk(bs)
    modifies bs`layer
    ensures ret <= 0 && ImageOk(bs) && bs.layer.total == old(bs.layer.total)
    ensures ret == 0 ==> bs.layer.data == Put(old(bs.layer.data), sector, buf)
    ensures ret != 0 ==> TornAt(old(bs.layer), bs.layer, sector, |buf|)
    ensures bs.drv.Some? && !bs.faulty && !bs.readOnly && sector + |buf| <= bs.layer.total ==> ret == 0
  {
    if bs.drv.None? { return -ENOMEDIUM; }
    if bs.readOnly { return -EACCES; }
    var asked: int := *;
    if !bs.faulty { asked := 0; }
    var len := GetLength(bs, asked);
    if sector > len || len - sector < |buf| { return -EIO; }
    var fails: bool := *;
    if bs.faulty && fails {
      assert TornAt(bs.layer, bs.layer, sector, |buf|);
      var torn: Layer :| TornAt(bs.layer, torn, sector, |buf|);
      TornFacts(bs.layer, torn, sector, |buf|);
      bs.layer := torn;
      return -EIO;
    }
    bs.layer := bs.layer.(data := Put(bs.layer.data, sector, buf));
    return 0;
  }

  /** The state of the chain during a commit: only the image beneath the overlay has changed, in
      sectors the overlay hides, and everything below `sector` is copied. */
  ghost predicate Committing(c: seq<BlockDriverState>, ls: seq<Layer>, sector: nat)
    reads c`layer, c`drv
  {
    && |c| == |ls| >= 2 && ImagesOk(c)
    && HiddenBy(ls[0], ls[1], c[1].layer) && Copied(ls[0], c[1].layer, sector)
    && (forall i :: 0 <= i < |c| && i != 1 ==> c[i].layer == ls[i])
  }

  /** Hence the guest has not seen a difference. */
  lemma CommittingKeepsView(c: seq<BlockDriverState>, ls: seq<Layer>, sector: nat)
    requires Committing(c, ls, sector)
    ensures SameView(Layers(c), ls)
  {
    hide SameView, HiddenBy, ImagesOk, Copied;
    var deep := ls[2..];
    assert ls == [ls[0]] + ([ls[1]] + deep);
    assert Layers(c) == [ls[0]] + ([c[1].layer] + deep);
    HiddenChangeKeepsView(ls[0], ls[1], c[1].layer, deep);
    SameViewBack([ls[0]] + ([ls[1]] + deep), [ls[0]] + ([c[1].layer] + deep));
  }

  lemma SameViewBack(a: seq<Layer>, b: seq<Layer>)
    requires SameView(a, b)
    ensures SameView(b, a)
  {
  }

  /** Nothing stands in the way: neither driver fails, the backing file is writable and long enough
      for what the overlay holds. */
  ghost predicate Smooth(bs: BlockDriverState, backing: BlockDriverState)
    reads bs, backing
  {
    && bs.drv.Some? && backing.drv.Some? && !bs.faulty && !backing.faulty && !backing.readOnly
    && forall s :: s in bs.layer.data ==> s < backing.layer.total
  }

  /** One run of the loop of bdrv_commit: what the overlay holds goes to the backing file. */
  method CommitRun(bs: BlockDriverState, backing: BlockDriverState, sector: nat, ghost c: seq<BlockDriverState>, ghost ls: seq<Layer>)
    returns (ret: int, n: nat)
    requires Linked(c) && |c| >= 2 && c[0] == bs && c[1] == backing && Committing(c, ls, sector) && sector < bs.layer.total
    modifies backing`layer
    ensures ret >= 0 ==> 0 < n && sector + n <= bs.layer.total && Committing(c, ls, sector + n)
    ensures ret <= 1 && Committing(c, ls, 0)
    ensures old(Smooth(bs, backing)) ==> ret >= 0 && Smooth(bs, backing)
  {
    hide Linked, Layers, View, Put, TornAt, AllHeld, NoneHeld, HiddenBy, Copied;
    LinkedFacts(c);
    ghost var top, was := bs.layer, backing.layer;
    CopiedLess(top, was, sector);
    ret, n := IsAllocated(bs, sector, COMMIT_BUF_SECTORS);
    if ret < 0 { return; }
    if ret == 1 {
      var err, buf := Read(bs, sector, n, c);
      if err != 0 { return -EIO, n; }
      HeldShows(c, sector, buf);
      HeldFits(top, was.total, sector, n);
      err := Write(backing, sector, buf);
      if err != 0 {
        TornStep(top, ls[1], was, backing.layer, sector, n);
        return -EIO, n;
      }
      CopyStep(top, ls[1], was, backing.layer, sector, buf);
    } else {
      SkipStep(top, was, sector, n);
    }
    CopiedLess(top, backing.layer, sector + n);
  }

  /** The top layer shows what it holds. */
  lemma HeldShows(c: seq<BlockDriverState>, sector: nat, buf: seq<int>)
    requires |c| > 0 && AllHeld(c[0].layer, sector, |buf|)
    requires forall k :: 0 <= k < |buf| ==> buf[k] == View(Layers(c), sector + k)
    ensures forall k :: 0 <= k < |buf| ==> buf[k] == c[0].layer.data[sector + k]
  {
    hide Layers;
    forall k | 0 <= k < |buf| ensures buf[k] == c[0].layer.data[sector + k] {
      assert sector + k in c[0].layer.data;
    }
  }

  lemma HeldFits(top: Layer, total: nat, sector: nat, n: nat)
    requires 0 < n && AllHeld(top, sector, n)
    ensures (forall s :: s in top.data ==> s < total) ==> sector + n <= total
  {
    assert sector + n - 1 in top.data;
  }

  lemma CopiedLess(top: Layer, below: Layer, sector: nat)
    requires Copied(top, below, sector)
    ensures Copied(top, below, 0)
  {
  }

  /** Copying a run the overlay holds. */
  lemma CopyStep(top: Layer, was: Layer, below: Layer, below': Layer, sector: nat, buf: seq<int>)
    requires HiddenBy(top, was, below) && Copied(top, below, sector)
    requires AllHeld(top, sector, |buf|) && forall k :: 0 <= k < |buf| ==> buf[k] == top.data[sector + k]
    requires below'.total == below.total && below'.data == Put(below.data, sector, buf)
    ensures HiddenBy(top, was, below') && Copied(top, below', sector + |buf|)
  {
    forall s | s in top.data && s < sector + |buf| ensures s in below'.data && below'.data[s] == top.data[s] {
      if sector <= s { assert buf[s - sector] == top.data[sector + (s - sector)]; }
    }
  }

  /** A write that failed hit only sectors the overlay holds. */
  lemma TornStep(top: Layer, was: Layer, below: Layer, below': Layer, sector: nat, n: nat)
    requires HiddenBy(top, was, below) && AllHeld(top, sector, n) && TornAt(below, below', sector, n)
    ensures HiddenBy(top, was, below') && Copied(top, below', 0)
  {
  }

  lemma SkipStep(top: Layer, below: Layer, sector: nat, n: nat)
    requires Copied(top, below, sector) && NoneHeld(top, sector, n)
    ensures Copied(top, below, sector + n)
  {
  }

  /** The loop of bdrv_commit. A negative total, from a length that could not be had, ends it at
      once. */
  method CommitLoop(bs: BlockDriverState, backing: BlockDriverState, total: int, ghost c: seq<BlockDriverState>, ghost ls: seq<Layer>)
    returns (ret: int)
    requires Linked(c) && |c| >= 2 && c[0] == bs && c[1] == backing && Committing(c, ls, 0) && (total < 0 || total == bs.layer.total)
    modifies backing`layer
    ensures ret <= 1 && Committing(c, ls, 0)
    ensures ret >= 0 ==> Committing(c, ls, if total < 0 then 0 else total)
    ensures total < 0 ==> ret == 0 && unchanged(backing)
    ensures old(Smooth(bs, backing)) ==> ret >= 0
  {
    hide Linked, Committing, Copied;
    ret := 0;
    var sector := 0;
    LinkedFacts(c);
    CommittingLayers(c, ls, 0);
    while sector < total
      invariant 0 <= sector <= if total < 0 then 0 else total
      invariant total < 0 ==> ret == 0 && unchanged(backing)
      invariant old(Smooth(bs, backing)) ==> Smooth(bs, backing)
      invariant 0 <= ret <= 1 && Committing(c, ls, sector) && Committing(c, ls, 0) && ls[0] == bs.layer
      decreases total - sector
    {
      var n;
      ret, n := CommitRun(bs, backing, sector, c, ls);
      if ret < 0 { return; }
      sector := sector + n;
    }
  }

  /** What bdrv_make_empty leaves: nothing, or after a failure any part. */
  function Emptied(l: Layer, ret: int, kept: set<nat>): (r: Layer)
    ensures r.total == l.total && (ret >= 0 ==> r.data == map[])
    ensures forall s :: s in r.data ==> s in l.data && r.data[s] == l.data[s]
  {
    l.(data := map s | s in l.data && s in kept && ret < 0 :: l.data[s])
  }

  /** What holds of every driver under block/: those that ask the device for their length (raw.c:138,
      raw-posix.c:1182, raw-posix.c:1282, raw-posix.c:1405, raw-win32.c:418) cannot be emptied, and those
      that can be emptied (qcow.c:1010, qcow2.c:1603, vdi.c:986) know their length. */
  predicate OfTheTree(drv: Option<Driver>) {
    drv.Some? ==> !(drv.value.variableLength && drv.value.makesEmpty)
  }

  /** What the driver interface leaves open and no driver of the tree does: the length of the overlay
      cannot be had, and it is emptied all the same. */
  predicate EmptiesUncopied(drv: Option<Driver>, asked: int) {
    drv.Some? && drv.value.variableLength && asked < 0 && drv.value.makesEmpty
  }

  /** Why a commit is refused before it starts; 0 when it is not. */
  ghost function Refusal(bs: BlockDriverState, reopens: bool): int
    reads bs, bs.backing
  {
    if bs.drv.None? then -ENOMEDIUM
    else if bs.backing == null then -ENOTSUP
    else if bs.attached.inUse > 0 || bs.backing.attached.inUse > 0 then -EBUSY
    else if bs.backing.readOnly && !reopens then -EACCES
    else 0
  }

  /** Neither driver fails and what the overlay holds fits on the backing file. */
  ghost predicate Willing(bs: BlockDriverState)
    reads bs, bs.backing
  {
    && bs.drv.Some? && bs.backing != null && bs.backing.drv.Some? && !bs.faulty && !bs.backing.faulty
    && forall s :: s in bs.layer.data ==> s < bs.backing.layer.total
  }

  /** bdrv_commit. `asked` is the answer if the length has to be asked for; emptying the overlay
      returns `emptied` and leaves `kept` of it if that is an error.
      With the drivers of the tree the guest sees no difference whatever fails on the way, and an
      overlay that was emptied after success is shown alone by the images beneath. The other clauses
      are about any driver the interface allows: a length that cannot be had skips the copying, not
      the emptying. */
  method Commit(bs: BlockDriverState, reopens: bool, asked: int, emptied: int, kept: set<nat>, ghost c: seq<BlockDriverState>)
    returns (ret: int)
    requires Linked(c) && c[0] == bs && ImagesOk(c)
    modifies c
    ensures old(Refusal(bs, reopens)) != 0 ==> ret == old(Refusal(bs, reopens)) && forall i :: 0 <= i < |c| ==> unchanged(c[i])
    ensures Linked(c) && (old(Refusal(bs, reopens)) == 0 ==> |c| > 1)
    ensures OfTheTree(old(bs.drv)) ==> SameView(Layers(c), old(Layers(c)))
    ensures ret >= 0 && OfTheTree(old(bs.drv)) && old(bs.drv.value.makesEmpty) ==>
              bs.layer == old(bs.layer).(data := map[]) && ShowsUpTo(old(bs.layer.total), old(Layers(c)), Layers(c)[1..])
    ensures !EmptiesUncopied(old(bs.drv), asked) ==> SameView(Layers(c), old(Layers(c)))
    ensures old(Refusal(bs, reopens)) == 0 && EmptiesUncopied(old(bs.drv), asked) ==>
              ret == emptied && Layers(c) == [Emptied(old(bs.layer), emptied, kept)] + old(Layers(c))[1..]
    ensures ret >= 0 && (old(bs.drv.value.variableLength) ==> asked >= 0) ==>
              ShowsUpTo(old(bs.layer.total), old(Layers(c)), Layers(c)[1..])
    ensures ret >= 0 && old(bs.drv.value.makesEmpty) ==> ret == emptied && bs.layer == old(bs.layer).(data := map[])
    ensures old(Refusal(bs, reopens)) == 0 && old(Willing(bs)) ==> if old(bs.drv.value.makesEmpty) then ret == emptied else ret >= 0
  {
    hide Linked, Layers, View, SameView, ShowsUpTo;
    LinkedFacts(c);
    LinkedAt(c, 0);
    ghost var ls := Layers(c);
    assert SameView(ls, ls) by { SameViewSelf(ls); }
    if bs.drv.None? { return -ENOMEDIUM; }
    if bs.backing == null { return -ENOTSUP; }
    var backing := bs.backing;
    if bs.attached.inUse > 0 || backing.attached.inUse > 0 { return -EBUSY; }
    var ro := backing.readOnly;
    if ro {
      if !reopens { return -EACCES; }
      backing.readOnly := false;
    }
    ret := CopyAndEmpty(bs, backing, asked, emptied, kept, c, ls);
    if ro {
      var again: bool := *;
      backing.readOnly := again;
    }
  }

  lemma SameViewSelf(ls: seq<Layer>)
    ensures SameView(ls, ls)
  {
  }

  /** bdrv_commit once the backing file can be written. */
  method CopyAndEmpty(bs: BlockDriverState, backing: BlockDriverState, asked: int, emptied: int, kept: set<nat>,
                      ghost c: seq<BlockDriverState>, ghost ls: seq<Layer>)
    returns (ret: int)
    requires Linked(c) && |c| >= 2 && c[0] == bs && c[1] == backing && ImagesOk(c) && ls == Layers(c) && bs.drv.Some?
    modifies bs`layer, backing`layer
    ensures !EmptiesUncopied(bs.drv, asked) ==> SameView(Layers(c), ls)
    ensures EmptiesUncopied(bs.drv, asked) ==> ret == emptied && Layers(c) == [Emptied(ls[0], emptied, kept)] + ls[1..]
    ensures ret >= 0 && (bs.drv.value.variableLength ==> asked >= 0) ==> ShowsUpTo(ls[0].total, ls, Layers(c)[1..])
    ensures ret >= 0 && bs.drv.value.makesEmpty ==> ret == emptied && bs.layer == ls[0].(data := map[])
    ensures old(Smooth(bs, backing)) ==> if bs.drv.value.makesEmpty then ret == emptied else ret >= 0
  {
    hide Linked, Layers, View, SameView, ShowsUpTo, Committing, Copied, HiddenBy, ImagesOk;
    LinkedFacts(c);
    CommittingStart(c, ls);
    var total := GetLength(bs, asked);
    ret := CommitLoop(bs, backing, total, c, ls);
    CommittingKeepsView(c, ls, 0);
    CommittingLayers(c, ls, if ret >= 0 && total >= 0 then total else 0);
    if ret < 0 { return; }
    if bs.drv.value.makesEmpty {
      bs.layer := Emptied(bs.layer, emptied, kept);
      ret := emptied;
    }
    LayersAre(c, ls);
    if total >= 0 { CommitEnd(ls[0], bs.layer, ls[1], backing.layer, ls[2..]); }
  }

  lemma CommittingStart(c: seq<BlockDriverState>, ls: seq<Layer>)
    requires ImagesOk(c) && |c| >= 2 && ls == Layers(c)
    ensures Committing(c, ls, 0)
  {
  }

  lemma LayersAre(c: seq<BlockDriverState>, ls: seq<Layer>)
    requires |c| == |ls| >= 2 && forall i :: 2 <= i < |c| ==> c[i].layer == ls[i]
    ensures Layers(c) == [c[0].layer] + ([c[1].layer] + ls[2..]) && ls == [ls[0]] + ([ls[1]] + ls[2..])
    ensures Layers(c)[1..] == [c[1].layer] + ls[2..]
  {
    hide Layers;
    var now := Layers(c);
    assert now[2..] == ls[2..];
    ThreeParts(now, c[0].layer, c[1].layer, ls[2..]);
    ThreeParts(ls, ls[0], ls[1], ls[2..]);
  }

  lemma ThreeParts(ls: seq<Layer>, a: Layer, b: Layer, deep: seq<Layer>)
    requires |ls| >= 2 && ls[0] == a && ls[1] == b && ls[2..] == deep
    ensures ls == [a] + ([b] + deep) && ls[1..] == [b] + deep
  {
  }

  lemma CommittingLayers(c: seq<BlockDriverState>, ls: seq<Layer>, sector: nat)
    requires Committing(c, ls, sector)
    ensures |c| == |ls| >= 2 && LayerOk(ls[0]) && forall i :: 0 <= i < |c| && i != 1 ==> c[i].layer == ls[i]
    ensures HiddenBy(ls[0], ls[1], c[1].layer) && Copied(ls[0], c[1].layer, sector)
  {
  }

  /** The whole of a commit on the layers: everything copied, then any part of the overlay dropped. */
  lemma CommitEnd(top: Layer, top': Layer, was: Layer, below: Layer, deep: seq<Layer>)
    requires LayerOk(top) && HiddenBy(top, was, below) && Copied(top, below, top.total)
    requires top'.total == top.total && forall s :: s in top'.data ==> s in top.data && top'.data[s] == top.data[s]
    ensures SameView([top'] + ([below] + deep), [top] + ([was] + deep))
    ensures ShowsUpTo(top.total, [top] + ([was] + deep), [below] + deep)
  {
    hide View, HiddenBy, Copied;
    HiddenChangeKeepsView(top, was, below, deep);
    DroppingCopied(top, top', below, deep);
    CopiedShowsAlone(top, below, deep);
  }

  /** Why it matters that no driver of the tree has both flags: bdrv_commit itself would empty an overlay
      whose length cannot be had without copying it, and report success. */
  method CommitCanLose(bs: BlockDriverState, backing: BlockDriverState) returns (ret: int, before: int, after: int)
    requires OneSectorOverlay(bs, backing)
    modifies bs, backing
    ensures ret == 0 && before == 7 && after == 0
  {
    hide *;
    ghost var c := [bs, backing];
    TwoImages(bs, backing);
    before := ReadSector(bs, 0, c, 0);
    ret := Commit(bs, true, -EIO, 0, {}, c);
    after := ReadSector(bs, 0, c, 0);
  }

  /** Such an overlay: it alone holds its one sector. */
  ghost predicate OneSectorOverlay(bs: BlockDriverState, backing: BlockDriverState)
    reads bs, backing
  {
    && bs != backing && bs.backing == backing && backing.backing == null && !backing.readOnly
    && bs.layer == Layer(1, map[0 := 7]) && backing.layer == Layer(1, map[])
    && bs.drv == Some(Driver(true, true, true)) && backing.drv == Some(Driver(true, false, false))
    && bs.attached.inUse == 0 == backing.attached.inUse
  }

  lemma TwoImages(bs: BlockDriverState, backing: BlockDriverState)
    requires OneSectorOverlay(bs, backing)
    ensures var ls := Layers([bs, backing]);
            Linked([bs, backing]) && ImagesOk([bs, backing]) && bs.backing == backing && bs.drv.Some? &&
            EmptiesUncopied(bs.drv, -EIO) && Refusal(bs, true) == 0 && View(ls[0..], 0) == 7 &&
            forall now :: now == [Emptied(bs.layer, 0, {})] + ls[1..] ==> View(now[0..], 0) == 0
  {
    hide Layers, View;
    var ls, e := Layers([bs, backing]), Emptied(bs.layer, 0, {});
    assert ls == [bs.layer, backing.layer] == ls[0..];
    TwoViews(bs.layer, backing.layer, e);
    assert [e] + ls[1..] == [e, backing.layer] == ([e] + ls[1..])[0..];
  }

  lemma TwoViews(top: Layer, bottom: Layer, empty: Layer)
    requires top == Layer(1, map[0 := 7]) && bottom == Layer(1, map[]) && empty == Layer(1, map[])
    ensures View([top, bottom], 0) == 7 && View([empty, bottom], 0) == 0
  {
    assert View([bottom], 0) == View([], 0);
  }
}
