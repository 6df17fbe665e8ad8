/**
 Which sectors an image holds: bdrv_co_get_block_status and bdrv_is_allocated on one image,
 bdrv_is_allocated_above on a stretch of a chain.
 */
module ImageAllocation {
  import opened Options
  import opened ImageChain

  const ENOMEDIUM := 123

  /** All of [sector, sector + n) is held by the layer, or none of it. */
  predicate AllHeld(l: Layer, sector: nat, n: nat) {
    forall s :: sector <= s < sector + n ==> s in l.data
  }

  predicate NoneHeld(l: Layer, sector: nat, n: nat) {
    forall s :: sector <= s < sector + n ==> s !in l.data
  }

  /** The image holds no sector past its end; a driver that cannot report allocation has no backing
      file and holds every sector. */
  ghost predicate ImageOk(bs: BlockDriverState)
    reads bs`layer, bs`drv
  {
    && LayerOk(bs.layer)
    && (bs.drv.Some? && !bs.drv.value.reportsStatus ==> AllHeld(bs.layer, 0, bs.layer.total))
  }

  /** What the format driver answers: an error, or a run above zero all in one state. */
  datatype Status = Fails(error: int) | Run(held: bool, length: nat)

  ghost predicate Truthful(st: Status, l: Layer, sector: nat, nb: nat) {
    match st
    case Fails(e) => e < 0
    case Run(held, n) => 0 < n <= nb && if held then AllHeld(l, sector, n) else NoneHeld(l, sector, n)
  }

  /** bdrv_co_get_block_status of the driver, with any truthful answer. */
  method DriverStatus(bs: BlockDriverState, sector: nat, nb: nat) returns (st: Status)
    requires 0 < nb
    ensures Truthful(st, bs.layer, sector, nb) && (!bs.faulty ==> st.Run?)
  {
    var fails: bool := *;
    if bs.faulty && fails {
      var e: int :| e < 0;
      return Fails(e);
    }
    var held := sector in bs.layer.data;
    assert 0 < 1 <= nb && (held ==> AllHeld(bs.layer, sector, 1)) && (!held ==> NoneHeld(bs.layer, sector, 1));
    var n: nat :| 0 < n <= nb && (held ==> AllHeld(bs.layer, sector, n)) && (!held ==> NoneHeld(bs.layer, sector, n));
    return Run(held, n);
  }

  /** bdrv_getlength in sectors, or a negative error; only a length that has to be asked for can
      fail. */
  method GetLength(bs: BlockDriverState, asked: int) returns (len: int)
    ensures len == if bs.drv.None? then -ENOMEDIUM
                   else if bs.drv.value.variableLength && asked < 0 then asked
                   else bs.layer.total
  {
    if bs.drv.None? { return -ENOMEDIUM; }
    if bs.drv.value.variableLength && asked < 0 { return asked; }
    return bs.layer.total;
  }

  /** bdrv_is_allocated. Past the end of the image the answer is 0 with a run of 0. */
  method IsAllocated(bs: BlockDriverState, sector: nat, nb: nat) returns (ret: int, pnum: nat)
    requires ImageOk(bs) && 0 < nb
    ensures ret <= 1 && pnum <= nb
    ensures ret == 1 ==> 0 < pnum && AllHeld(bs.layer, sector, pnum)
    ensures ret == 0 ==> NoneHeld(bs.layer, sector, pnum) && (pnum == 0 <==> sector >= bs.layer.total)
    ensures ret == 0 ==> sector !in bs.layer.data
    ensures ret >= 0 && pnum > 0 ==> sector + pnum <= bs.layer.total
    ensures bs.drv.Some? && !bs.faulty ==> ret >= 0
  {
    var asked: int := *;
    if !bs.faulty { asked := 0; }
    var length := GetLength(bs, asked);
    if length < 0 { return length, 0; }
    if sector >= length { return 0, 0; }
    var n := bs.layer.total - sector;
    var count := if n < nb then n else nb;
    if !bs.drv.value.reportsStatus { return 1, count; }
    var st := DriverStatus(bs, sector, count);
    match st
    case Fails(e) => return e, 0;
    case Run(held, k) => return (if held then 1 else 0), k;
  }

  /** No layer of the stretch holds a sector of the range. */
  ghost predicate NoneAbove(ls: seq<Layer>, sector: nat, n: nat) {
    forall i :: 0 <= i < |ls| ==> NoneHeld(ls[i], sector, n)
  }

  /** The answer 1 names a run held by one layer, whose first sector nothing above it holds. */
  ghost predicate HeldAbove(ls: seq<Layer>, sector: nat, n: nat) {
    exists i :: 0 <= i < |ls| && AllHeld(ls[i], sector, n) && NoneAbove(ls[..i], sector, 1)
  }

  /** The number of layers of the chain that are above base. */
  ghost function Above(c: seq<BlockDriverState>, base: BlockDriverState?): (k: nat)
    ensures k <= |c|
  {
    IndexOf(c, base)
  }

  lemma NoneHeldLess(l: Layer, sector: nat, n: nat, m: nat)
    requires NoneHeld(l, sector, n) && m <= n
    ensures NoneHeld(l, sector, m)
  {
  }

  lemma NoneAboveNext(ls: seq<Layer>, i: nat, sector: nat, n: nat, m: nat)
    requires i < |ls| && NoneAbove(ls[..i], sector, n) && NoneHeld(ls[i], sector, m) && m <= n
    ensures NoneAbove(ls[..i + 1], sector, m)
  {
    var up := ls[..i + 1];
    forall k | 0 <= k < |up| ensures NoneHeld(up[k], sector, m) {
      if k < i {
        assert up[k] == ls[..i][k];
        NoneHeldLess(ls[k], sector, n, m);
      }
    }
  }

  /** A layer that ends before the range does holds nothing of the rest either. */
  lemma NothingPastEnd(l: Layer, sector: nat, m: nat, n: nat)
    requires LayerOk(l) && NoneHeld(l, sector, m) && sector + m >= l.total
    ensures NoneHeld(l, sector, n)
  {
  }

  /** bdrv_is_allocated_above agrees with a scan of the chain sector by sector, also when some layers
      are shorter than the range: the answer is 1 exactly when some layer above base holds the
      first sector; the run is then held by one of them, and otherwise by none. The run is empty
      only past the end of the top layer. */
  method IsAllocatedAbove(top: BlockDriverState, base: BlockDriverState?, sector: nat, nb: nat, ghost c: seq<BlockDriverState>)
    returns (ret: int, pnum: nat)
    requires Linked(c) && c[0] == top && 0 < nb && forall i :: 0 <= i < |c| ==> ImageOk(c[i])
    ensures ret <= 1 && pnum <= nb
    ensures ret == 1 ==> 0 < pnum && HeldAbove(Layers(c)[..Above(c, base)], sector, pnum)
    ensures ret == 0 ==> NoneAbove(Layers(c)[..Above(c, base)], sector, pnum) && NoneAbove(Layers(c)[..Above(c, base)], sector, 1)
    ensures ret == 0 && base != top ==> (pnum == 0 <==> sector >= top.layer.total)
    ensures (forall i :: 0 <= i < |c| ==> c[i].drv.Some? && !c[i].faulty) ==> ret >= 0
  {
    hide Linked, IndexOf, Layers, NoneHeld, AllHeld, NoneAbove, HeldAbove, LayerOk;
    var n: nat := nb;
    NotFirstAgain(c);
    var intermediate: BlockDriverState? := top;
    ghost var i, k, ls := 0, Above(c, base), Layers(c);
    NoneAboveEmpty(ls[..0], sector, n);
    NoneAboveEmpty(ls[..0], sector, 1);
    while intermediate != null && intermediate != base
      invariant i <= k && intermediate == (if i < |c| then c[i] else null)
      invariant n <= nb && NoneAbove(ls[..i], sector, n) && NoneAbove(ls[..i], sector, 1)
      invariant if i == 0 then n == nb else (n == 0 <==> sector >= top.layer.total)
      decreases |c| - i
    {
      var r, m := IsAllocated(intermediate, sector, nb);
      if r < 0 { return r, 0; }
      if r == 1 {
        assert ls[..k][..i] == ls[..i];
        HeldHere(ls[..k], i, sector, m);
        return 1, m;
      }
      ghost var was := n;
      if n > m && (intermediate == top || sector + m < intermediate.layer.total) {
        n := m;
      }
      NothingLost(ls, i, sector, was, m, n);
      LinkedAt(c, i);
      intermediate := intermediate.backing;
      i := i + 1;
    }
    return 0, n;
  }

  /** One step of the walk: the run shrinks to what this layer answered, unless the layer ends
      there. */
  lemma NothingLost(ls: seq<Layer>, i: nat, sector: nat, n: nat, m: nat, n': nat)
    requires i < |ls| && LayerOk(ls[i]) && NoneHeld(ls[i], sector, m) && sector !in ls[i].data
    requires NoneAbove(ls[..i], sector, n) && NoneAbove(ls[..i], sector, 1)
    requires n' == m <= n || (n' == n && (n <= m || sector + m >= ls[i].total))
    ensures NoneAbove(ls[..i + 1], sector, n') && NoneAbove(ls[..i + 1], sector, 1)
  {
    hide NoneHeld, NoneAbove, LayerOk;
    if n' > m { NothingPastEnd(ls[i], sector, m, n'); } else { NoneHeldLess(ls[i], sector, m, n'); }
    NoneAboveNext(ls, i, sector, n, n');
    NotHeld(ls[i], sector);
    NoneAboveNext(ls, i, sector, 1, 1);
  }

  lemma NotFirstAgain(c: seq<BlockDriverState>)
    requires Linked(c)
    ensures |c| > 0 && forall i :: 0 < i < |c| ==> c[i] != c[0]
  {
  }

  lemma NoneAboveEmpty(ls: seq<Layer>, sector: nat, n: nat)
    requires ls == []
    ensures NoneAbove(ls, sector, n)
  {
  }

  lemma NotHeld(l: Layer, sector: nat)
    requires sector !in l.data
    ensures NoneHeld(l, sector, 1)
  {
  }

  lemma HeldHere(ls: seq<Layer>, i: nat, sector: nat, m: nat)
    requires i < |ls| && AllHeld(ls[i], sector, m) && NoneAbove(ls[..i], sector, 1)
    ensures HeldAbove(ls, sector, m)
  {
  }

  /** Where nothing above base holds a sector, the top shows what base shows, unless a layer in
      between ends before the sector does. */
  lemma NotHeldShowsBase(ls: seq<Layer>, k: nat, sector: nat, n: nat, s: nat)
    requires k <= |ls| && NoneAbove(ls[..k], sector, n) && sector <= s < sector + n
    ensures View(ls, s) == if forall i :: 0 <= i < k ==> s < ls[i].total then View(ls[k..], s) else 0
  {
    hide View;
    var up := ls[..k];
    assert ls == up + ls[k..];
    ViewOfStack(up, ls[k..], s);
    assert forall i :: 0 <= i < k ==> up[i] == ls[i] && s !in up[i].data;
    if !(forall i :: 0 <= i < k ==> s < ls[i].total) {
      var i :| 0 <= i < k && s >= ls[i].total;
      assert s >= up[i].total;
      NothingShows(up, s);
    }
  }

  /** A stack that holds nothing of a sector shows zeros. */
  lemma {:induction false} NothingShows(ls: seq<Layer>, s: nat)
    requires forall i :: 0 <= i < |ls| ==> s !in ls[i].data
    ensures View(ls, s) == 0
    decreases |ls|
  {
    if ls != [] {
      assert forall i :: 0 <= i < |ls[1..]| ==> ls[1..][i] == ls[i + 1];
      NothingShows(ls[1..], s);
    }
  }
}
