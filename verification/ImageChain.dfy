/**
 Chains of disk images: what is visible through backing files, and the two operations that edit a
 chain, bdrv_append and bdrv_drop_intermediate.
 */
module ImageChain {
  import opened Options

  /** One image as its format driver shows it: the sectors it holds itself. Zero stands for a
      sector of zeros. */
  datatype Layer = Layer(total: nat, data: map<nat, int>)

  ghost predicate LayerOk(l: Layer) {
    forall s :: s in l.data ==> s < l.total
  }

  /** What a reader of the first layer sees: its own sector, or the one beneath; past the end of a
      layer there are zeros, whatever the layers further down hold. */
  function View(ls: seq<Layer>, s: nat): int {
    if ls == [] then 0
    else if s in ls[0].data then ls[0].data[s]
    else if s < ls[0].total then View(ls[1..], s)
    else 0
  }

  /** Sector `s` falls through every one of these layers. */
  ghost predicate Through(ls: seq<Layer>, s: nat) {
    forall i :: 0 <= i < |ls| ==> s !in ls[i].data && s < ls[i].total
  }

  ghost predicate SameView(a: seq<Layer>, b: seq<Layer>) {
    forall s: nat :: View(a, s) == View(b, s)
  }

  /** The upper layers decide, unless the sector falls through all of them. */
  lemma {:induction false} ViewOfStack(a: seq<Layer>, b: seq<Layer>, s: nat)
    ensures View(a + b, s) == if Through(a, s) then View(b, s) else View(a, s)
    decreases |a|
  {
    if a == [] {
      assert a + b == b;
    } else {
      assert (a + b)[0] == a[0] && (a + b)[1..] == a[1..] + b;
      ViewOfStack(a[1..], b, s);
      if s !in a[0].data && s < a[0].total {
        assert Through(a, s) <==> Through(a[1..], s) by {
          if Through(a[1..], s) {
            forall i | 0 <= i < |a| ensures s !in a[i].data && s < a[i].total {
              if i > 0 { assert a[i] == a[1..][i - 1]; }
            }
          }
        }
      } else {
        assert !Through(a, s);
      }
    }
  }

  /** Dropping the middle of a stack keeps the view exactly where the middle is hidden from above or
      shows what the bottom shows. */
  lemma DroppingMiddle(a: seq<Layer>, m: seq<Layer>, b: seq<Layer>, s: nat)
    ensures View(a + b, s) == View(a + (m + b), s) <==> (Through(a, s) ==> View(m + b, s) == View(b, s))
  {
    ViewOfStack(a, b, s);
    ViewOfStack(a, m + b, s);
  }

  /** Hence the whole view is kept whenever the two stacks show the same. */
  lemma DroppingEqualMiddle(a: seq<Layer>, m: seq<Layer>, b: seq<Layer>)
    requires SameView(m + b, b)
    ensures SameView(a + (m + b), a + b)
  {
    forall s: nat ensures View(a + (m + b), s) == View(a + b, s) { DroppingMiddle(a, m, b, s); }
  }

  /** An empty image on top shows what is beneath exactly when it is long enough for everything
      beneath that is not zero. */
  lemma EmptyOnTop(e: Layer, ls: seq<Layer>)
    requires e.data == map[]
    ensures SameView([e] + ls, ls) <==> forall s: nat :: s >= e.total ==> View(ls, s) == 0
  {
    hide View;
    forall s: nat ensures View([e] + ls, s) == if s < e.total then View(ls, s) else 0 { OneEmpty(e, ls, s); }
    if SameView([e] + ls, ls) {
      forall s: nat | s >= e.total ensures View(ls, s) == 0 { assert View([e] + ls, s) == View(ls, s); }
    } else {
      var s: nat :| View([e] + ls, s) != View(ls, s);
      assert s >= e.total && View(ls, s) != 0;
    }
  }

  lemma OneEmpty(e: Layer, ls: seq<Layer>, s: nat)
    requires e.data == map[]
    ensures View([e] + ls, s) == if s < e.total then View(ls, s) else 0
  {
    assert ([e] + ls)[1..] == ls;
  }

  // ---------------------------------------------------------------- block driver states

  /** The part of a BlockDriverState that belongs to the device in front of it. */
  datatype Attached = Attached(
    deviceName: string,
    dev: Option<nat>,
    openFlags: nat,
    copyOnRead: nat,
    ioLimits: bool,
    dirtyBitmap: Option<set<nat>>,
    inUse: nat,
    job: Option<nat>)

  /** What a format driver can do: report which sectors an image holds, empty an image; and whether
      the length has to be asked for every time. */
  datatype Driver = Driver(reportsStatus: bool, makesEmpty: bool, variableLength: bool)

  class BlockDriverState {
    var drv: Option<Driver>
    var layer: Layer
    var readOnly: bool
    var faulty: bool                 // requests to its driver may fail
    var backing: BlockDriverState?
    var filename: string
    var backingFile: string
    var attached: Attached
    var deleted: nat                 // how often bdrv_delete was called on it

    constructor (drv: Driver, layer: Layer, filename: string)
      ensures this.drv == Some(drv) && this.layer == layer && backing == null && !readOnly && !faulty
      ensures this.filename == filename && backingFile == "" && deleted == 0
      ensures attached == Attached("", None, 0, 0, false, None, 0, None)
    {
      this.drv, this.layer, this.filename, backing, readOnly, deleted := Some(drv), layer, filename, null, false, 0;
      faulty := false;
      backingFile := "";
      attached := Attached("", None, 0, 0, false, None, 0, None);
    }
  }

  ghost function Below(c: seq<BlockDriverState>, i: nat): BlockDriverState? {
    if i + 1 < |c| then c[i + 1] else null
  }

  /** `c` is the chain of images that starts at its first element and ends where no backing file
      is. */
  ghost predicate Linked(c: seq<BlockDriverState>)
    reads c`backing
  {
    && |c| > 0
    && (forall i, j :: 0 <= i < j < |c| ==> c[i] != c[j])
    && (forall i :: 0 <= i < |c| ==> c[i].backing == Below(c, i))
  }

  ghost function Layers(c: seq<BlockDriverState>): (ls: seq<Layer>)
    reads c`layer
    ensures |ls| == |c| && forall i :: 0 <= i < |c| ==> ls[i] == c[i].layer
  {
    if c == [] then [] else
      assert forall i :: 0 <= i < |c| - 1 ==> c[1..][i] == c[i + 1];
      [c[0].layer] + Layers(c[1..])
  }

  /** Where an image is in a chain; the length of the chain when it is not there. */
  ghost function IndexOf(c: seq<BlockDriverState>, bs: BlockDriverState?): (i: nat)
    ensures i <= |c| && (i < |c| ==> c[i] == bs) && forall j :: 0 <= j < i ==> c[j] != bs
  {
    if c == [] || c[0] == bs then 0
    else
      assert forall j :: 1 <= j < |c| ==> c[j] == c[1..][j - 1];
      1 + IndexOf(c[1..], bs)
  }

  /** bdrv_find_overlay: the image whose backing file is `bs`. */
  method FindOverlay(active: BlockDriverState, bs: BlockDriverState, ghost c: seq<BlockDriverState>)
    returns (overlay: BlockDriverState?)
    requires Linked(c) && c[0] == active
    ensures overlay == null <==> active == bs || bs !in c
    ensures overlay != null ==> 0 < IndexOf(c, bs) < |c| && overlay == c[IndexOf(c, bs) - 1] && overlay.backing == bs
  {
    overlay := null;
    if active == bs { return; }
    var intermediate := active;
    ghost var i := 0;
    while intermediate.backing != null
      invariant i < |c| && c[i] == intermediate
      invariant forall j :: 0 <= j <= i ==> c[j] != bs
      decreases |c| - i
    {
      if intermediate.backing == bs {
        overlay := intermediate;
        assert c[i + 1] == bs && IndexOf(c, bs) == i + 1;
        break;
      }
      intermediate := intermediate.backing;
      i := i + 1;
    }
  }

  /** bdrv_delete */
  method Delete(bs: BlockDriverState)
    requires bs.attached.dev == None && bs.attached.job == None && bs.attached.inUse == 0
    modifies bs`deleted, bs`attached
    ensures bs.deleted == old(bs.deleted) + 1
    ensures bs.attached == old(bs.attached).(deviceName := "")
  {
    bs.attached := bs.attached.(deviceName := "");
    bs.deleted := bs.deleted + 1;
  }

  /** The images that leave the chain may be deleted. */
  ghost predicate Deletable(c: seq<BlockDriverState>)
    reads c
  {
    forall i :: 0 <= i < |c| ==> c[i].attached.dev == None && c[i].attached.job == None && c[i].attached.inUse == 0
  }

  lemma LinkedAt(c: seq<BlockDriverState>, i: nat)
    requires Linked(c) && i < |c|
    ensures c[i].backing == if i + 1 < |c| then c[i + 1] else null
  {
  }

  /** The walk from top that queues images for deletion until it meets base. */
  method QueueDownTo(top: BlockDriverState, base: BlockDriverState, ghost c: seq<BlockDriverState>, ghost t: nat)
    returns (queue: seq<BlockDriverState>, found: bool)
    requires Linked(c) && t < |c| && c[t] == top && base != top
    ensures found ==> 0 < |queue| < |c| - t && queue == c[t..t + |queue|] && c[t + |queue|] == base
    ensures !found ==> forall j :: t <= j < |c| ==> c[j] != base
  {
    hide Linked, Below;
    queue, found := [], false;
    var intermediate: BlockDriverState? := top;
    ghost var i := t;
    while intermediate != null
      invariant t <= i <= |c| && intermediate == (if i < |c| then c[i] else null)
      invariant queue == c[t..i]
      invariant forall j :: t <= j <= i && j < |c| ==> c[j] != base
      decreases |c| - i
    {
      queue := queue + [intermediate];
      assert queue == c[t..i + 1];
      LinkedAt(c, i);
      if intermediate.backing == base {
        found := true;
        return;
      }
      intermediate := intermediate.backing;
      i := i + 1;
    }
  }

  lemma IndexIs(c: seq<BlockDriverState>, bs: BlockDriverState, i: nat)
    requires Linked(c) && i < |c| && c[i] == bs
    ensures IndexOf(c, bs) == i
  {
  }

  /** Deleting the queued images: each loses its backing file first, so that only it is closed. */
  method DeleteAll(queue: seq<BlockDriverState>)
    requires Deletable(queue) && forall i, j :: 0 <= i < j < |queue| ==> queue[i] != queue[j]
    modifies queue`deleted
    modifies queue`backing
    modifies queue`attached
    ensures forall i :: 0 <= i < |queue| ==> queue[i].deleted == old(queue[i].deleted) + 1 && queue[i].backing == null
  {
    for k := 0 to |queue|
      invariant forall i :: 0 <= i < k ==> queue[i].deleted == old(queue[i].deleted) + 1 && queue[i].backing == null
      invariant forall i :: k <= i < |queue| ==> queue[i].deleted == old(queue[i].deleted) && queue[i].attached == old(queue[i].attached)
    {
      queue[k].backing := null;
      Delete(queue[k]);
    }
  }

  const EIO := 5

  /** bdrv_drop_intermediate. `changed` is what rewriting the image header of the layer above
      returns. Exactly the layers from top to just above base leave the chain, each is deleted once,
      and on every error nothing is touched. */
  method DropIntermediate(active: BlockDriverState, top: BlockDriverState, base: BlockDriverState, changed: int,
                          ghost c: seq<BlockDriverState>)
    returns (ret: int, ghost now: seq<BlockDriverState>)
    requires Linked(c) && c[0] == active
    requires IndexOf(c, top) <= IndexOf(c, base) < |c| ==> Deletable(c[IndexOf(c, top)..IndexOf(c, base)])
    modifies c
    ensures ret == 0 <==> old(top.drv.Some? && base.drv.Some?) && 0 < IndexOf(c, top) <= IndexOf(c, base) < |c| &&
                          (top == base || changed == 0)
    ensures Linked(now) && now == if ret == 0 then c[..IndexOf(c, top)] + c[IndexOf(c, base)..] else c
    ensures ret != 0 || top == base ==> forall i :: 0 <= i < |c| ==> unchanged(c[i])
    ensures Layers(now) == if ret == 0 then old(Layers(c))[..IndexOf(c, top)] + old(Layers(c))[IndexOf(c, base)..]
                           else old(Layers(c))
    ensures ret == 0 && SameView(old(Layers(c))[IndexOf(c, top)..], old(Layers(c))[IndexOf(c, base)..]) ==>
              SameView(Layers(now), old(Layers(c)))
    ensures forall i :: 0 <= i < |c| ==>
              && c[i].layer == old(c[i].layer)
              && c[i].deleted == old(c[i].deleted) + if ret == 0 && IndexOf(c, top) <= i < IndexOf(c, base) then 1 else 0
    ensures ret == 0 && top != base ==> c[IndexOf(c, top) - 1].backingFile == old(base.filename)
  {
    hide IndexOf, Linked, Deletable, View, SameView, Layers;
    ghost var ls := Layers(c);
    ret, now := -EIO, c;
    if top.drv.None? || base.drv.None? { return; }
    var newTop := FindOverlay(active, top, c);
    if newTop == null { return; }
    ghost var t, b := IndexOf(c, top), IndexOf(c, base);
    if newTop.backing == base {
      ret := 0;
      assert c == c[..t] + c[b..];
      CutLayers(c, t, b, ls);
      return;
    }
    var queue, found := QueueDownTo(top, base, c, t);
    if !found {
      assert b < |c| ==> b < t;
      return;
    }
    IndexIs(c, base, t + |queue|);
    if changed != 0 { ret := changed; return; }
    Relink(newTop, base, queue, c, t);
    now := c[..t] + c[b..];
    CutLayers(c, t, b, ls);
    ret := 0;
  }

  /** The end of bdrv_drop_intermediate, once nothing can fail any more. */
  method Relink(newTop: BlockDriverState, base: BlockDriverState, queue: seq<BlockDriverState>, ghost c: seq<BlockDriverState>, ghost t: nat)
    requires Linked(c) && Deletable(queue) && 0 < t && 0 < |queue| < |c| - t && queue == c[t..t + |queue|]
    requires newTop == c[t - 1] && base == c[t + |queue|]
    modifies c
    ensures Linked(c[..t] + c[t + |queue|..])
    ensures forall i :: 0 <= i < |c| ==>
              && c[i].layer == old(c[i].layer)
              && c[i].deleted == old(c[i].deleted) + if t <= i < t + |queue| then 1 else 0
    ensures newTop.backingFile == old(base.filename)
  {
    hide Linked, Deletable, Below;
    ghost var b := t + |queue|;
    QueueFacts(c, t, queue);
    LinkedFacts(c);
    newTop.backingFile := base.filename;
    newTop.backing := base;
    KeepsDeletable(queue);
    DeleteAll(queue);
    forall i | 0 <= i < |c|
      ensures c[i].layer == old(c[i].layer)
      ensures c[i].deleted == old(c[i].deleted) + if t <= i < t + |queue| then 1 else 0
      ensures !(t - 1 <= i < b) ==> c[i].backing == Below(c, i)
    {
      if t <= i < b { assert c[i] == queue[i - t]; }
    }
    CutLinked(c, t, b);
  }

  lemma KeepsDeletable(c: seq<BlockDriverState>)
    requires forall i :: 0 <= i < |c| ==> c[i].attached.dev == None && c[i].attached.job == None && c[i].attached.inUse == 0
    ensures Deletable(c)
  {
  }

  lemma LinkedFacts(c: seq<BlockDriverState>)
    requires Linked(c)
    ensures |c| > 0 && forall i, j :: 0 <= i < j < |c| ==> c[i] != c[j]
    ensures forall i :: 0 <= i < |c| ==> c[i].backing == Below(c, i)
  {
  }

  lemma QueueFacts(c: seq<BlockDriverState>, t: nat, queue: seq<BlockDriverState>)
    requires Linked(c) && Deletable(queue) && 0 < t && 0 < |queue| < |c| - t && queue == c[t..t + |queue|]
    ensures forall i :: 0 <= i < |queue| ==>
              queue[i].attached.dev == None && queue[i].attached.job == None && queue[i].attached.inUse == 0
    ensures forall i, j :: 0 <= i < j < |queue| ==> queue[i] != queue[j]
    ensures forall i :: t <= i < t + |queue| ==> c[i] == queue[i - t]
    ensures forall i :: 0 <= i < |c| && !(t <= i < t + |queue|) ==> c[i] !in queue
  {
    hide Below;
  }

  lemma CutLayers(c: seq<BlockDriverState>, t: nat, b: nat, ls: seq<Layer>)
    requires t <= b <= |c| == |ls| && forall i :: 0 <= i < |c| ==> c[i].layer == ls[i]
    ensures Layers(c[..t] + c[b..]) == ls[..t] + ls[b..]
    ensures SameView(ls[t..], ls[b..]) ==> SameView(ls[..t] + ls[b..], ls)
  {
    hide View;
    var now := c[..t] + c[b..];
    forall i | 0 <= i < |now| ensures now[i].layer == (ls[..t] + ls[b..])[i] {
      if i < t { assert now[i] == c[i]; } else { assert now[i] == c[i - t + b]; }
    }
    assert ls[t..b] + ls[b..] == ls[t..] && ls[..t] + ls[t..] == ls;
    if SameView(ls[t..], ls[b..]) { DroppingEqualMiddle(ls[..t], ls[t..b], ls[b..]); }
  }

  lemma CutLinked(c: seq<BlockDriverState>, t: nat, b: nat)
    requires 0 < t <= b < |c| && forall i, j :: 0 <= i < j < |c| ==> c[i] != c[j]
    requires forall i :: 0 <= i < t - 1 ==> c[i].backing == Below(c, i)
    requires forall i :: b <= i < |c| ==> c[i].backing == Below(c, i)
    requires c[t - 1].backing == c[b]
    ensures Linked(c[..t] + c[b..])
  {
    var now := c[..t] + c[b..];
    forall i | 0 <= i < |now| ensures now[i].backing == Below(now, i) {
      if i < t { assert now[i] == c[i]; } else { assert now[i] == c[i - t + b]; }
    }
    forall i, j | 0 <= i < j < |now| ensures now[i] != now[j] {
      assert now[i] == (if i < t then c[i] else c[i - t + b]) && now[j] == (if j < t then c[j] else c[j - t + b]);
    }
  }

  /** bdrv_append: `bsNew` and `bsTop` swap contents, so that whoever holds `bsTop` now reads the new
      image with the old one beneath it, and what belongs to the device stays on `bsTop`. */
  method Append(bsNew: BlockDriverState, bsTop: BlockDriverState, ghost c: seq<BlockDriverState>)
    returns (ghost now: seq<BlockDriverState>)
    requires Linked(c) && c[0] == bsTop && bsNew !in c
    requires bsNew.attached.deviceName == "" && !bsNew.attached.ioLimits && bsNew.attached.dirtyBitmap == None
    requires bsNew.attached.job == None
    modifies bsNew, bsTop
    ensures now == [bsTop, bsNew] + c[1..] && Linked(now)
    ensures Layers(now) == [old(bsNew.layer)] + old(Layers(c))
    ensures bsTop.attached == old(bsTop.attached)
    ensures bsNew.attached == Attached("", None, old(bsTop.attached.openFlags), old(bsTop.attached.copyOnRead), false, None, 0, None)
    ensures bsTop.faulty == old(bsNew.faulty) && bsNew.faulty == old(bsTop.faulty)
    ensures bsTop.drv == old(bsNew.drv) && bsTop.filename == old(bsNew.filename) && bsTop.readOnly == old(bsNew.readOnly)
    ensures bsNew.drv == old(bsTop.drv) && bsNew.filename == old(bsTop.filename) && bsNew.readOnly == old(bsTop.readOnly)
    ensures bsTop.backingFile == bsNew.filename && bsNew.backingFile == old(bsTop.backingFile)
    ensures bsTop.deleted == old(bsTop.deleted) && bsNew.deleted == old(bsNew.deleted)
    ensures old(bsNew.layer).data == map[] && (forall s: nat :: s >= old(bsNew.layer).total ==> old(View(Layers(c), s)) == 0) ==>
              SameView(Layers(now), old(Layers(c)))
  {
    hide View, SameView, Layers, Linked;
    ghost var ls, e := Layers(c), bsNew.layer;
    LinkedFacts(c);
    LinkedAt(c, 0);
    var newDrv, newLayer, newName, newRo := bsNew.drv, bsNew.layer, bsNew.filename, bsNew.readOnly;
    bsNew.drv, bsNew.layer, bsNew.filename, bsNew.readOnly := bsTop.drv, bsTop.layer, bsTop.filename, bsTop.readOnly;
    bsNew.faulty, bsTop.faulty := bsTop.faulty, bsNew.faulty;
    bsNew.backing, bsNew.backingFile := bsTop.backing, bsTop.backingFile;
    bsNew.attached := Attached("", None, bsTop.attached.openFlags, bsTop.attached.copyOnRead, false, None, 0, None);
    bsTop.drv, bsTop.layer, bsTop.filename, bsTop.readOnly := newDrv, newLayer, newName, newRo;
    bsTop.backing, bsTop.backingFile := bsNew, bsNew.filename;
    now := [bsTop, bsNew] + c[1..];
    PushedLinked(c, bsNew, e, ls);
    if e.data == map[] { EmptyOnTop(e, ls); }
  }

  lemma PushedLinked(c: seq<BlockDriverState>, pushed: BlockDriverState, e: Layer, ls: seq<Layer>)
    requires 0 < |c| == |ls| && pushed !in c && forall i, j :: 0 <= i < j < |c| ==> c[i] != c[j]
    requires forall i :: 1 <= i < |c| ==> c[i].backing == Below(c, i) && c[i].layer == ls[i]
    requires c[0].backing == pushed && c[0].layer == e && pushed.layer == ls[0]
    requires pushed.backing == if |c| > 1 then c[1] else null
    ensures Linked([c[0], pushed] + c[1..]) && Layers([c[0], pushed] + c[1..]) == [e] + ls
  {
    hide Layers;
    var now := [c[0], pushed] + c[1..];
    forall i | 0 <= i < |now| ensures now[i].layer == ([e] + ls)[i] && now[i].backing == Below(now, i) {
      if i > 1 { assert now[i] == c[i - 1]; }
    }
    forall i, j | 0 <= i < j < |now| ensures now[i] != now[j] {
      assert j > 1 ==> now[j] == c[j - 1];
      assert i > 1 ==> now[i] == c[i - 1];
    }
  }
}
