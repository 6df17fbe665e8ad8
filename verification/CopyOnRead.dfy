/**
 Copy-on-read request serialization (block.c): tracked requests, the wait for overlapping ones, and
 the copy-on-read read-then-write-back, as a state machine over a set of concurrent requests.

 Each coroutine runs undisturbed from one yield to the next; the driver moves the sectors of a
 request one at a time, in any order, while other requests do the same. A driver may fail at any
 moment. With I/O throttling on, a request may also yield between the overlap wait and
 tracked_request_begin; that is when the serialization does not hold.
 */
module CopyOnRead {
  import opened Options

  type Sector = int

  /** A read or write request; `cor` is BDRV_REQ_COPY_ON_READ, `data` what a write writes. */
  datatype Req = Req(sector: nat, nb: nat, isWrite: bool, cor: bool, data: seq<Sector>)

  /** Where a request stands. Requests from Begun on are in the list of tracked requests. */
  datatype Phase =
    | Idle
    | Ready
    | Waiting(on: nat)
    | Throttled
    | Begun
    | Reading(got: map<nat, Sector>)
    | Writing(todo: set<nat>)
    | Copying(buf: map<nat, Sector>)
    | WritingBack(buf: map<nat, Sector>, todo: set<nat>)
    | Done

  /** `cluster` is the cluster size in sectors (one if the driver reports none), `inFlight` the
      copy_on_read_in_flight counter, `overlay` the sectors allocated in the image, `throttle` is
      io_limits_enabled. */
  datatype State = State(cluster: nat, throttle: bool, backing: nat -> Sector, overlay: map<nat, Sector>,
                         reqs: seq<Req>, phases: seq<Phase>, inFlight: int)

  predicate Tracked(p: Phase) {
    p.Begun? || p.Reading? || p.Writing? || p.Copying? || p.WritingBack?
  }

  /** What a reader of the device sees. */
  function View(s: State, k: nat): Sector {
    if k in s.overlay then s.overlay[k] else s.backing(k)
  }

  // ---------------------------------------------------------------- clusters

  /** round_to_clusters: first sector and length of the region rounded to clusters. */
  function RegionStart(r: Req, c: nat): nat
    requires c > 0
  {
    r.sector / c * c
  }

  function RegionLength(r: Req, c: nat): nat
    requires c > 0
  {
    (r.sector - RegionStart(r, c) + r.nb + c - 1) / c * c
  }

  /** tracked_request_overlaps */
  predicate Overlaps(r: Req, sector: nat, nb: nat) {
    !(sector >= r.sector + r.nb) && !(r.sector >= sector + nb)
  }

  predicate InRegion(r: Req, c: nat, k: nat)
    requires c > 0
  {
    RegionStart(r, c) <= k < RegionStart(r, c) + RegionLength(r, c)
  }

  predicate InRange(r: Req, k: nat) {
    r.sector <= k < r.sector + r.nb
  }

  lemma MulMono(a: int, b: int, c: nat)
    requires a <= b
    ensures a * c <= b * c
  {
  }

  lemma DivBelow(k: nat, e: nat, c: nat)
    requires c > 0
    ensures k < e * c <==> k / c < e
  {
    var q := k / c;
    assert k == q * c + k % c;
    if q < e { MulMono(q + 1, e, c); } else { MulMono(e, q, c); }
  }

  /** Rounding up to whole clusters: the least count whose clusters hold `x` sectors. */
  lemma CeilDiv(x: nat, c: nat)
    requires c > 0
    ensures x <= (x + c - 1) / c * c
    ensures forall e: nat :: x <= e * c ==> (x + c - 1) / c <= e
  {
    var y := x + c - 1;
    assert y == y / c * c + y % c;
    forall e: nat | x <= e * c ensures y / c <= e {
      DivBelow(y, e + 1, c);
      assert (e + 1) * c == e * c + c;
    }
  }

  /** The clusters of a region, as the first one and the one after the last. */
  function FirstCluster(r: Req, c: nat): nat
    requires c > 0
  {
    r.sector / c
  }

  function EndCluster(r: Req, c: nat): nat
    requires c > 0
  {
    r.sector / c + (r.sector % c + r.nb + c - 1) / c
  }

  lemma RegionBounds(r: Req, c: nat)
    requires c > 0
    ensures RegionStart(r, c) == FirstCluster(r, c) * c <= r.sector
    ensures RegionStart(r, c) + RegionLength(r, c) == EndCluster(r, c) * c >= r.sector + r.nb
    ensures FirstCluster(r, c) <= EndCluster(r, c)
  {
    var f, x := r.sector / c, r.sector % c + r.nb;
    assert r.sector == f * c + r.sector % c;
    CeilDiv(x, c);
    var n := (x + c - 1) / c;
    assert (f + n) * c == f * c + n * c;
  }

  /** The region is a run of whole clusters. */
  lemma RegionClusters(r: Req, c: nat, k: nat)
    requires c > 0
    ensures InRegion(r, c, k) <==> FirstCluster(r, c) <= k / c < EndCluster(r, c)
  {
    RegionBounds(r, c);
    DivBelow(k, FirstCluster(r, c), c);
    DivBelow(k, EndCluster(r, c), c);
  }

  lemma RangeInRegion(r: Req, c: nat, k: nat)
    requires c > 0 && InRange(r, k)
    ensures InRegion(r, c, k)
  {
    RegionBounds(r, c);
  }

  /** A request that lies before the cluster `f` has its region before it too. */
  lemma EndsBefore(t: Req, c: nat, f: nat)
    requires c > 0 && t.sector + t.nb <= f * c
    ensures EndCluster(t, c) <= f
  {
    var g, x := t.sector / c, t.sector % c + t.nb;
    assert t.sector == g * c + t.sector % c;
    DivBelow(t.sector, f + 1, c);
    assert (f + 1) * c == f * c + c;
    assert (f - g) * c == f * c - g * c;
    assert x <= (f - g) * c;
    CeilDiv(x, c);
  }

  /** If two regions share a sector, the wait sees it, although it rounds only one of them. */
  lemma WaitSeesSharedClusters(t: Req, r: Req, c: nat, k: nat)
    requires c > 0 && InRegion(t, c, k) && InRegion(r, c, k)
    ensures Overlaps(t, RegionStart(r, c), RegionLength(r, c))
  {
    hide *;
    RegionClusters(t, c, k);
    RegionClusters(r, c, k);
    RegionBounds(r, c);
    var f, e := FirstCluster(r, c), EndCluster(r, c);
    StartsBefore(t, c, e);
    if f * c >= t.sector + t.nb { EndsBefore(t, c, f); }
    OverlapsMeans(t, RegionStart(r, c), RegionLength(r, c));
  }

  lemma StartsBefore(t: Req, c: nat, e: nat)
    requires c > 0
    ensures t.sector < e * c <==> FirstCluster(t, c) < e
  {
    DivBelow(t.sector, e, c);
  }

  lemma OverlapsMeans(t: Req, sector: nat, nb: nat)
    ensures Overlaps(t, sector, nb) <==> sector < t.sector + t.nb && t.sector < sector + nb
  {
  }

  // ---------------------------------------------------------------- the steps

  /** One step of one request. `on` is the request it has to wait for, if any. */
  datatype Label =
    | Arrive(i: nat, on: Option<nat>)
    | Resume(i: nat, on: Option<nat>)
    | Begin(i: nat)
    | Check(i: nat, copy: bool)
    | ReadSector(i: nat, k: nat)
    | WriteSector(i: nat, k: nat)
    | CopySector(i: nat, k: nat)
    | StartBack(i: nat)
    | BackSector(i: nat, k: nat)
    | End(i: nat, ok: bool)

  function RangeSet(r: Req): (ks: set<nat>)
    ensures forall k :: k in ks <==> InRange(r, k)
  {
    set k: nat | r.sector <= k < r.sector + r.nb && InRange(r, k)
  }

  function RegionSet(r: Req, c: nat): (ks: set<nat>)
    requires c > 0
    ensures forall k :: k in ks <==> InRegion(r, c, k)
  {
    set k: nat | RegionStart(r, c) <= k < RegionStart(r, c) + RegionLength(r, c) && InRegion(r, c, k)
  }

  /** The scan in wait_for_overlapping_requests stops at `t`. */
  predicate MustWait(s: State, i: nat, t: nat) {
    && i < |s.reqs| && t < |s.reqs| == |s.phases| && s.cluster > 0
    && Tracked(s.phases[t])
    && Overlaps(s.reqs[t], RegionStart(s.reqs[i], s.cluster), RegionLength(s.reqs[i], s.cluster))
  }

  /** What the scan finds, and whether it is made at all. */
  ghost predicate Scan(s: State, i: nat, scans: bool, on: Option<nat>) {
    match on
    case Some(t) => scans && MustWait(s, i, t)
    case None => scans ==> forall t :: !MustWait(s, i, t)
  }

  /** After the scan: the wait queue of the request found, the throttle, or on at once. */
  function Placed(r: Req, on: Option<nat>, throttle: bool): Phase {
    if on.Some? then Waiting(on.value) else if throttle then Throttled else Tracking(r)
  }

  /** tracked_request_begin */
  function Tracking(r: Req): Phase {
    if r.isWrite then Writing(RangeSet(r))
    else if r.cor then Begun
    else Reading(map[])
  }

  function CorCount(r: Req): int {
    if r.cor then 1 else 0
  }

  /** tracked_request_end wakes the requests queued on `i`. */
  function Woken(p: Phase, i: nat): Phase {
    if p == Waiting(i) then Ready else p
  }

  ghost predicate Enabled(s: State, l: Label) {
    && l.i < |s.reqs| == |s.phases| && s.cluster > 0
    && var r, p := s.reqs[l.i], s.phases[l.i];
    match l
    case Arrive(i, on) => p == Idle && Scan(s, i, s.inFlight + CorCount(r) != 0, on)
    case Resume(i, on) => p == Ready && Scan(s, i, true, on)
    case Begin(i) => p == Throttled
    case Check(i, copy) => p == Begun && (copy || forall k :: InRange(r, k) ==> k in s.overlay)
    case ReadSector(i, k) => p.Reading? && InRange(r, k) && k !in p.got
    case WriteSector(i, k) => p.Writing? && k in p.todo && InRange(r, k) && k - r.sector < |r.data|
    case CopySector(i, k) => p.Copying? && InRegion(r, s.cluster, k) && k !in p.buf
    case StartBack(i) => p.Copying? && forall k :: InRegion(r, s.cluster, k) ==> k in p.buf
    case BackSector(i, k) => p.WritingBack? && k in p.todo && k in p.buf
    case End(i, ok) => Tracked(p) && (ok ==> Finished(r, p))
  }

  predicate Finished(r: Req, p: Phase) {
    match p
    case Reading(got) => got.Keys == RangeSet(r)
    case Writing(todo) => todo == {}
    case WritingBack(_, todo) => todo == {}
    case _ => false
  }

  function Apply(s: State, l: Label): State
    requires Enabled(s, l)
  {
    var i, r, p := l.i, s.reqs[l.i], s.phases[l.i];
    match l
    case Arrive(_, on) => s.(phases := s.phases[i := Placed(r, on, s.throttle)], inFlight := s.inFlight + CorCount(r))
    case Resume(_, on) => s.(phases := s.phases[i := Placed(r, on, s.throttle)])
    case Begin(_) => s.(phases := s.phases[i := Tracking(r)])
    case Check(_, copy) => s.(phases := s.phases[i := if copy then Copying(map[]) else Reading(map[])])
    case ReadSector(_, k) => s.(phases := s.phases[i := Reading(p.got[k := View(s, k)])])
    case WriteSector(_, k) =>
      s.(phases := s.phases[i := Writing(p.todo - {k})], overlay := s.overlay[k := r.data[k - r.sector]])
    case CopySector(_, k) => s.(phases := s.phases[i := Copying(p.buf[k := View(s, k)])])
    case StartBack(_) => s.(phases := s.phases[i := WritingBack(p.buf, RegionSet(r, s.cluster))])
    case BackSector(_, k) =>
      s.(phases := s.phases[i := WritingBack(p.buf, p.todo - {k})], overlay := s.overlay[k := p.buf[k]])
    case End(_, _) =>
      s.(phases := seq(|s.phases|, j requires 0 <= j < |s.phases| => if j == i then Done else Woken(s.phases[j], i)),
         inFlight := s.inFlight - CorCount(r))
  }

  ghost predicate Init(s: State) {
    && s.cluster > 0 && |s.reqs| == |s.phases| && s.inFlight == 0
    && (forall i :: 0 <= i < |s.phases| ==> s.phases[i] == Idle)
    && (forall i :: 0 <= i < |s.reqs| ==> s.reqs[i].isWrite ==> !s.reqs[i].cor && |s.reqs[i].data| == s.reqs[i].nb)
  }

  // ---------------------------------------------------------------- the invariant

  predicate Active(p: Phase) {
    !p.Idle? && !p.Done?
  }

  ghost function CorActive(s: State): set<nat>
    requires |s.reqs| == |s.phases|
  {
    set i: nat | i < |s.reqs| && s.reqs[i].cor && Active(s.phases[i])
  }

  /** Two requests of which one is copy-on-read touch no common cluster while both are tracked. */
  ghost predicate Apart(s: State, i: nat, j: nat)
    requires i < |s.reqs| == |s.phases| && j < |s.reqs| && s.cluster > 0
  {
    i != j && Tracked(s.phases[i]) && Tracked(s.phases[j]) && (s.reqs[i].cor || s.reqs[j].cor) ==>
      forall k :: !(InRegion(s.reqs[i], s.cluster, k) && InRegion(s.reqs[j], s.cluster, k))
  }

  /** A request's own bookkeeping: a bounce buffer holds what the device shows, and what has been
      written back is allocated. */
  ghost predicate PhaseOk(s: State, i: nat)
    requires i < |s.reqs| == |s.phases| && s.cluster > 0
  {
    var r := s.reqs[i];
    match s.phases[i]
    case Waiting(t) => t < |s.phases| && Tracked(s.phases[t])
    case Throttled => false
    case Begun => r.cor
    case Reading(got) => !r.isWrite && forall k :: k in got ==> InRange(r, k)
    case Writing(todo) => r.isWrite && forall k :: k in todo ==> InRange(r, k)
    case Copying(buf) => r.cor && forall k :: k in buf ==> InRegion(r, s.cluster, k) && buf[k] == View(s, k)
    case WritingBack(buf, todo) =>
      && r.cor && (forall k :: k in buf <==> InRegion(r, s.cluster, k))
      && (forall k :: k in buf ==> buf[k] == View(s, k))
      && (forall k :: k in todo ==> InRegion(r, s.cluster, k))
      && (forall k :: InRegion(r, s.cluster, k) && k !in todo ==> k in s.overlay)
    case _ => true
  }

  ghost predicate WellFormed(s: State) {
    && s.cluster > 0 && !s.throttle && |s.reqs| == |s.phases|
    && (forall i :: 0 <= i < |s.reqs| ==> s.reqs[i].isWrite ==> !s.reqs[i].cor && |s.reqs[i].data| == s.reqs[i].nb)
  }

  ghost predicate Inv(s: State) {
    && WellFormed(s)
    && s.inFlight == |CorActive(s)|
    && (forall i, j :: 0 <= i < |s.reqs| && 0 <= j < |s.reqs| ==> Apart(s, i, j))
    && (forall i :: 0 <= i < |s.reqs| ==> PhaseOk(s, i))
  }

  lemma InitInv(s: State)
    requires Init(s) && !s.throttle
    ensures Inv(s)
  {
    assert CorActive(s) == {};
  }

  /** The visible contents change only by guest writes: no other step, write-back included, shows. */
  lemma ViewStep(s: State, l: Label, k: nat)
    requires Inv(s) && Enabled(s, l)
    ensures View(Apply(s, l), k) ==
            if l.WriteSector? && l.k == k then s.reqs[l.i].data[k - s.reqs[l.i].sector] else View(s, k)
    ensures s.overlay.Keys <= Apply(s, l).overlay.Keys
  {
    if l.BackSector? { assert PhaseOk(s, l.i); }
  }

  /** How a step changes the phases of the others. */
  lemma OthersStep(s: State, l: Label, j: nat)
    requires WellFormed(s) && Enabled(s, l) && j < |s.reqs| && j != l.i
    ensures |Apply(s, l).phases| == |s.phases| && Apply(s, l).reqs == s.reqs && Apply(s, l).cluster == s.cluster
    ensures Apply(s, l).phases[j] == if l.End? then Woken(s.phases[j], l.i) else s.phases[j]
  {
  }

  lemma ActiveStep(s: State, l: Label)
    requires WellFormed(s) && Enabled(s, l)
    ensures |Apply(s, l).phases| == |s.phases| && Apply(s, l).reqs == s.reqs && Apply(s, l).cluster == s.cluster && Apply(s, l).throttle == s.throttle
    ensures l.Arrive? ==> !Active(s.phases[l.i])
    ensures !l.Arrive? ==> Active(s.phases[l.i])
    ensures Active(Apply(s, l).phases[l.i]) == !l.End?
    ensures Tracked(s.phases[l.i]) && !l.End? ==> Tracked(Apply(s, l).phases[l.i])
    ensures Apply(s, l).inFlight ==
            s.inFlight + (if l.Arrive? then CorCount(s.reqs[l.i]) else if l.End? then -CorCount(s.reqs[l.i]) else 0)
  {
  }

  lemma CountChange(s: State, n: State, i: nat)
    requires |s.reqs| == |s.phases| == |n.phases| && n.reqs == s.reqs && i < |s.reqs|
    requires forall j :: 0 <= j < |s.reqs| && j != i ==> Active(n.phases[j]) == Active(s.phases[j])
    ensures CorActive(n) == if s.reqs[i].cor && Active(n.phases[i]) then CorActive(s) + {i} else CorActive(s) - {i}
    ensures i in CorActive(s) <==> s.reqs[i].cor && Active(s.phases[i])
  {
  }

  lemma CountStep(s: State, l: Label)
    requires WellFormed(s) && Enabled(s, l) && s.inFlight == |CorActive(s)|
    ensures WellFormed(Apply(s, l)) && Apply(s, l).inFlight == |CorActive(Apply(s, l))|
  {
    hide Enabled, Apply, CorActive, Active;
    IndexOk(s, l);
    ActiveStep(s, l);
    var n := Apply(s, l);
    forall j | 0 <= j < |s.reqs| && j != l.i ensures Active(n.phases[j]) == Active(s.phases[j]) {
      OthersStep(s, l, j);
      WokenActive(s.phases[j], l.i);
    }
    CountChange(s, n, l.i);
  }

  lemma WokenActive(p: Phase, i: nat)
    ensures Active(Woken(p, i)) == Active(p)
  {
  }

  lemma IndexOk(s: State, l: Label)
    requires Enabled(s, l)
    ensures l.i < |s.reqs| == |s.phases| && s.cluster > 0
  {
  }

  /** A request that is tracked now and was not before found nobody in its way. */
  lemma JustTracked(s: State, l: Label, j: nat)
    requires Inv(s) && Enabled(s, l) && j < |s.reqs| && j != l.i
    requires !Tracked(s.phases[l.i]) && Tracked(Apply(s, l).phases[l.i]) && Tracked(s.phases[j])
    requires s.reqs[l.i].cor || s.reqs[j].cor
    ensures forall k :: !(InRegion(s.reqs[l.i], s.cluster, k) && InRegion(s.reqs[j], s.cluster, k))
  {
    assert PhaseOk(s, l.i);
    hide InRegion, RegionStart, RegionLength, Overlaps, Apart, PhaseOk;
    assert (l.Arrive? || l.Resume?) && l.on == None;
    if s.reqs[j].cor { CorActiveCounts(s, j); }
    assert !MustWait(s, l.i, j);
    forall k | InRegion(s.reqs[l.i], s.cluster, k) ensures !InRegion(s.reqs[j], s.cluster, k) {
      if InRegion(s.reqs[j], s.cluster, k) { WaitSeesSharedClusters(s.reqs[j], s.reqs[l.i], s.cluster, k); }
    }
  }

  lemma CorActiveCounts(s: State, j: nat)
    requires Inv(s) && j < |s.reqs| && s.reqs[j].cor && Active(s.phases[j])
    ensures s.inFlight > 0
  {
    assert j in CorActive(s);
  }

  lemma ApartStep(s: State, l: Label, i: nat, j: nat)
    requires Inv(s) && Enabled(s, l) && i < |s.reqs| && j < |s.reqs|
    ensures |Apply(s, l).phases| == |Apply(s, l).reqs| == |s.reqs| && Apply(s, l).cluster > 0
    ensures Apart(Apply(s, l), i, j)
  {
    hide Enabled, Apply, InRegion, PhaseOk, MustWait;
    ActiveStep(s, l);
    IndexOk(s, l);
    var n := Apply(s, l);
    assert Apart(s, i, j);
    if i != j && Tracked(n.phases[i]) && Tracked(n.phases[j]) && (s.reqs[i].cor || s.reqs[j].cor) {
      if i != l.i { OthersStep(s, l, i); }
      if j != l.i { OthersStep(s, l, j); }
      if i == l.i && !Tracked(s.phases[i]) {
        JustTracked(s, l, j);
      } else if j == l.i && !Tracked(s.phases[j]) {
        JustTracked(s, l, i);
      }
    }
  }

  /** A step of another request does not disturb a bounce buffer. */
  lemma BufferStep(s: State, l: Label, j: nat, k: nat)
    requires Inv(s) && Enabled(s, l) && j < |s.reqs| && j != l.i
    requires (s.phases[j].Copying? || s.phases[j].WritingBack?) && InRegion(s.reqs[j], s.cluster, k)
    ensures View(Apply(s, l), k) == View(s, k)
  {
    ViewStep(s, l, k);
    if l.WriteSector? && l.k == k {
      assert PhaseOk(s, j) && Apart(s, l.i, j);
      RangeInRegion(s.reqs[l.i], s.cluster, k);
      assert false;
    }
  }

  lemma OtherPhaseOk(s: State, l: Label, j: nat)
    requires Inv(s) && Enabled(s, l) && j < |s.reqs| && j != l.i
    ensures |Apply(s, l).phases| == |Apply(s, l).reqs| == |s.reqs| && Apply(s, l).cluster > 0
    ensures PhaseOk(Apply(s, l), j)
  {
    hide Enabled, Apply, InRegion, MustWait, View, Apart;
    ActiveStep(s, l);
    IndexOk(s, l);
    OthersStep(s, l, j);
    var n := Apply(s, l);
    assert PhaseOk(s, j);
    ViewStep(s, l, 0);
    match s.phases[j]
    case Waiting(t) =>
      if t != l.i { OthersStep(s, l, t); }
    case Copying(buf) =>
      forall k | k in buf ensures buf[k] == View(n, k) { BufferStep(s, l, j, k); }
    case WritingBack(buf, todo) =>
      forall k | k in buf ensures buf[k] == View(n, k) { BufferStep(s, l, j, k); }
    case _ =>
  }

  lemma OwnPhaseOk(s: State, l: Label)
    requires Inv(s) && Enabled(s, l)
    ensures |Apply(s, l).phases| == |Apply(s, l).reqs| == |s.reqs| && Apply(s, l).cluster > 0
    ensures PhaseOk(Apply(s, l), l.i)
  {
    hide InRegion, Apart, Overlaps;
    assert PhaseOk(s, l.i);
    var n := Apply(s, l);
    if (l.Arrive? || l.Resume?) && l.on.Some? {
      assert l.on.value != l.i;
    }
  }

  /** Every step keeps the invariant. */
  lemma StepKeepsInv(s: State, l: Label)
    requires Inv(s) && Enabled(s, l)
    ensures Inv(Apply(s, l))
  {
    var n := Apply(s, l);
    CountStep(s, l);
    hide Enabled, Apply, Apart, PhaseOk;
    IndexOk(s, l);
    ActiveStep(s, l);
    forall i, j | 0 <= i < |n.reqs| && 0 <= j < |n.reqs| ensures Apart(n, i, j) { ApartStep(s, l, i, j); }
    forall j | 0 <= j < |n.reqs| ensures PhaseOk(n, j) {
      if j == l.i { OwnPhaseOk(s, l); } else { OtherPhaseOk(s, l, j); }
    }
  }

  // ---------------------------------------------------------------- whole runs

  ghost predicate Run(s: State, ls: seq<Label>)
    decreases |ls|
  {
    ls == [] || (Enabled(s, ls[0]) && Run(Apply(s, ls[0]), ls[1..]))
  }

  ghost function Final(s: State, ls: seq<Label>): State
    requires Run(s, ls)
    decreases |ls|
  {
    if ls == [] then s else Final(Apply(s, ls[0]), ls[1..])
  }

  /** What the guest wrote last to a sector, or what was there. */
  ghost function LastWritten(reqs: seq<Req>, ls: seq<Label>, k: nat, before: Sector): Sector
    decreases |ls|
  {
    if ls == [] then before
    else
      var l := ls[0];
      var hit := l.WriteSector? && l.k == k && l.i < |reqs| && 0 <= k - reqs[l.i].sector < |reqs[l.i].data|;
      LastWritten(reqs, ls[1..], k, if hit then reqs[l.i].data[k - reqs[l.i].sector] else before)
  }

  /** Copy-on-read safety over every run: requests of which one is copy-on-read never share a
      cluster while tracked, and every sector shows what the guest wrote to it last. */
  lemma {:induction false} RunIsSafe(s: State, ls: seq<Label>, k: nat)
    requires Inv(s) && Run(s, ls)
    ensures Inv(Final(s, ls))
    ensures View(Final(s, ls), k) == LastWritten(s.reqs, ls, k, View(s, k))
    decreases |ls|
  {
    if ls != [] {
      var n := Apply(s, ls[0]);
      StepKeepsInv(s, ls[0]);
      ViewStep(s, ls[0], k);
      RunIsSafe(n, ls[1..], k);
      assert n.reqs == s.reqs;
    }
  }

  lemma RunFromInit(s: State, ls: seq<Label>, i: nat, j: nat)
    requires Init(s) && !s.throttle && Run(s, ls) && i < |s.reqs| && j < |s.reqs|
    ensures var n := Final(s, ls);
            n.reqs == s.reqs && n.cluster == s.cluster && |n.phases| == |s.reqs| && s.cluster > 0 &&
            (i != j && Tracked(n.phases[i]) && Tracked(n.phases[j]) && (s.reqs[i].cor || s.reqs[j].cor) ==>
               forall k: nat :: !(InRegion(s.reqs[i], s.cluster, k) && InRegion(s.reqs[j], s.cluster, k)))
    ensures forall k :: View(Final(s, ls), k) == LastWritten(s.reqs, ls, k, View(s, k))
  {
    InitInv(s);
    forall k: nat ensures View(Final(s, ls), k) == LastWritten(s.reqs, ls, k, View(s, k)) && Inv(Final(s, ls)) {
      RunIsSafe(s, ls, k);
    }
    RunIsSafe(s, ls, 0);
    RunSameRequests(s, ls);
    assert Apart(Final(s, ls), i, j);
  }

  lemma {:induction false} RunSameRequests(s: State, ls: seq<Label>)
    requires Run(s, ls)
    ensures Final(s, ls).reqs == s.reqs && Final(s, ls).cluster == s.cluster
    decreases |ls|
  {
    if ls != [] { RunSameRequests(Apply(s, ls[0]), ls[1..]); }
  }

  /** A copy-on-read that ends well returns what the device shows at that moment and has allocated
      every cluster it touched. */
  lemma CopyOnReadResult(s: State, i: nat)
    requires Inv(s) && Enabled(s, End(i, true)) && s.phases[i].WritingBack?
    ensures forall k :: InRange(s.reqs[i], k) ==> k in s.phases[i].buf && s.phases[i].buf[k] == View(s, k)
    ensures forall k :: InRegion(s.reqs[i], s.cluster, k) ==> k in s.overlay
  {
    assert PhaseOk(s, i);
    forall k | InRange(s.reqs[i], k) ensures k in s.phases[i].buf && s.phases[i].buf[k] == View(s, k) {
      RangeInRegion(s.reqs[i], s.cluster, k);
    }
  }

  /** With throttling on it takes only two requests with a common cluster, one of them
      copy-on-read, for a run to bring both into that cluster at once. */
  lemma ThrottlingBreaks(s: State, i: nat, j: nat, k: nat) returns (ls: seq<Label>)
    requires Init(s) && s.throttle && i < |s.reqs| && j < |s.reqs| && i != j
    requires s.reqs[i].cor && InRegion(s.reqs[i], s.cluster, k) && InRegion(s.reqs[j], s.cluster, k)
    ensures Run(s, ls)
    ensures var n := Final(s, ls);
            n.reqs == s.reqs && |n.phases| == |s.reqs| && Tracked(n.phases[i]) && Tracked(n.phases[j])
    ensures var n := Final(s, ls);
            n == s.(phases := n.phases, inFlight := n.inFlight) && n.phases[i] == Tracking(s.reqs[i]) &&
            n.phases[j] == Tracking(s.reqs[j]) && forall l :: l in ls ==> !l.WriteSector?
  {
    hide *;
    var a, b, c, d := Arrive(i, None), Arrive(j, None), Begin(i), Begin(j);
    InitIdle(s);
    ArriveThrottled(s, i);
    var s1 := Apply(s, a);
    ArriveThrottled(s1, j);
    var s2 := Apply(s1, b);
    BeginTracked(s2, i);
    var s3 := Apply(s2, c);
    BeginTracked(s3, j);
    var s4 := Apply(s3, d);
    RunNothing(s4);
    assert [d] + [] == [d];
    RunCons(s3, d, []);
    RunCons(s2, c, [d]);
    RunCons(s1, b, [c, d]);
    RunCons(s, a, [b, c, d]);
    ls := [a, b, c, d];
    assert [c] + [d] == [c, d] && [b] + [c, d] == [b, c, d] && [a] + [b, c, d] == ls;
    TrackingTracked(s.reqs[i]);
    TrackingTracked(s.reqs[j]);
  }

  /** Nobody is tracked. */
  ghost predicate NobodyTracked(s: State) {
    s.cluster > 0 && |s.reqs| == |s.phases| && s.throttle && forall t :: 0 <= t < |s.phases| ==> !Tracked(s.phases[t])
  }

  lemma InitIdle(s: State)
    requires Init(s) && s.throttle
    ensures NobodyTracked(s) && forall t :: 0 <= t < |s.phases| ==> s.phases[t] == Idle
  {
  }

  lemma ArriveThrottled(s: State, i: nat)
    requires NobodyTracked(s) && i < |s.phases| && s.phases[i] == Idle
    ensures |s.reqs| == |s.phases| && Enabled(s, Arrive(i, None))
    ensures var n := Apply(s, Arrive(i, None)); NobodyTracked(n) && n == s.(phases := s.phases[i := Throttled], inFlight := n.inFlight)
  {
    hide Overlaps, RegionStart, RegionLength;
  }

  lemma BeginTracked(s: State, i: nat)
    requires s.cluster > 0 && |s.reqs| == |s.phases| && i < |s.phases| && s.phases[i] == Throttled
    ensures Enabled(s, Begin(i)) && Apply(s, Begin(i)) == s.(phases := s.phases[i := Tracking(s.reqs[i])])
  {
  }

  lemma TrackingTracked(r: Req)
    ensures Tracked(Tracking(r))
  {
  }

  /** And then a guest write is lost: if the other request is a write of something new to a sector of
      that cluster, a run lets the write-back put the old contents over it. */
  lemma ThrottlingLosesWrite(s: State, i: nat, j: nat, k: nat) returns (ls: seq<Label>)
    requires Init(s) && s.throttle && i < |s.reqs| && j < |s.reqs| && i != j
    requires s.reqs[i].cor && InRegion(s.reqs[i], s.cluster, k) && s.reqs[j].isWrite && InRange(s.reqs[j], k)
    requires s.reqs[j].data[k - s.reqs[j].sector] != View(s, k)
    ensures Run(s, ls) && View(Final(s, ls), k) == View(s, k) != LastWritten(s.reqs, ls, k, View(s, k))
  {
    hide *;
    InitRequests(s, i, j, k);
    RangeTouches(s.reqs[j], s.cluster, k);
    var ls1 := ThrottlingBreaks(s, i, j, k);
    var n, e := Final(s, ls1), Check(i, true);
    CheckCopies(n, i);
    var m := Apply(n, e);
    SameView(s, m, k);
    var rest := CopyThenLose(m, i, j, k);
    ConsWritten(n, e, rest, k);
    RunJoin(s, ls1, [e] + rest, k);
    ls := ls1 + ([e] + rest);
  }

  lemma InitRequests(s: State, i: nat, j: nat, k: nat)
    requires Init(s) && i < |s.reqs| && j < |s.reqs| && s.reqs[i].cor && s.reqs[j].isWrite && InRange(s.reqs[j], k)
    ensures s.cluster > 0 && |s.reqs| == |s.phases| && |s.reqs[j].data| == s.reqs[j].nb
    ensures Tracking(s.reqs[i]) == Begun && Tracking(s.reqs[j]) == Writing(RangeSet(s.reqs[j])) && k in RangeSet(s.reqs[j])
  {
  }

  lemma CheckCopies(s: State, i: nat)
    requires s.cluster > 0 && |s.reqs| == |s.phases| && i < |s.reqs| && s.phases[i] == Begun
    ensures Enabled(s, Check(i, true)) && Apply(s, Check(i, true)) == s.(phases := s.phases[i := Copying(map[])])
  {
  }

  lemma RangeTouches(r: Req, c: nat, k: nat)
    requires c > 0 && InRange(r, k)
    ensures InRegion(r, c, k)
  {
    RangeInRegion(r, c, k);
  }

  /** One run after another. */
  lemma {:induction false} RunJoin(s: State, a: seq<Label>, b: seq<Label>, k: nat)
    requires Run(s, a) && Run(Final(s, a), b) && forall l :: l in a ==> !l.WriteSector?
    ensures Run(s, a + b) && Final(s, a + b) == Final(Final(s, a), b)
    ensures forall v :: LastWritten(s.reqs, a + b, k, v) == LastWritten(s.reqs, b, k, v)
    decreases |a|
  {
    hide Enabled, Apply;
    if a == [] {
      assert a + b == b;
    } else {
      var n := Apply(s, a[0]);
      SameRequests(s, a[0]);
      RunJoin(n, a[1..], b, k);
      ConsWritten(s, a[0], a[1..] + b, k);
      assert a + b == [a[0]] + (a[1..] + b);
    }
  }

  lemma SameRequests(s: State, l: Label)
    requires Enabled(s, l)
    ensures Apply(s, l).reqs == s.reqs
  {
  }

  /** From there: the rest of the cluster is copied, the write reaches the sector, and the old sector
      is written back. */
  lemma {:induction false} CopyThenLose(s: State, i: nat, j: nat, k: nat) returns (ls: seq<Label>)
    requires s.cluster > 0 && |s.reqs| == |s.phases| && i < |s.reqs| && j < |s.reqs| && i != j
    requires s.phases[i].Copying? && InRegion(s.reqs[i], s.cluster, k)
    requires k in s.phases[i].buf ==> s.phases[i].buf[k] == View(s, k)
    requires s.phases[j].Writing? && k in s.phases[j].todo && InRange(s.reqs[j], k) && |s.reqs[j].data| == s.reqs[j].nb
    ensures Run(s, ls) && View(Final(s, ls), k) == View(s, k)
    ensures forall v :: LastWritten(s.reqs, ls, k, v) == s.reqs[j].data[k - s.reqs[j].sector]
    decreases |RegionSet(s.reqs[i], s.cluster) - s.phases[i].buf.Keys|
  {
    hide *;
    var left := RegionSet(s.reqs[i], s.cluster) - s.phases[i].buf.Keys;
    if left == {} {
      forall q | InRegion(s.reqs[i], s.cluster, q) ensures q in s.phases[i].buf {
        assert q in RegionSet(s.reqs[i], s.cluster);
        assert q in s.phases[i].buf || q in left;
      }
      ls := LoseNow(s, i, j, k);
    } else {
      var q :| q in left;
      var l := CopySector(i, q);
      CopyTurn(s, i, q);
      var n := Apply(s, l);
      SameView(s, n, k);
      LeftShrinks(RegionSet(s.reqs[i], s.cluster), s.phases[i].buf, q, View(s, q));
      var rest := CopyThenLose(n, i, j, k);
      ConsWritten(s, l, rest, k);
      ls := [l] + rest;
    }
  }

  lemma LeftShrinks(region: set<nat>, buf: map<nat, Sector>, q: nat, v: Sector)
    requires q in region - buf.Keys
    ensures |region - buf[q := v].Keys| < |region - buf.Keys|
  {
    assert region - buf[q := v].Keys == region - buf.Keys - {q};
  }

  lemma CopyTurn(s: State, i: nat, q: nat)
    requires s.cluster > 0 && |s.reqs| == |s.phases| && i < |s.reqs| && s.phases[i].Copying?
    requires InRegion(s.reqs[i], s.cluster, q) && q !in s.phases[i].buf
    ensures Enabled(s, CopySector(i, q))
    ensures Apply(s, CopySector(i, q)) == s.(phases := s.phases[i := Copying(s.phases[i].buf[q := View(s, q)])])
  {
    hide InRegion, View;
  }

  lemma SameView(s: State, n: State, k: nat)
    requires n.overlay == s.overlay && n.backing == s.backing
    ensures View(n, k) == View(s, k)
  {
  }

  lemma LoseNow(s: State, i: nat, j: nat, k: nat) returns (ls: seq<Label>)
    requires s.cluster > 0 && |s.reqs| == |s.phases| && i < |s.reqs| && j < |s.reqs| && i != j
    requires s.phases[i].Copying? && (forall q :: InRegion(s.reqs[i], s.cluster, q) ==> q in s.phases[i].buf)
    requires InRegion(s.reqs[i], s.cluster, k) && k in s.phases[i].buf && s.phases[i].buf[k] == View(s, k)
    requires s.phases[j].Writing? && k in s.phases[j].todo && InRange(s.reqs[j], k) && |s.reqs[j].data| == s.reqs[j].nb
    ensures Run(s, ls) && View(Final(s, ls), k) == View(s, k)
    ensures forall v :: LastWritten(s.reqs, ls, k, v) == s.reqs[j].data[k - s.reqs[j].sector]
  {
    hide InRegion, RegionStart, RegionLength, Run, Final, LastWritten;
    RangeData(s.reqs[j], k);
    var x, y, z := StartBack(i), WriteSector(j, k), BackSector(i, k);
    assert Enabled(s, x);
    var s1 := Apply(s, x);
    assert Enabled(s1, y);
    var s2 := Apply(s1, y);
    assert Enabled(s2, z);
    var s3 := Apply(s2, z);
    assert View(s3, k) == View(s, k);
    hide Enabled, Apply, View, InRange;
    ls := [x, y, z];
    assert [x] + [y, z] == ls && [y] + [z] == [y, z] && [z] + [] == [z];
    RunNothing(s3);
    RunCons(s2, z, []);
    RunCons(s1, y, [z]);
    RunCons(s, x, [y, z]);
    ThreeWritten(s.reqs, x, y, z, k);
  }

  lemma RangeData(r: Req, k: nat)
    requires InRange(r, k) && |r.data| == r.nb
    ensures 0 <= k - r.sector < |r.data|
  {
  }

  lemma RunNothing(s: State)
    ensures Run(s, []) && Final(s, []) == s
  {
  }

  lemma ThreeWritten(reqs: seq<Req>, x: Label, y: Label, z: Label, k: nat)
    requires y.WriteSector? && y.k == k && !x.WriteSector? && !z.WriteSector?
    requires y.i < |reqs| && 0 <= k - reqs[y.i].sector < |reqs[y.i].data|
    ensures forall v :: LastWritten(reqs, [x, y, z], k, v) == reqs[y.i].data[k - reqs[y.i].sector]
  {
    forall v ensures LastWritten(reqs, [x, y, z], k, v) == reqs[y.i].data[k - reqs[y.i].sector] {
      var w := reqs[y.i].data[k - reqs[y.i].sector];
      assert [x, y, z][1..] == [y, z] && [y, z][1..] == [z] && [z][1..] == [];
      assert LastWritten(reqs, [z], k, w) == w;
      assert LastWritten(reqs, [y, z], k, v) == w;
    }
  }

  lemma ConsWritten(s: State, l: Label, ls: seq<Label>, k: nat)
    requires Enabled(s, l) && Run(Apply(s, l), ls) && !l.WriteSector?
    ensures Run(s, [l] + ls) && Final(s, [l] + ls) == Final(Apply(s, l), ls)
    ensures forall v :: LastWritten(s.reqs, [l] + ls, k, v) == LastWritten(s.reqs, ls, k, v)
  {
    RunCons(s, l, ls);
    assert ([l] + ls)[1..] == ls;
  }

  lemma RunCons(s: State, l: Label, ls: seq<Label>)
    requires Enabled(s, l) && Run(Apply(s, l), ls)
    ensures Run(s, [l] + ls) && Final(s, [l] + ls) == Final(Apply(s, l), ls)
  {
    assert ([l] + ls)[1..] == ls;
  }

  // ---------------------------------------------------------------- progress

  /** A tracked request never waits: if its driver does not fail, it can go on or end well. */
  lemma TrackedCanStep(s: State, i: nat) returns (l: Label)
    requires Inv(s) && i < |s.phases| && Tracked(s.phases[i])
    ensures Enabled(s, l) && l != End(i, false) && l.i == i
  {
    hide Apart, InRegion;
    assert PhaseOk(s, i);
    var r := s.reqs[i];
    match s.phases[i]
    case Begun => l := Check(i, true);
    case Reading(got) =>
      if k :| InRange(r, k) && k !in got {
        l := ReadSector(i, k);
      } else {
        assert got.Keys == RangeSet(r);
        l := End(i, true);
      }
    case Writing(todo) =>
      if k :| k in todo { l := WriteSector(i, k); } else { l := End(i, true); }
    case Copying(buf) =>
      if k :| InRegion(r, s.cluster, k) && k !in buf { l := CopySector(i, k); } else { l := StartBack(i); }
    case WritingBack(buf, todo) =>
      if k :| k in todo { l := BackSector(i, k); } else { l := End(i, true); }
  }

  lemma ScanEnds(s: State, i: nat, scans: bool) returns (on: Option<nat>)
    ensures Scan(s, i, scans, on)
  {
    if t :| scans && MustWait(s, i, t) {
      on := Some(t);
    } else {
      on := None;
    }
  }

  /** There is no deadlock: while a request is not done, some step can be taken. */
  lemma SomeStepEnabled(s: State, i: nat) returns (l: Label)
    requires Inv(s) && i < |s.phases| && !s.phases[i].Done?
    ensures Enabled(s, l) && !(l.End? && !l.ok)
  {
    assert PhaseOk(s, i);
    if s.phases[i].Idle? {
      var on := ScanEnds(s, i, s.inFlight + CorCount(s.reqs[i]) != 0);
      l := Arrive(i, on);
    } else if s.phases[i].Ready? {
      var on := ScanEnds(s, i, true);
      l := Resume(i, on);
    } else if s.phases[i].Waiting? {
      l := TrackedCanStep(s, s.phases[i].on);
    } else {
      l := TrackedCanStep(s, i);
    }
  }

  /** Steps a request can still take, counting each sector it has to move. */
  function Weight(r: Req, c: nat, p: Phase): nat
    requires c > 0
  {
    var range, region := |RangeSet(r)|, |RegionSet(r, c)|;
    match p
    case Idle => 2 * region + range + 6
    case Ready => 2 * region + range + 5
    case Waiting(_) => 2 * region + range + 5
    case Throttled => 0
    case Begun => 2 * region + range + 4
    case Reading(got) => |RangeSet(r) - got.Keys| + 1
    case Writing(todo) => |todo| + 1
    case Copying(buf) => |RegionSet(r, c) - buf.Keys| + region + 2
    case WritingBack(_, todo) => |todo| + 1
    case Done => 0
  }

  function TotalWeight(s: State, n: nat): nat
    requires s.cluster > 0 && n <= |s.reqs| == |s.phases|
  {
    if n == 0 then 0 else TotalWeight(s, n - 1) + Weight(s.reqs[n - 1], s.cluster, s.phases[n - 1])
  }

  function ReadyCount(ps: seq<Phase>): nat {
    if ps == [] then 0 else ReadyCount(ps[..|ps| - 1]) + (if ps[|ps| - 1].Ready? then 1 else 0)
  }

  /** Bounds the number of steps any run can still take. */
  function Measure(s: State): nat
    requires WellFormed(s)
  {
    TotalWeight(s, |s.reqs|) * (|s.reqs| + 1) + ReadyCount(s.phases)
  }

  lemma NothingYet(a: set<nat>)
    ensures var none: map<nat, Sector> := map[]; a - none.Keys == a
  {
  }

  lemma WeightPlaced(r: Req, c: nat, on: Option<nat>)
    requires c > 0
    ensures var p := Placed(r, on, false);
            if on.Some? then Weight(r, c, p) == Weight(r, c, Ready) else Weight(r, c, p) < Weight(r, c, Ready)
    ensures Weight(r, c, Ready) < Weight(r, c, Idle)
  {
    NothingYet(RangeSet(r));
  }

  lemma WeightCheck(r: Req, c: nat)
    requires c > 0
    ensures Weight(r, c, Copying(map[])) < Weight(r, c, Begun) && Weight(r, c, Reading(map[])) < Weight(r, c, Begun)
  {
    NothingYet(RangeSet(r));
    NothingYet(RegionSet(r, c));
  }

  lemma WeightRead(r: Req, c: nat, got: map<nat, Sector>, k: nat, v: Sector)
    requires c > 0 && InRange(r, k) && k !in got
    ensures Weight(r, c, Reading(got[k := v])) < Weight(r, c, Reading(got))
  {
    hide RegionSet;
    assert RangeSet(r) - got[k := v].Keys == RangeSet(r) - got.Keys - {k};
  }

  lemma WeightCopy(r: Req, c: nat, buf: map<nat, Sector>, k: nat, v: Sector)
    requires c > 0 && InRegion(r, c, k) && k !in buf
    ensures Weight(r, c, Copying(buf[k := v])) < Weight(r, c, Copying(buf))
  {
    hide InRegion;
    assert RegionSet(r, c) - buf[k := v].Keys == RegionSet(r, c) - buf.Keys - {k};
  }

  lemma WeightWrite(r: Req, c: nat, buf: map<nat, Sector>, todo: set<nat>, k: nat)
    requires c > 0 && k in todo
    ensures Weight(r, c, Writing(todo - {k})) < Weight(r, c, Writing(todo))
    ensures Weight(r, c, WritingBack(buf, todo - {k})) < Weight(r, c, WritingBack(buf, todo))
  {
    hide RangeSet, RegionSet, Weight;
    assert |todo - {k}| == |todo| - 1;
    WeightOfWrite(r, c, buf, todo);
    WeightOfWrite(r, c, buf, todo - {k});
  }

  lemma WeightOfWrite(r: Req, c: nat, buf: map<nat, Sector>, todo: set<nat>)
    requires c > 0
    ensures Weight(r, c, Writing(todo)) == Weight(r, c, WritingBack(buf, todo)) == |todo| + 1
  {
    hide RangeSet, RegionSet;
  }

  lemma WeightStartBack(r: Req, c: nat, buf: map<nat, Sector>)
    requires c > 0
    ensures Weight(r, c, WritingBack(buf, RegionSet(r, c))) < Weight(r, c, Copying(buf))
  {
  }

  /** Moving a sector, beginning or ending makes the request lighter; finding a reason to wait again
      leaves its weight. */
  lemma WeightStep(s: State, l: Label)
    requires Inv(s) && Enabled(s, l)
    ensures |Apply(s, l).phases| == |s.phases|
    ensures var before, after := Weight(s.reqs[l.i], s.cluster, s.phases[l.i]), Weight(s.reqs[l.i], s.cluster, Apply(s, l).phases[l.i]);
            if l.Resume? && l.on.Some? then after == before && s.phases[l.i].Ready? && Apply(s, l).phases[l.i].Waiting?
            else after < before
  {
    assert PhaseOk(s, l.i);
    hide InRegion, Inv, Scan, RangeSet, RegionSet, Weight, Finished;
    var r, c, p := s.reqs[l.i], s.cluster, s.phases[l.i];
    match l
    case ReadSector(_, k) => WeightRead(r, c, p.got, k, View(s, k));
    case CopySector(_, k) => WeightCopy(r, c, p.buf, k, View(s, k));
    case WriteSector(_, k) => WeightWrite(r, c, map[], p.todo, k);
    case BackSector(_, k) => WeightWrite(r, c, p.buf, p.todo, k);
    case Begin(_) =>
    case Check(_, _) => WeightCheck(r, c);
    case StartBack(_) => WeightStartBack(r, c, p.buf);
    case Arrive(_, on) => WeightPlaced(r, c, on);
    case Resume(_, on) => WeightPlaced(r, c, on);
    case End(_, _) => WeightDone(r, c, p);
  }

  lemma WeightDone(r: Req, c: nat, p: Phase)
    requires c > 0 && Tracked(p)
    ensures Weight(r, c, Done) < Weight(r, c, p)
  {
  }

  lemma {:induction false} TotalWeightStep(s: State, t: State, i: nat, n: nat)
    requires WellFormed(s) && WellFormed(t) && s.reqs == t.reqs && s.cluster == t.cluster && n <= |s.reqs|
    requires forall j :: 0 <= j < |s.reqs| && j != i ==>
               Weight(s.reqs[j], s.cluster, s.phases[j]) == Weight(s.reqs[j], s.cluster, t.phases[j])
    requires i < |s.reqs|
    ensures TotalWeight(t, n) == TotalWeight(s, n) +
            (if i < n then Weight(s.reqs[i], s.cluster, t.phases[i]) - Weight(s.reqs[i], s.cluster, s.phases[i]) else 0)
  {
    hide Weight;
    if n > 0 { TotalWeightStep(s, t, i, n - 1); }
  }

  lemma {:induction false} ReadyBound(ps: seq<Phase>)
    ensures ReadyCount(ps) <= |ps|
  {
    if ps != [] { ReadyBound(ps[..|ps| - 1]); }
  }

  lemma {:induction false} ReadyUpdate(ps: seq<Phase>, i: nat, p: Phase)
    requires i < |ps| && ps[i].Ready? && !p.Ready?
    ensures ReadyCount(ps[i := p]) == ReadyCount(ps) - 1
  {
    var k := |ps| - 1;
    if i == k {
      assert ps[i := p][..k] == ps[..k];
    } else {
      assert ps[i := p][..k] == ps[..k][i := p];
      ReadyUpdate(ps[..k], i, p);
    }
  }

  lemma OthersWeigh(s: State, l: Label, j: nat)
    requires WellFormed(s) && Enabled(s, l) && j < |s.reqs| && j != l.i
    ensures |Apply(s, l).phases| == |s.phases|
    ensures Weight(s.reqs[j], s.cluster, s.phases[j]) == Weight(s.reqs[j], s.cluster, Apply(s, l).phases[j])
  {
    hide Enabled, Apply, Weight;
    OthersStep(s, l, j);
    WokenWeight(s.reqs[j], s.cluster, s.phases[j], l.i);
  }

  /** Every step uses up some of what is left. */
  lemma StepUsesMeasure(s: State, l: Label)
    requires Inv(s) && Enabled(s, l)
    ensures WellFormed(Apply(s, l)) && Measure(Apply(s, l)) < Measure(s)
  {
    hide *;
    var t, n := Apply(s, l), |s.reqs|;
    StepKeepsInv(s, l);
    InvParts(s);
    InvParts(t);
    WeightStep(s, l);
    ActiveStep(s, l);
    IndexOk(s, l);
    forall j | 0 <= j < |s.reqs| && j != l.i
      ensures Weight(s.reqs[j], s.cluster, s.phases[j]) == Weight(s.reqs[j], s.cluster, t.phases[j])
    {
      OthersWeigh(s, l, j);
    }
    TotalWeightStep(s, t, l.i, n);
    ReadyBound(t.phases);
    if l.Resume? && l.on.Some? {
      ResumeFields(s, l);
      ReadyUpdate(s.phases, l.i, t.phases[l.i]);
    } else {
      MeasureDrop(TotalWeight(s, n), TotalWeight(t, n), n, ReadyCount(s.phases), ReadyCount(t.phases));
    }
    MeasureParts(s);
    MeasureParts(t);
  }

  lemma InvParts(s: State)
    requires Inv(s)
    ensures WellFormed(s) && |s.reqs| == |s.phases| && s.cluster > 0
  {
  }

  lemma MeasureParts(s: State)
    requires WellFormed(s)
    ensures Measure(s) == TotalWeight(s, |s.reqs|) * (|s.reqs| + 1) + ReadyCount(s.phases)
  {
  }

  lemma ResumeFields(s: State, l: Label)
    requires Enabled(s, l) && l.Resume?
    ensures Apply(s, l).phases == s.phases[l.i := Apply(s, l).phases[l.i]]
  {
  }

  lemma MeasureDrop(a: nat, b: nat, n: nat, x: nat, y: nat)
    requires b < a && y <= n
    ensures b * (n + 1) + y < a * (n + 1) + x
  {
    MulMono(b + 1, a, n + 1);
  }

  lemma WokenWeight(r: Req, c: nat, p: Phase, i: nat)
    requires c > 0
    ensures Weight(r, c, Woken(p, i)) == Weight(r, c, p)
  {
  }

  /** Every run is finite, whatever the schedule: it has at most Measure(s) steps. */
  lemma {:induction false} RunIsBounded(s: State, ls: seq<Label>)
    requires Inv(s) && Run(s, ls)
    ensures |ls| <= Measure(s)
    decreases |ls|
  {
    if ls != [] {
      StepKeepsInv(s, ls[0]);
      StepUsesMeasure(s, ls[0]);
      RunIsBounded(Apply(s, ls[0]), ls[1..]);
    }
  }

  /** A run that cannot go on has served every request. */
  lemma StuckMeansDone(s: State, ls: seq<Label>, i: nat)
    requires Init(s) && !s.throttle && Run(s, ls) && i < |s.reqs|
    requires forall l :: !Enabled(Final(s, ls), l)
    ensures |Final(s, ls).phases| == |s.reqs| && Final(s, ls).phases[i] == Done
  {
    InitInv(s);
    RunIsSafe(s, ls, 0);
    RunSameRequests(s, ls);
    var n := Final(s, ls);
    if n.phases[i] != Done {
      var l := SomeStepEnabled(n, i);
      assert false;
    }
  }
}
