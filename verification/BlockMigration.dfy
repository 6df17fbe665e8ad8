/**
 Live block migration (block-migration.c): the source copies its disks in chunks of 2048 sectors
 while the guest keeps writing; the destination replays the stream.

 The state below is the source's. Reads are asynchronous: between submission and completion a
 block's buffer picks up each sector at some moment of its own. A guest write is in flight from
 GuestBegin to GuestEnd, changes sectors of its range at any moments between, and marks its chunks
 dirty only when it ends (block.c:2387). The environment may do any of these between any two calls.
 */
module BlockMigration {
  import opened Options

  type Sector = int

  /** BDRV_SECTORS_PER_DIRTY_CHUNK */
  const CHUNK: int := 2048

  function Min(a: int, b: int): int {
    if a <= b then a else b
  }

  datatype Range = Range(lo: nat, hi: nat)

  /** A BlkMigDevState with what the migration sees of its BlockDriverState. */
  datatype Dev = Dev(disk: seq<Sector>, alloc: set<nat>, dirty: set<nat>, writes: map<nat, Range>,
                     sharedBase: bool, bulkCompleted: bool, cur: nat, completed: nat)

  /** A BlkMigBlock: `buf` holds the sectors read so far. */
  datatype Blk = Blk(dev: nat, sector: nat, buf: seq<Option<Sector>>, ok: bool)

  datatype Record = Block(dev: nat, sector: nat, data: seq<Sector>) | Progress(percent: int) | Eos

  /** What a block that fills less than a chunk is padded with: qemu_malloc leaves it unspecified. */
  const PADDING: Sector := 0

  datatype Mig = Mig(devs: seq<Dev>, inFlight: seq<Blk>, blkList: seq<Blk>, stream: seq<Record>) {
    /** Blocks issued and not yet on the stream. */
    function Pending(): seq<Blk> { inFlight + blkList }
  }

  predicate Covers(b: Blk, dev: nat, s: nat) {
    b.dev == dev && b.sector <= s < b.sector + CHUNK
  }

  predicate Carries(r: Record, dev: nat, s: nat) {
    r.Block? && r.dev == dev && r.sector <= s < r.sector + |r.data|
  }

  /** What the stream says last about a sector. */
  function Sent(stream: seq<Record>, dev: nat, s: nat): Option<Sector> {
    if stream == [] then None
    else
      var r := stream[|stream| - 1];
      if Carries(r, dev, s) then Some(r.data[s - r.sector]) else Sent(stream[..|stream| - 1], dev, s)
  }

  ghost predicate Writing(d: Dev, s: nat) {
    exists id :: id in d.writes && d.writes[id].lo <= s < d.writes[id].hi
  }

  // ---------------------------------------------------------------- the invariant

  /** The base image shared with the destination shows through where nothing is allocated. */
  ghost predicate DevOk(d: Dev, base: seq<Sector>) {
    && |base| == |d.disk|
    && d.cur <= |d.disk| && (d.cur % CHUNK == 0 || d.cur == |d.disk|)
    && (d.bulkCompleted ==> d.cur == |d.disk|)
    && (forall id :: id in d.writes ==> d.writes[id].hi <= |d.disk|)
    && (forall s :: 0 <= s < |d.disk| && s !in d.alloc ==> d.disk[s] == base[s])
  }

  ghost predicate BlkOk(devs: seq<Dev>, b: Blk) {
    && b.dev < |devs| && b.sector % CHUNK == 0
    && b.sector < devs[b.dev].cur
    && |b.buf| == Min(CHUNK, |devs[b.dev].disk| - b.sector)
    && b.sector + |b.buf| <= devs[b.dev].cur
  }

  ghost predicate RecordOk(devs: seq<Dev>, r: Record) {
    r.Block? ==> r.dev < |devs| && r.sector % CHUNK == 0 && |r.data| == CHUNK && r.sector < devs[r.dev].cur
  }

  /** What the destination will hold for a sector that is neither dirty nor being written. */
  ghost predicate Delivered(m: Mig, base: seq<seq<Sector>>, i: nat, s: nat)
    requires i < |m.devs| == |base| && s < |m.devs[i].disk| == |base[i]|
  {
    match Sent(m.stream, i, s)
    case Some(v) => v == m.devs[i].disk[s]
    case None => m.devs[i].sharedBase && m.devs[i].disk[s] == base[i][s]
  }

  /** A sector read into a pending block is the sector now on disk. */
  ghost predicate Fresh(m: Mig, b: Blk, s: nat)
    requires b.dev < |m.devs| && s < |m.devs[b.dev].disk|
  {
    0 <= s - b.sector < |b.buf| ==> b.buf[s - b.sector] == None || b.buf[s - b.sector] == Some(m.devs[b.dev].disk[s])
  }

  /** Sector `s` behind the cursor is dirty, about to be, carried by a pending block that is up to
      date, or already delivered. */
  ghost predicate SectorOk(m: Mig, base: seq<seq<Sector>>, i: nat, s: nat)
    requires i < |m.devs| == |base| && s < |m.devs[i].disk| == |base[i]|
  {
    || s / CHUNK in m.devs[i].dirty
    || Writing(m.devs[i], s)
    || ((forall b :: b in m.Pending() && Covers(b, i, s) ==> Fresh(m, b, s)) &&
        ((exists b :: b in m.Pending() && Covers(b, i, s)) || Delivered(m, base, i, s)))
  }

  /** No chunk is issued twice: pending blocks are of different chunks, none of them sent, and the
      stream of the bulk phase has every chunk at most once. */
  ghost predicate IssuedOnce(m: Mig) {
    var p := m.Pending();
    && SentOnce(m.stream)
    && (forall j, k :: 0 <= j < k < |p| ==> p[j].dev != p[k].dev || p[j].sector != p[k].sector)
    && (forall b, r :: b in p && r in m.stream && r.Block? ==> b.dev != r.dev || b.sector != r.sector)
  }

  ghost predicate SentOnce(stream: seq<Record>) {
    forall j, k :: 0 <= j < k < |stream| && stream[j].Block? && stream[k].Block? ==>
      stream[j].dev != stream[k].dev || stream[j].sector != stream[k].sector
  }

  /** Another record of a chunk that was not sent. */
  lemma SentOnceSnoc(stream: seq<Record>, r: Record)
    requires SentOnce(stream)
    requires forall q :: q in stream && q.Block? && r.Block? ==> q.dev != r.dev || q.sector != r.sector
    ensures SentOnce(stream + [r])
  {
    var t := stream + [r];
    forall j, k | 0 <= j < k < |t| && t[j].Block? && t[k].Block? ensures t[j].dev != t[k].dev || t[j].sector != t[k].sector {
      assert t[j] == stream[j] && stream[j] in stream;
    }
  }

  ghost predicate Shapes(m: Mig, base: seq<seq<Sector>>) {
    && |m.devs| == |base|
    && (forall i :: 0 <= i < |m.devs| ==> DevOk(m.devs[i], base[i]))
    && (forall b :: b in m.Pending() ==> BlkOk(m.devs, b))
    && (forall b :: b in m.blkList && b.ok ==> None !in b.buf)
    && (forall r :: r in m.stream ==> RecordOk(m.devs, r))
  }

  ghost predicate Inv(m: Mig, base: seq<seq<Sector>>) {
    && Shapes(m, base)
    && IssuedOnce(m)
    && forall i, s :: 0 <= i < |m.devs| && 0 <= s < m.devs[i].cur ==> SectorOk(m, base, i, s)
  }

  // ---------------------------------------------------------------- what the guest does

  function GuestBegin(d: Dev, id: nat, w: Range): Dev {
    d.(writes := d.writes[id := w])
  }

  function GuestTouch(d: Dev, s: nat, v: Sector): Dev
    requires s < |d.disk|
  {
    d.(disk := d.disk[s := v], alloc := d.alloc + {s})
  }

  predicate Meets(c: nat, w: Range) {
    w.lo < w.hi && w.lo / CHUNK <= c <= (w.hi - 1) / CHUNK
  }

  /** The chunks a range touches. */
  function ChunksOf(w: Range): (chunks: set<nat>)
    ensures forall s: nat :: w.lo <= s < w.hi ==> s / CHUNK in chunks
  {
    assert forall s: nat :: w.lo <= s < w.hi ==> Meets(s / CHUNK, w);
    set c: nat | 0 <= c <= w.hi && Meets(c, w)
  }

  /** bdrv_set_dirty (hbitmap_set) on the range of the write. */
  function GuestEnd(d: Dev, id: nat): Dev
    requires id in d.writes
  {
    var w := d.writes[id];
    d.(writes := d.writes - {id},
       dirty := d.dirty + ChunksOf(w))
  }

  lemma GuestBeginKeeps(m: Mig, base: seq<seq<Sector>>, i: nat, id: nat, w: Range)
    requires Inv(m, base) && i < |m.devs| && id !in m.devs[i].writes && w.hi <= |m.devs[i].disk|
    ensures Inv(m.(devs := m.devs[i := GuestBegin(m.devs[i], id, w)]), base)
  {
    var n := m.(devs := m.devs[i := GuestBegin(m.devs[i], id, w)]);
    assert n.Pending() == m.Pending();
    forall j, s | 0 <= j < |n.devs| && 0 <= s < n.devs[j].cur ensures SectorOk(n, base, j, s) {
      assert SectorOk(m, base, j, s);
      if Writing(m.devs[j], s) {
        var w :| w in m.devs[j].writes && m.devs[j].writes[w].lo <= s < m.devs[j].writes[w].hi;
        assert w in n.devs[j].writes && n.devs[j].writes[w] == m.devs[j].writes[w];
      }
    }
  }

  lemma GuestTouchKeeps(m: Mig, base: seq<seq<Sector>>, i: nat, id: nat, t: nat, v: Sector)
    requires Inv(m, base) && i < |m.devs| && id in m.devs[i].writes
    requires m.devs[i].writes[id].lo <= t < m.devs[i].writes[id].hi
    ensures t < |m.devs[i].disk|
    ensures Inv(m.(devs := m.devs[i := GuestTouch(m.devs[i], t, v)]), base)
  {
    assert DevOk(m.devs[i], base[i]);
    var n := m.(devs := m.devs[i := GuestTouch(m.devs[i], t, v)]);
    assert n.Pending() == m.Pending();
    forall j, s | 0 <= j < |n.devs| && 0 <= s < n.devs[j].cur ensures SectorOk(n, base, j, s) {
      assert SectorOk(m, base, j, s);
      assert Writing(n.devs[j], s) <==> Writing(m.devs[j], s);
      if j == i && s == t {
        assert id in n.devs[j].writes;
        assert Writing(n.devs[j], s);
      }
    }
  }

  lemma GuestEndKeeps(m: Mig, base: seq<seq<Sector>>, i: nat, id: nat)
    requires Inv(m, base) && i < |m.devs| && id in m.devs[i].writes
    ensures Inv(m.(devs := m.devs[i := GuestEnd(m.devs[i], id)]), base)
  {
    var n := m.(devs := m.devs[i := GuestEnd(m.devs[i], id)]);
    assert n.Pending() == m.Pending();
    forall j, s | 0 <= j < |n.devs| && 0 <= s < n.devs[j].cur ensures SectorOk(n, base, j, s) {
      assert SectorOk(m, base, j, s);
      if Writing(m.devs[j], s) && !Writing(n.devs[j], s) {
        var w :| w in m.devs[j].writes && m.devs[j].writes[w].lo <= s < m.devs[j].writes[w].hi;
        assert w in n.devs[j].writes <==> !(j == i && w == id);
        assert s / CHUNK in n.devs[j].dirty;
      }
    }
  }

  // ---------------------------------------------------------------- blocks on their way

  lemma SentSnoc(stream: seq<Record>, r: Record, dev: nat, s: nat)
    ensures Sent(stream + [r], dev, s) ==
            if Carries(r, dev, s) then Some(r.data[s - r.sector]) else Sent(stream, dev, s)
  {
    assert (stream + [r])[..|stream|] == stream;
  }

  lemma {:induction false} SentNothing(stream: seq<Record>, dev: nat, s: nat)
    requires forall r :: r in stream ==> !Carries(r, dev, s)
    ensures Sent(stream, dev, s) == None
  {
    if stream != [] { SentNothing(stream[..|stream| - 1], dev, s); }
  }

  /** The asynchronous read picks up one sector of the block. */
  function Sampled(m: Mig, j: nat, k: nat): Mig
    requires j < |m.inFlight| && k < |m.inFlight[j].buf|
    requires m.inFlight[j].dev < |m.devs| && m.inFlight[j].sector + k < |m.devs[m.inFlight[j].dev].disk|
  {
    var b := m.inFlight[j];
    m.(inFlight := m.inFlight[j := b.(buf := b.buf[k := Some(m.devs[b.dev].disk[b.sector + k])])])
  }

  /** Replacing a pending block by one of the same chunk. */
  ghost predicate Replaces(m: Mig, n: Mig, j: nat, b: Blk) {
    && j < |m.Pending()| && n.devs == m.devs && n.stream == m.stream
    && n.Pending() == m.Pending()[j := b]
    && b.dev == m.Pending()[j].dev && b.sector == m.Pending()[j].sector
  }

  lemma ReplaceSector(m: Mig, n: Mig, base: seq<seq<Sector>>, j: nat, b: Blk, i: nat, s: nat)
    requires |m.devs| == |base| && i < |base| && s < |m.devs[i].disk| == |base[i]|
    requires forall p :: p in m.Pending() ==> BlkOk(m.devs, p)
    requires Replaces(m, n, j, b) && BlkOk(m.devs, b) && SectorOk(m, base, i, s)
    requires Covers(b, i, s) && Fresh(m, m.Pending()[j], s) ==> Fresh(m, b, s)
    ensures SectorOk(n, base, i, s)
  {
    var p, q := m.Pending(), n.Pending();
    assert q[j] == b;
    if !(s / CHUNK in m.devs[i].dirty || Writing(m.devs[i], s)) {
      forall c | c in q && Covers(c, i, s) ensures Fresh(n, c, s) {
        var k :| 0 <= k < |q| && q[k] == c;
        if k == j { assert p[j] in p && Covers(p[j], i, s); } else { assert p[k] == c && c in p; }
      }
      if c :| c in p && Covers(c, i, s) {
        var k :| 0 <= k < |p| && p[k] == c;
        assert q[k] in q && Covers(q[k], i, s);
      } else {
        assert Delivered(n, base, i, s);
      }
    }
  }

  lemma SampledKeeps(m: Mig, base: seq<seq<Sector>>, j: nat, k: nat)
    requires Inv(m, base) && j < |m.inFlight| && k < |m.inFlight[j].buf|
    ensures m.inFlight[j].dev < |m.devs| && m.inFlight[j].sector + k < |m.devs[m.inFlight[j].dev].disk|
    ensures Inv(Sampled(m, j, k), base)
  {
    assert m.inFlight[j] == m.Pending()[j] && m.Pending()[j] in m.Pending();
    assert BlkOk(m.devs, m.inFlight[j]);
    var n := Sampled(m, j, k);
    var b := n.inFlight[j];
    assert n.Pending() == m.Pending()[j := b];
    assert Shapes(n, base) by {
      forall c | c in n.Pending() ensures BlkOk(n.devs, c) {
        assert c == b || c in m.Pending();
      }
    }
    forall i, s | 0 <= i < |n.devs| && 0 <= s < n.devs[i].cur ensures SectorOk(n, base, i, s) {
      ReplaceSector(m, n, base, j, b, i, s);
    }
    SameChunksIssuedOnce(m, n);
  }

  lemma SameChunksIssuedOnce(m: Mig, n: Mig)
    requires IssuedOnce(m) && n.stream == m.stream && |n.Pending()| == |m.Pending()|
    requires forall j :: 0 <= j < |m.Pending()| ==>
               n.Pending()[j].dev == m.Pending()[j].dev && n.Pending()[j].sector == m.Pending()[j].sector
    ensures IssuedOnce(n)
  {
    var p, q := m.Pending(), n.Pending();
    forall b, r | b in q && r in n.stream && r.Block? ensures b.dev != r.dev || b.sector != r.sector {
      var j :| 0 <= j < |q| && q[j] == b;
      assert p[j] in p;
    }
  }

  /** blk_mig_read_cb: the read has ended and the block joins the list. */
  function Completed(m: Mig, j: nat, ok: bool): Mig
    requires j < |m.inFlight|
  {
    m.(inFlight := m.inFlight[..j] + m.inFlight[j + 1..], blkList := m.blkList + [m.inFlight[j].(ok := ok)])
  }

  lemma CompletedKeeps(m: Mig, base: seq<seq<Sector>>, j: nat, ok: bool)
    requires Inv(m, base) && j < |m.inFlight| && (ok ==> None !in m.inFlight[j].buf)
    ensures Inv(Completed(m, j, ok), base)
  {
    var n := Completed(m, j, ok);
    var p, q, b := m.Pending(), n.Pending(), m.inFlight[j].(ok := ok);
    assert q == p[..j] + p[j + 1..] + [b];
    assert p[j] == m.inFlight[j];
    MovedKeeps(m, n, base, j, b);
  }

  /** Taking a block out of its place in the sequence and putting `b` at the end. */
  lemma MovedBlocks(p: seq<Blk>, q: seq<Blk>, j: nat, b: Blk)
    requires j < |p| && q == p[..j] + p[j + 1..] + [b]
    ensures b in q && (forall c :: c in q ==> c in p || c == b) && (forall c :: c in p ==> c in q || c == p[j])
    ensures forall k :: 0 <= k < |q| ==> q[k] == if k < j then p[k] else if k < |p| - 1 then p[k + 1] else b
  {
    assert q[|p| - 1] == b;
    forall c | c in p ensures c in q || c == p[j] {
      var k :| 0 <= k < |p| && p[k] == c;
      if k != j { assert c == q[if k < j then k else k - 1]; }
    }
  }

  lemma MovedIssuedOnce(m: Mig, n: Mig, j: nat, b: Blk)
    requires IssuedOnce(m) && n.stream == m.stream && j < |m.Pending()|
    requires n.Pending() == m.Pending()[..j] + m.Pending()[j + 1..] + [b]
    requires b == m.Pending()[j].(ok := b.ok)
    ensures IssuedOnce(n)
  {
    MovedBlocks(m.Pending(), n.Pending(), j, b);
    assert m.Pending()[j] in m.Pending();
  }

  lemma MovedKeeps(m: Mig, n: Mig, base: seq<seq<Sector>>, j: nat, b: Blk)
    requires Inv(m, base) && n.devs == m.devs && n.stream == m.stream && j < |m.Pending()|
    requires n.Pending() == m.Pending()[..j] + m.Pending()[j + 1..] + [b]
    requires b == m.Pending()[j].(ok := b.ok)
    requires forall c :: c in n.blkList && c.ok ==> None !in c.buf
    ensures Inv(n, base)
  {
    MovedIssuedOnce(m, n, j, b);
    MovedBlocks(m.Pending(), n.Pending(), j, b);
    hide IssuedOnce, SectorOk, DevOk, RecordOk;
    assert m.Pending()[j] in m.Pending();
    assert forall c :: c in n.Pending() ==> BlkOk(n.devs, c);
    assert forall i :: 0 <= i < |n.devs| ==> DevOk(n.devs[i], base[i]);
    forall i, s | 0 <= i < |n.devs| && 0 <= s < n.devs[i].cur ensures SectorOk(n, base, i, s) {
      DiskBound(m, base, i);
      MovedSector(m, n, base, m.Pending()[j], b, i, s);
    }
  }

  lemma DiskBound(m: Mig, base: seq<seq<Sector>>, i: nat)
    requires Shapes(m, base) && i < |m.devs|
    ensures m.devs[i].cur <= |m.devs[i].disk| == |base[i]|
  {
    assert DevOk(m.devs[i], base[i]);
  }

  lemma MovedSector(m: Mig, n: Mig, base: seq<seq<Sector>>, was: Blk, b: Blk, i: nat, s: nat)
    requires |m.devs| == |base| && i < |base| && s < |m.devs[i].disk| == |base[i]|
    requires n.devs == m.devs && n.stream == m.stream
    requires forall p :: p in m.Pending() ==> BlkOk(m.devs, p)
    requires was in m.Pending() && b in n.Pending() && b == was.(ok := b.ok)
    requires forall c :: c in n.Pending() ==> c in m.Pending() || c == b
    requires forall c :: c in m.Pending() ==> c in n.Pending() || c == was
    requires SectorOk(m, base, i, s)
    ensures SectorOk(n, base, i, s)
  {
  }

  /** The whole chunk as blk_send puts it on the stream. */
  function Payload(buf: seq<Option<Sector>>): (data: seq<Sector>)
    ensures |data| == CHUNK
    ensures forall k :: 0 <= k < |buf| && k < CHUNK && buf[k].Some? ==> data[k] == buf[k].value
  {
    seq(CHUNK, k requires 0 <= k => if k < |buf| && buf[k].Some? then buf[k].value else PADDING)
  }

  /** One turn of flush_blks: blk_send on the block at the head of the list. */
  function Flushed(m: Mig): Mig
    requires m.blkList != []
  {
    var b := m.blkList[0];
    m.(blkList := m.blkList[1..], stream := m.stream + [Block(b.dev, b.sector, Payload(b.buf))])
  }

  lemma FlushedBlocks(m: Mig)
    requires m.blkList != []
    ensures var p, q, j := m.Pending(), Flushed(m).Pending(), |m.inFlight|;
            j < |p| && p[j] == m.blkList[0] && q == p[..j] + p[j + 1..] &&
            (forall c :: c in q ==> c in p) && (forall c :: c in p ==> c in q || c == p[j])
    ensures forall r :: r in Flushed(m).stream ==>
              r in m.stream || r == Block(m.blkList[0].dev, m.blkList[0].sector, Payload(m.blkList[0].buf))
  {
    var p, q, j := m.Pending(), Flushed(m).Pending(), |m.inFlight|;
    forall c | c in p ensures c in q || c == p[j] {
      var k :| 0 <= k < |p| && p[k] == c;
      if k != j { assert c == q[if k < j then k else k - 1]; }
    }
  }

  lemma DropBlock(p: seq<Blk>, q: seq<Blk>, j: nat)
    requires j < |p| && q == p[..j] + p[j + 1..]
    requires forall i, k :: 0 <= i < k < |p| ==> p[i].dev != p[k].dev || p[i].sector != p[k].sector
    ensures forall i, k :: 0 <= i < k < |q| ==> q[i].dev != q[k].dev || q[i].sector != q[k].sector
    ensures forall b :: b in q ==> b.dev != p[j].dev || b.sector != p[j].sector
  {
    assert forall k :: 0 <= k < |q| ==> q[k] == if k < j then p[k] else p[k + 1];
  }

  lemma FlushedIssuedOnce(m: Mig)
    requires IssuedOnce(m) && m.blkList != []
    ensures IssuedOnce(Flushed(m))
  {
    var p, q, j := m.Pending(), Flushed(m).Pending(), |m.inFlight|;
    FlushedBlocks(m);
    DropBlock(p, q, j);
    hide Payload;
    forall b, r | b in q && r in Flushed(m).stream && r.Block? ensures b.dev != r.dev || b.sector != r.sector {
      assert b in p;
    }
  }

  lemma FlushedSector(m: Mig, base: seq<seq<Sector>>, i: nat, s: nat)
    requires |m.devs| == |base| && i < |base| && s < m.devs[i].cur <= |m.devs[i].disk| == |base[i]|
    requires m.blkList != [] && m.blkList[0].ok && None !in m.blkList[0].buf
    requires forall b :: b in m.Pending() ==> BlkOk(m.devs, b)
    requires SectorOk(m, base, i, s)
    ensures SectorOk(Flushed(m), base, i, s)
  {
    var n, b := Flushed(m), m.blkList[0];
    var r := Block(b.dev, b.sector, Payload(b.buf));
    FlushedBlocks(m);
    SentSnoc(m.stream, r, i, s);
    assert b in m.Pending() && BlkOk(m.devs, b);
    if Covers(b, i, s) {
      assert s - b.sector < |b.buf| && b.buf[s - b.sector].Some?;
      assert Sent(n.stream, i, s) == Some(b.buf[s - b.sector].value);
    }
  }

  lemma FlushedKeeps(m: Mig, base: seq<seq<Sector>>)
    requires Inv(m, base) && m.blkList != [] && m.blkList[0].ok
    ensures Inv(Flushed(m), base)
  {
    var n := Flushed(m);
    assert m.blkList[0] in m.blkList;
    FlushedIssuedOnce(m);
    FlushedBlocks(m);
    hide IssuedOnce, SectorOk, DevOk;
    assert forall i :: 0 <= i < |n.devs| ==> DevOk(n.devs[i], base[i]);
    assert m.blkList[0] in m.Pending() && BlkOk(m.devs, m.blkList[0]);
    assert forall b :: b in n.blkList ==> b in m.blkList;
    assert Shapes(n, base);
    forall i, s | 0 <= i < |n.devs| && 0 <= s < n.devs[i].cur ensures SectorOk(n, base, i, s) {
      DiskBound(m, base, i);
      FlushedSector(m, base, i, s);
    }
  }

  // ---------------------------------------------------------------- the bulk phase

  /** The cursor after skipping `from` sectors known to be unallocated, rounded down to a chunk. */
  function ChunkStart(from: nat): nat {
    from / CHUNK * CHUNK
  }

  /** mig_save_device_bulk found something to transfer at `from`. */
  ghost predicate BulkAt(d: Dev, from: nat) {
    && d.cur <= from < |d.disk| && (from > d.cur ==> d.sharedBase)
    && forall s :: d.cur <= s < from ==> s !in d.alloc
  }

  function BulkDev(d: Dev, from: nat): Dev
    requires from < |d.disk|
  {
    var start := ChunkStart(from);
    var next := start + Min(CHUNK, |d.disk| - start);
    d.(dirty := d.dirty - {from / CHUNK}, cur := next, completed := from)
  }

  /** The asynchronous form: the block is submitted with nothing read yet. */
  function BulkIssued(m: Mig, i: nat, from: nat): Mig
    requires i < |m.devs| && from < |m.devs[i].disk|
  {
    var d, start := m.devs[i], ChunkStart(from);
    m.(devs := m.devs[i := BulkDev(d, from)],
       inFlight := m.inFlight + [Blk(i, start, seq(Min(CHUNK, |d.disk| - start), _ => None), false)])
  }

  /** The synchronous form: the block is read and sent at once. */
  function BulkSent(m: Mig, i: nat, from: nat): Mig
    requires i < |m.devs| && from < |m.devs[i].disk|
  {
    m.(devs := m.devs[i := BulkDev(m.devs[i], from)],
       stream := m.stream + [Block(i, ChunkStart(from), ChunkData(m.devs[i].disk, ChunkStart(from)))])
  }

  /** The chunk at `start` as bdrv_read and blk_send deliver it. */
  function ChunkData(disk: seq<Sector>, start: nat): (data: seq<Sector>)
    ensures |data| == CHUNK
    ensures forall k :: 0 <= k < CHUNK && start + k < |disk| ==> data[k] == disk[start + k]
  {
    seq(CHUNK, k requires 0 <= k => if start + k < |disk| then disk[start + k] else PADDING)
  }

  /** Nothing on its way or sent concerns the sectors from the cursor on. */
  lemma AheadUntouched(m: Mig, base: seq<seq<Sector>>, i: nat, s: nat)
    requires Shapes(m, base) && i < |m.devs| && m.devs[i].cur <= s && m.devs[i].cur < |m.devs[i].disk|
    ensures forall b :: b in m.Pending() ==> !Covers(b, i, s)
    ensures Sent(m.stream, i, s) == None
  {
    assert DevOk(m.devs[i], base[i]);
    forall r | r in m.stream ensures !Carries(r, i, s) {
      assert RecordOk(m.devs, r);
    }
    SentNothing(m.stream, i, s);
    forall b | b in m.Pending() ensures !Covers(b, i, s) {
      assert BlkOk(m.devs, b);
    }
  }

  lemma BulkDevOk(d: Dev, base: seq<Sector>, from: nat)
    requires DevOk(d, base) && BulkAt(d, from)
    ensures DevOk(BulkDev(d, from), base) && !d.bulkCompleted
    ensures d.cur <= ChunkStart(from) <= from < BulkDev(d, from).cur <= ChunkStart(from) + CHUNK
    ensures ChunkStart(from) % CHUNK == 0 && ChunkStart(from) / CHUNK == from / CHUNK
  {
  }

  /** The shapes after the cursor of one device moved on. */
  lemma ForwardShapes(m: Mig, base: seq<seq<Sector>>, i: nat, d: Dev)
    requires Shapes(m, base) && i < |m.devs| && DevOk(d, base[i])
    requires d.cur >= m.devs[i].cur && d.disk == m.devs[i].disk
    ensures Shapes(m.(devs := m.devs[i := d]), base)
  {
    var n := m.(devs := m.devs[i := d]);
    assert n.Pending() == m.Pending();
    forall b | b in n.Pending() ensures BlkOk(n.devs, b) { assert BlkOk(m.devs, b); }
    forall r | r in n.stream ensures RecordOk(n.devs, r) { assert RecordOk(m.devs, r); }
  }

  /** A sector behind the old cursor is not affected by what bulk does at or after it. */
  lemma BehindOk(m: Mig, n: Mig, base: seq<seq<Sector>>, i: nat, j: nat, s: nat)
    requires Shapes(m, base) && Shapes(n, base) && |m.devs| == |n.devs| && i < |m.devs| && j < |m.devs|
    requires s < m.devs[j].cur && SectorOk(m, base, j, s)
    requires forall k :: 0 <= k < |m.devs| ==>
               n.devs[k].disk == m.devs[k].disk && n.devs[k].writes == m.devs[k].writes &&
               n.devs[k].sharedBase == m.devs[k].sharedBase
    requires s / CHUNK in m.devs[j].dirty ==> s / CHUNK in n.devs[j].dirty
    requires forall b :: b in m.Pending() ==> b in n.Pending()
    requires forall b :: b in n.Pending() && Covers(b, j, s) ==> b in m.Pending()
    requires Sent(n.stream, j, s) == Sent(m.stream, j, s)
    ensures s < |n.devs[j].disk| && SectorOk(n, base, j, s)
  {
    hide BlkOk, RecordOk, Sent, Covers, Fresh, Shapes;
    DiskBound(m, base, j);
    DiskBound(n, base, j);
    if !(s / CHUNK in m.devs[j].dirty || Writing(m.devs[j], s)) {
      FreshSame(m, n, base, j, s);
    }
  }

  lemma FreshSame(m: Mig, n: Mig, base: seq<seq<Sector>>, j: nat, s: nat)
    requires Shapes(m, base) && |m.devs| == |n.devs| && j < |m.devs| && s < |m.devs[j].disk|
    requires forall k :: 0 <= k < |m.devs| ==> n.devs[k].disk == m.devs[k].disk
    requires forall b :: b in m.Pending() && Covers(b, j, s) ==> Fresh(m, b, s)
    requires forall b :: b in n.Pending() && Covers(b, j, s) ==> b in m.Pending()
    ensures forall b :: b in n.Pending() && Covers(b, j, s) ==> Fresh(n, b, s)
  {
  }

  lemma IssuedShapes(m: Mig, base: seq<seq<Sector>>, i: nat, from: nat)
    requires Shapes(m, base) && IssuedOnce(m) && i < |m.devs| && BulkAt(m.devs[i], from)
    ensures Shapes(BulkIssued(m, i, from), base) && IssuedOnce(BulkIssued(m, i, from))
  {
    var n, d := BulkIssued(m, i, from), m.devs[i];
    var k, p := |m.inFlight|, m.Pending();
    var b := n.inFlight[k];
    assert DevOk(d, base[i]);
    BulkDevOk(d, base[i], from);
    ForwardShapes(m, base, i, n.devs[i]);
    InsertedBlocks(m.inFlight, m.blkList, b);
    assert n.Pending() == p[..k] + [b] + p[k..];
    AheadUntouched(m, base, i, b.sector);
    forall c | c in p ensures c.dev != b.dev || c.sector != b.sector { assert !Covers(c, i, b.sector); }
    forall r | r in m.stream && r.Block? ensures b.dev != r.dev || b.sector != r.sector {
      assert RecordOk(m.devs, r);
    }
    assert BlkOk(n.devs, b);
    InsertedIssuedOnce(m, n, k, b);
  }

  lemma InsertedBlocks(a: seq<Blk>, c: seq<Blk>, b: Blk)
    ensures var p, q := a + c, a + [b] + c;
            q == p[..|a|] + [b] + p[|a|..] && b in q && (forall x :: x in p ==> x in q) &&
            (forall x :: x in q ==> x in p || x == b)
  {
    assert (a + [b] + c)[|a|] == b;
  }

  lemma InsertedIssuedOnce(m: Mig, n: Mig, k: nat, b: Blk)
    requires IssuedOnce(m) && n.stream == m.stream && k <= |m.Pending()|
    requires n.Pending() == m.Pending()[..k] + [b] + m.Pending()[k..]
    requires forall c :: c in m.Pending() ==> c.dev != b.dev || c.sector != b.sector
    requires forall r :: r in m.stream && r.Block? ==> b.dev != r.dev || b.sector != r.sector
    ensures IssuedOnce(n)
  {
    var p, q := m.Pending(), n.Pending();
    assert forall j :: 0 <= j < |q| ==> q[j] == if j < k then p[j] else if j == k then b else p[j - 1];
  }

  lemma BulkIssuedKeeps(m: Mig, base: seq<seq<Sector>>, i: nat, from: nat)
    requires Inv(m, base) && i < |m.devs| && BulkAt(m.devs[i], from)
    ensures Inv(BulkIssued(m, i, from), base)
  {
    var n, d := BulkIssued(m, i, from), m.devs[i];
    var b := n.inFlight[|m.inFlight|];
    assert DevOk(d, base[i]);
    BulkDevOk(d, base[i], from);
    IssuedShapes(m, base, i, from);
    InsertedBlocks(m.inFlight, m.blkList, b);
    hide IssuedOnce, SectorOk, BlkOk, RecordOk;
    forall j, s | 0 <= j < |n.devs| && 0 <= s < n.devs[j].cur ensures SectorOk(n, base, j, s) {
      if s < m.devs[j].cur {
        assert !Covers(b, j, s);
        BehindOk(m, n, base, i, j, s);
      } else {
        BulkNewOk(m, n, base, i, from, s);
      }
    }
  }

  /** The sectors between the old and the new cursor: skipped, or in the block just issued or sent. */
  lemma BulkNewOk(m: Mig, n: Mig, base: seq<seq<Sector>>, i: nat, from: nat, s: nat)
    requires Shapes(m, base) && Shapes(n, base) && |m.devs| == |n.devs|
    requires i < |m.devs| && BulkAt(m.devs[i], from)
    requires n.devs[i] == BulkDev(m.devs[i], from) && m.devs[i].cur <= s < n.devs[i].cur
    requires n == BulkIssued(m, i, from) || n == BulkSent(m, i, from)
    ensures s < |n.devs[i].disk| && SectorOk(n, base, i, s)
  {
    var d := m.devs[i];
    assert DevOk(d, base[i]) && DevOk(n.devs[i], base[i]);
    BulkDevOk(d, base[i], from);
    AheadUntouched(m, base, i, s);
    if n == BulkIssued(m, i, from) {
      var b := n.inFlight[|m.inFlight|];
      InsertedBlocks(m.inFlight, m.blkList, b);
      assert n.stream == m.stream;
      if s >= ChunkStart(from) { assert Covers(b, i, s) && Fresh(n, b, s); }
    } else {
      assert n.Pending() == m.Pending();
      SentSnoc(m.stream, n.stream[|m.stream|], i, s);
    }
    assert s < ChunkStart(from) ==> Delivered(n, base, i, s);
  }

  lemma BulkSentKeeps(m: Mig, base: seq<seq<Sector>>, i: nat, from: nat)
    requires Inv(m, base) && i < |m.devs| && BulkAt(m.devs[i], from)
    ensures Inv(BulkSent(m, i, from), base)
  {
    var n, d := BulkSent(m, i, from), m.devs[i];
    var r := n.stream[|m.stream|];
    assert DevOk(d, base[i]);
    BulkDevOk(d, base[i], from);
    SentShapes(m, base, i, from);
    assert n.Pending() == m.Pending();
    hide IssuedOnce, SectorOk, BlkOk, RecordOk;
    forall j, s | 0 <= j < |n.devs| && 0 <= s < n.devs[j].cur ensures SectorOk(n, base, j, s) {
      if s < m.devs[j].cur {
        SentSnoc(m.stream, r, j, s);
        BehindOk(m, n, base, i, j, s);
      } else {
        BulkNewOk(m, n, base, i, from, s);
      }
    }
  }

  lemma SentShapes(m: Mig, base: seq<seq<Sector>>, i: nat, from: nat)
    requires Shapes(m, base) && IssuedOnce(m) && i < |m.devs| && BulkAt(m.devs[i], from)
    ensures Shapes(BulkSent(m, i, from), base) && IssuedOnce(BulkSent(m, i, from))
  {
    var n, d := BulkSent(m, i, from), m.devs[i];
    var r := n.stream[|m.stream|];
    assert DevOk(d, base[i]);
    BulkDevOk(d, base[i], from);
    ForwardShapes(m, base, i, n.devs[i]);
    assert n.Pending() == m.Pending();
    AheadUntouched(m, base, i, r.sector);
    assert forall q :: q in n.stream ==> q in m.stream || q == r;
    assert RecordOk(n.devs, r);
    forall b | b in n.Pending() ensures b.dev != r.dev || b.sector != r.sector { assert !Covers(b, i, r.sector); }
    forall q | q in m.stream && q.Block? ensures q.dev != r.dev || q.sector != r.sector { assert RecordOk(m.devs, q); }
    SentOnceSnoc(m.stream, r);
  }

  /** mig_save_device_bulk found nothing left to transfer. */
  function BulkFinished(m: Mig, i: nat): Mig
    requires i < |m.devs|
  {
    var d := m.devs[i];
    m.(devs := m.devs[i := d.(cur := |d.disk|, completed := |d.disk|)])
  }

  lemma BulkFinishedKeeps(m: Mig, base: seq<seq<Sector>>, i: nat)
    requires Inv(m, base) && i < |m.devs|
    requires m.devs[i].cur < |m.devs[i].disk| ==> m.devs[i].sharedBase
    requires forall s :: m.devs[i].cur <= s < |m.devs[i].disk| ==> s !in m.devs[i].alloc
    ensures Inv(BulkFinished(m, i), base)
  {
    var n, d := BulkFinished(m, i), m.devs[i];
    assert DevOk(d, base[i]);
    ForwardShapes(m, base, i, n.devs[i]);
    assert n.Pending() == m.Pending();
    assert IssuedOnce(n);
    hide IssuedOnce, SectorOk, BlkOk, RecordOk, Shapes;
    forall j, s | 0 <= j < |n.devs| && 0 <= s < n.devs[j].cur ensures SectorOk(n, base, j, s) {
      DiskBound(n, base, j);
      if s < m.devs[j].cur {
        BehindOk(m, n, base, i, j, s);
      } else {
        SkippedOk(m, n, base, i, s);
      }
    }
  }

  lemma SkippedOk(m: Mig, n: Mig, base: seq<seq<Sector>>, i: nat, s: nat)
    requires Shapes(m, base) && Shapes(n, base) && i < |m.devs| && n == BulkFinished(m, i)
    requires m.devs[i].cur <= s < |m.devs[i].disk| && m.devs[i].sharedBase && s !in m.devs[i].alloc
    ensures s < |base[i]| && SectorOk(n, base, i, s)
  {
    assert DevOk(m.devs[i], base[i]);
    AheadUntouched(m, base, i, s);
    assert n.Pending() == m.Pending();
    assert Delivered(n, base, i, s);
  }

  /** Progress bookkeeping does not matter to the invariant. */
  lemma BookkeepingKeeps(m: Mig, base: seq<seq<Sector>>, i: nat, completed: nat, bulkCompleted: bool)
    requires Inv(m, base) && i < |m.devs|
    requires bulkCompleted ==> m.devs[i].cur == |m.devs[i].disk|
    ensures Inv(m.(devs := m.devs[i := m.devs[i].(completed := completed, bulkCompleted := bulkCompleted)]), base)
  {
    var n := m.(devs := m.devs[i := m.devs[i].(completed := completed, bulkCompleted := bulkCompleted)]);
    assert DevOk(n.devs[i], base[i]) by { assert DevOk(m.devs[i], base[i]); }
    ForwardShapes(m, base, i, n.devs[i]);
    assert n.Pending() == m.Pending();
    assert IssuedOnce(n);
    hide IssuedOnce, SectorOk, BlkOk, RecordOk, Shapes;
    forall j, s | 0 <= j < |n.devs| && 0 <= s < n.devs[j].cur ensures SectorOk(n, base, j, s) {
      DiskBound(n, base, j);
      BehindOk(m, n, base, i, j, s);
    }
  }

  /** A record that is not a block says nothing about any sector. */
  lemma RemarkKeeps(m: Mig, base: seq<seq<Sector>>, r: Record)
    requires Inv(m, base) && !r.Block?
    ensures Inv(m.(stream := m.stream + [r]), base)
  {
    var n := m.(stream := m.stream + [r]);
    assert n.Pending() == m.Pending();
    assert forall q :: q in n.stream ==> q in m.stream || q == r;
    forall j, s | 0 <= j < |n.devs| && 0 <= s < n.devs[j].cur ensures SectorOk(n, base, j, s) {
      DiskBound(m, base, j);
      SentSnoc(m.stream, r, j, s);
      assert SectorOk(m, base, j, s);
    }
  }

  // ---------------------------------------------------------------- resending dirty chunks

  /** One dirty chunk read and sent by blk_mig_save_dirty_blocks. */
  function DirtySent(m: Mig, i: nat, start: nat): Mig
    requires i < |m.devs|
  {
    m.(devs := m.devs[i := m.devs[i].(dirty := m.devs[i].dirty - {start / CHUNK})],
       stream := m.stream + [Block(i, start, ChunkData(m.devs[i].disk, start))])
  }

  /** A record that is a block lies on its disk as a whole. */
  ghost predicate LiesOnDisk(devs: seq<Dev>, r: Record) {
    r.Block? ==> r.dev < |devs| && r.sector + |r.data| <= |devs[r.dev].disk|
  }

  /** The scan of blk_mig_save_dirty_blocks, now at sector `start` of device `i`, has passed `s`. */
  predicate Passed(m: Mig, i: nat, start: nat, j: nat, s: nat) {
    j < |m.devs| && s < m.devs[j].cur && (j < i || (j == i && s < start))
  }

  /** What the scan that began in `m` has done so far: the dirty chunks passed are on the stream as
      they are on disk and are clean; nothing else changed. */
  ghost predicate Resending(m: Mig, n: Mig, i: nat, start: nat) {
    && n == m.(devs := n.devs, stream := n.stream) && |n.devs| == |m.devs|
    && (forall j :: 0 <= j < |m.devs| ==> n.devs[j] == m.devs[j].(dirty := n.devs[j].dirty))
    && m.stream <= n.stream
    && (forall k :: |m.stream| <= k < |n.stream| ==> RecordOk(m.devs, n.stream[k]) && LiesOnDisk(m.devs, n.stream[k]))
    && (forall j, c: nat :: 0 <= j < |m.devs| ==>
          (c in n.devs[j].dirty <==> c in m.devs[j].dirty && !Passed(m, i, start, j, c * CHUNK)))
    && (forall j, s: nat :: 0 <= j < |m.devs| && s < |m.devs[j].disk| ==>
          Sent(n.stream, j, s) ==
            if Passed(m, i, start, j, s) && s / CHUNK in m.devs[j].dirty then Some(m.devs[j].disk[s])
            else Sent(m.stream, j, s))
  }

  lemma ResendingStart(m: Mig)
    ensures Resending(m, m, 0, 0)
  {
  }

  lemma DirtyRecordOk(devs: seq<Dev>, i: nat, start: nat)
    requires i < |devs| && start % CHUNK == 0 && start < devs[i].cur && start + CHUNK <= |devs[i].disk|
    ensures var r := Block(i, start, ChunkData(devs[i].disk, start));
            RecordOk(devs, r) && LiesOnDisk(devs, r)
  {
  }

  lemma ResendingChunk(m: Mig, n: Mig, base: seq<seq<Sector>>, i: nat, start: nat)
    requires Shapes(m, base) && Resending(m, n, i, start) && i < |m.devs|
    requires start % CHUNK == 0 && start < m.devs[i].cur
    requires start / CHUNK in n.devs[i].dirty ==> start + CHUNK <= |m.devs[i].disk|
    ensures Resending(m, if start / CHUNK in n.devs[i].dirty then DirtySent(n, i, start) else n, i, start + CHUNK)
  {
    assert DevOk(m.devs[i], base[i]);
    assert start + CHUNK <= m.devs[i].cur || m.devs[i].cur == |m.devs[i].disk|;
    hide Shapes, DevOk, Sent, RecordOk;
    var d := start / CHUNK in n.devs[i].dirty;
    assert start / CHUNK * CHUNK == start;
    var t := if d then DirtySent(n, i, start) else n;
    if d { DirtyRecordOk(m.devs, i, start); }
    forall j, c: nat | 0 <= j < |m.devs|
      ensures c in t.devs[j].dirty <==> c in m.devs[j].dirty && !Passed(m, i, start + CHUNK, j, c * CHUNK)
    {
      assert c in n.devs[j].dirty <==> c in m.devs[j].dirty && !Passed(m, i, start, j, c * CHUNK);
    }
    forall j, s: nat | 0 <= j < |m.devs| && s < |m.devs[j].disk|
      ensures Sent(t.stream, j, s) ==
            if Passed(m, i, start + CHUNK, j, s) && s / CHUNK in m.devs[j].dirty then Some(m.devs[j].disk[s])
            else Sent(m.stream, j, s)
    {
      ResendingSector(m, n, i, start, j, s);
    }
  }

  lemma ResendingSector(m: Mig, n: Mig, i: nat, start: nat, j: nat, s: nat)
    requires i < |m.devs| == |n.devs| && m.devs[i].cur <= |m.devs[i].disk| && n.devs[i].disk == m.devs[i].disk
    requires start % CHUNK == 0 && start < m.devs[i].cur && j < |m.devs| && s < |m.devs[j].disk|
    requires start + CHUNK <= m.devs[i].cur || m.devs[i].cur == |m.devs[i].disk|
    requires start / CHUNK in n.devs[i].dirty <==> start / CHUNK in m.devs[i].dirty
    requires Sent(n.stream, j, s) ==
               if Passed(m, i, start, j, s) && s / CHUNK in m.devs[j].dirty then Some(m.devs[j].disk[s])
               else Sent(m.stream, j, s)
    requires start / CHUNK in n.devs[i].dirty ==> start + CHUNK <= |m.devs[i].disk|
    ensures var t := if start / CHUNK in n.devs[i].dirty then DirtySent(n, i, start) else n;
            Sent(t.stream, j, s) ==
              if Passed(m, i, start + CHUNK, j, s) && s / CHUNK in m.devs[j].dirty then Some(m.devs[j].disk[s])
              else Sent(m.stream, j, s)
  {
    var c := start / CHUNK;
    assert c * CHUNK == start;
    if j == i && start <= s < start + CHUNK { assert s / CHUNK == c; }
    if c in n.devs[i].dirty {
      SentSnoc(n.stream, Block(i, start, ChunkData(n.devs[i].disk, start)), j, s);
    }
  }

  lemma ResendingNextDev(m: Mig, n: Mig, base: seq<seq<Sector>>, i: nat, start: nat)
    requires Shapes(m, base) && Resending(m, n, i, start) && i < |m.devs| && start >= m.devs[i].cur
    ensures Resending(m, n, i + 1, 0)
  {
    assert forall j: nat, s: nat :: Passed(m, i, start, j, s) <==> Passed(m, i + 1, 0, j, s);
  }

  // ---------------------------------------------------------------- the destination

  datatype Loaded = Ok(disks: seq<seq<Sector>>) | UnknownDevice | OutOfRange

  /** What block_load does with one record. */
  function LoadRecord(disks: seq<seq<Sector>>, r: Record): Loaded {
    if !r.Block? then Ok(disks)
    else if r.dev >= |disks| then UnknownDevice
    else if r.sector + |r.data| > |disks[r.dev]| then OutOfRange
    else
      var d := disks[r.dev];
      Ok(disks[r.dev := d[..r.sector] + r.data + d[r.sector + |r.data|..]])
  }

  function Load(disks: seq<seq<Sector>>, stream: seq<Record>): Loaded {
    if stream == [] then Ok(disks)
    else
      match Load(disks, stream[..|stream| - 1])
      case Ok(ds) => LoadRecord(ds, stream[|stream| - 1])
      case error => error
  }

  ghost predicate SameShape(a: seq<seq<Sector>>, b: seq<seq<Sector>>) {
    |a| == |b| && forall j :: 0 <= j < |a| ==> |a[j]| == |b[j]|
  }

  ghost predicate Fits(disks: seq<seq<Sector>>, r: Record) {
    r.Block? ==> r.dev < |disks| && r.sector + |r.data| <= |disks[r.dev]|
  }

  /** Loading succeeds exactly when every block fits, and then each sector holds what the stream
      said last about it, or what it held before. */
  lemma {:induction false} LoadMeaning(disks: seq<seq<Sector>>, stream: seq<Record>)
    ensures Load(disks, stream).Ok? <==> forall r :: r in stream ==> Fits(disks, r)
    ensures Load(disks, stream).Ok? ==>
              var ds := Load(disks, stream).disks;
              SameShape(ds, disks) &&
              forall j: nat, s: nat :: j < |disks| && s < |disks[j]| ==>
                ds[j][s] == (match Sent(stream, j, s) case Some(v) => v case None => disks[j][s])
  {
    if stream != [] {
      var k := |stream| - 1;
      var r := stream[k];
      LoadMeaning(disks, stream[..k]);
      assert stream == stream[..k] + [r];
      if Load(disks, stream[..k]).Ok? {
        var ds := Load(disks, stream[..k]).disks;
        assert Fits(ds, r) <==> Fits(disks, r);
      }
    }
  }

  // ---------------------------------------------------------------- convergence

  function Disks(devs: seq<Dev>): (ds: seq<seq<Sector>>)
    ensures |ds| == |devs| && forall j :: 0 <= j < |devs| ==> ds[j] == devs[j].disk
  {
    seq(|devs|, j requires 0 <= j < |devs| => devs[j].disk)
  }

  /** The destination has the same disks; with a shared base it starts from that base. */
  ghost predicate Compatible(devs: seq<Dev>, base: seq<seq<Sector>>, dests: seq<seq<Sector>>) {
    && |dests| == |devs| == |base|
    && forall j :: 0 <= j < |devs| ==>
         |dests[j]| == |devs[j].disk| && (devs[j].sharedBase ==> dests[j] == base[j])
  }

  /** From whatever the destination started, replaying the stream makes its disks the source's. */
  ghost predicate Converges(devs: seq<Dev>, base: seq<seq<Sector>>, stream: seq<Record>) {
    forall dests :: Compatible(devs, base, dests) ==> Load(dests, stream) == Ok(Disks(devs))
  }

  /** The bulk phase is over and no guest write is in flight. */
  ghost predicate Settled(m: Mig) {
    forall i :: 0 <= i < |m.devs| ==> m.devs[i].cur == |m.devs[i].disk| && m.devs[i].writes == map[]
  }

  /** Discarding this block loses nothing: its chunk is dirty and will be sent again, or the shared
      base already says the same. */
  ghost predicate Harmless(m: Mig, base: seq<seq<Sector>>, b: Blk) {
    && b.dev < |m.devs| == |base|
    && (|| b.sector / CHUNK in m.devs[b.dev].dirty
        || (m.devs[b.dev].sharedBase &&
            forall s: nat :: s < |m.devs[b.dev].disk| && s < |base[b.dev]| && Covers(b, b.dev, s) ==>
              m.devs[b.dev].disk[s] == base[b.dev][s]))
  }

  ghost predicate NothingLost(m: Mig, base: seq<seq<Sector>>) {
    forall b :: b in m.Pending() ==> Harmless(m, base, b)
  }

  /** The destination's sector `s` once the stream is replayed: right, or untouched by it. */
  lemma FinalSector(m: Mig, n: Mig, base: seq<seq<Sector>>, j: nat, s: nat)
    requires Inv(m, base) && Settled(m) && Resending(m, n, |m.devs|, 0)
    requires j < |m.devs| && s < |m.devs[j].disk|
    ensures |base[j]| == |m.devs[j].disk|
    ensures match Sent(n.stream, j, s)
            case Some(v) => v == m.devs[j].disk[s]
            case None =>
              || (m.devs[j].sharedBase && m.devs[j].disk[s] == base[j][s])
              || exists b :: b in m.Pending() && Covers(b, j, s) && b.sector / CHUNK !in m.devs[j].dirty
  {
    DiskBound(m, base, j);
    assert SectorOk(m, base, j, s);
    assert Passed(m, |m.devs|, 0, j, s);
    assert Sent(n.stream, j, s) == if s / CHUNK in m.devs[j].dirty then Some(m.devs[j].disk[s]) else Sent(m.stream, j, s);
    if s / CHUNK !in m.devs[j].dirty {
      assert !Writing(m.devs[j], s);
      if b :| b in m.Pending() && Covers(b, j, s) {
        assert BlkOk(m.devs, b);
        assert b.sector / CHUNK == s / CHUNK;
        PendingUnsent(m, base, b, s);
      }
    }
  }

  lemma PendingUnsent(m: Mig, base: seq<seq<Sector>>, b: Blk, s: nat)
    requires Inv(m, base) && b in m.Pending() && Covers(b, b.dev, s)
    ensures Sent(m.stream, b.dev, s) == None
  {
    assert BlkOk(m.devs, b);
    forall r | r in m.stream ensures !Carries(r, b.dev, s) { assert RecordOk(m.devs, r); }
    SentNothing(m.stream, b.dev, s);
  }

  /** Every block of the stream lies on its disk as a whole. */
  ghost predicate AllOnDisk(devs: seq<Dev>, stream: seq<Record>) {
    forall r :: r in stream ==> LiesOnDisk(devs, r)
  }

  /** Every record the resend adds lies on its disk. */
  lemma ResentOnDisk(m: Mig, n: Mig)
    requires Resending(m, n, |m.devs|, 0)
    ensures AllOnDisk(m.devs, n.stream) <==> AllOnDisk(m.devs, m.stream)
  {
    hide Sent, Passed, LiesOnDisk, RecordOk;
    assert forall r :: r in m.stream ==> r in n.stream;
    forall r | r in n.stream && r !in m.stream ensures LiesOnDisk(m.devs, r) {
      var k :| 0 <= k < |n.stream| && n.stream[k] == r;
      assert k >= |m.stream|;
    }
  }

  lemma AllFit(devs: seq<Dev>, stream: seq<Record>, base: seq<seq<Sector>>, dests: seq<seq<Sector>>)
    requires AllOnDisk(devs, stream) && Compatible(devs, base, dests)
    ensures forall r :: r in stream ==> Fits(dests, r)
  {
  }

  lemma EnoughToConverge(m: Mig, n: Mig, base: seq<seq<Sector>>)
    requires Inv(m, base) && Settled(m) && Resending(m, n, |m.devs|, 0)
    requires NothingLost(m, base) && AllOnDisk(m.devs, n.stream)
    ensures Converges(m.devs, base, n.stream)
  {
    forall dests | Compatible(m.devs, base, dests) ensures Load(dests, n.stream) == Ok(Disks(m.devs)) {
      AllFit(m.devs, n.stream, base, dests);
      LoadMeaning(dests, n.stream);
      var ds := Load(dests, n.stream).disks;
      forall j | 0 <= j < |m.devs| ensures ds[j] == m.devs[j].disk {
        forall s | 0 <= s < |m.devs[j].disk| ensures ds[j][s] == m.devs[j].disk[s] {
          FinalSector(m, n, base, j, s);
          if b :| Sent(n.stream, j, s) == None && b in m.Pending() && Covers(b, j, s) && b.sector / CHUNK !in m.devs[j].dirty {
            assert Harmless(m, base, b);
          }
        }
      }
      assert ds == Disks(m.devs);
    }
  }

  /** A destination that differs from the source in one sector of a device that shares no base. */
  ghost function Contrary(devs: seq<Dev>, base: seq<seq<Sector>>, i: nat, s: nat): (ds: seq<seq<Sector>>)
    requires i < |devs| == |base| && s < |devs[i].disk| && forall j :: 0 <= j < |devs| ==> |base[j]| == |devs[j].disk|
    ensures Compatible(devs, base, ds)
    ensures !devs[i].sharedBase ==> ds[i][s] != devs[i].disk[s]
  {
    seq(|devs|, j requires 0 <= j < |devs| =>
      if devs[j].sharedBase then base[j] else if j == i then devs[j].disk[s := devs[j].disk[s] + 1] else devs[j].disk)
  }

  /** A converging stream mentions every sector the destination cannot already know. */
  lemma ConvergingMentions(devs: seq<Dev>, base: seq<seq<Sector>>, stream: seq<Record>, i: nat, s: nat)
    requires Converges(devs, base, stream) && |devs| == |base|
    requires forall j :: 0 <= j < |devs| ==> |base[j]| == |devs[j].disk|
    requires i < |devs| && s < |devs[i].disk| && Sent(stream, i, s) == None
    ensures devs[i].sharedBase && base[i][s] == devs[i].disk[s]
  {
    var dests := Contrary(devs, base, i, s);
    assert Load(dests, stream) == Ok(Disks(devs));
    LoadMeaning(dests, stream);
  }

  lemma SameSizes(m: Mig, base: seq<seq<Sector>>)
    requires Shapes(m, base)
    ensures |m.devs| == |base| && forall j :: 0 <= j < |m.devs| ==> |base[j]| == |m.devs[j].disk|
  {
    forall j | 0 <= j < |m.devs| ensures |base[j]| == |m.devs[j].disk| { DiskBound(m, base, j); }
  }

  lemma LostSector(m: Mig, n: Mig, base: seq<seq<Sector>>, b: Blk, s: nat)
    requires Inv(m, base) && Resending(m, n, |m.devs|, 0) && Converges(m.devs, base, n.stream)
    requires b in m.Pending() && b.dev < |m.devs| && b.sector / CHUNK !in m.devs[b.dev].dirty
    requires Covers(b, b.dev, s) && s < |m.devs[b.dev].disk| && s / CHUNK == b.sector / CHUNK
    ensures |base| == |m.devs| && |base[b.dev]| == |m.devs[b.dev].disk|
    ensures m.devs[b.dev].sharedBase && m.devs[b.dev].disk[s] == base[b.dev][s]
  {
    SameSizes(m, base);
    PendingUnsent(m, base, b, s);
    assert Sent(n.stream, b.dev, s) == None;
    hide Inv, Resending, Converges, Sent;
    ConvergingMentions(m.devs, base, n.stream, b.dev, s);
  }

  lemma NeededToConverge(m: Mig, n: Mig, base: seq<seq<Sector>>)
    requires Inv(m, base) && Settled(m) && Resending(m, n, |m.devs|, 0)
    requires Converges(m.devs, base, n.stream)
    ensures NothingLost(m, base)
  {
    forall b | b in m.Pending() ensures Harmless(m, base, b) {
      assert BlkOk(m.devs, b);
      hide Resending, Converges, Inv;
      if b.sector / CHUNK !in m.devs[b.dev].dirty {
        assert Covers(b, b.dev, b.sector);
        forall s: nat | s < |m.devs[b.dev].disk| && Covers(b, b.dev, s)
          ensures |base| == |m.devs| && |base[b.dev]| == |m.devs[b.dev].disk|
          ensures m.devs[b.dev].sharedBase && m.devs[b.dev].disk[s] == base[b.dev][s]
        {
          LostSector(m, n, base, b, s);
        }
        LostSector(m, n, base, b, b.sector);
      } else {
        InvSizes(m, base);
      }
    }
  }

  lemma InvSizes(m: Mig, base: seq<seq<Sector>>)
    requires Inv(m, base)
    ensures |m.devs| == |base|
  {
  }

  /** Migration convergence, exactly: when stage 3 has resent the dirty chunks, the destination ends
      up equal to the source from every starting point if and only if no block still pending at that
      moment carried something that is not resent, and every block sent lies on its disk. */
  lemma ConvergenceExact(m: Mig, n: Mig, base: seq<seq<Sector>>)
    requires Inv(m, base) && Settled(m) && Resending(m, n, |m.devs|, 0)
    ensures Converges(m.devs, base, n.stream) <==> NothingLost(m, base) && AllOnDisk(m.devs, n.stream)
  {
    hide Inv, Settled, Resending, Converges, NothingLost, AllOnDisk;
    if NothingLost(m, base) && AllOnDisk(m.devs, n.stream) { EnoughToConverge(m, n, base); }
    if Converges(m.devs, base, n.stream) {
      NeededToConverge(m, n, base);
      ConvergingOnDisk(m, n, base);
    }
  }

  lemma ConvergingOnDisk(m: Mig, n: Mig, base: seq<seq<Sector>>)
    requires Inv(m, base) && Resending(m, n, |m.devs|, 0) && Converges(m.devs, base, n.stream)
    ensures AllOnDisk(m.devs, n.stream)
  {
    hide Inv, Resending, Converges, RecordOk;
    InvParts(m, base);
    InvSizes(m, base);
    SameSizes(m, base);
    forall r | r in n.stream ensures LiesOnDisk(m.devs, r) {
      ResentRecord(m, n, base, r);
      if r.Block? {
        RecordInside(m, base, r);
        ConvergingFits(m.devs, base, n.stream, r, r.dev);
      }
    }
  }

  lemma RecordInside(m: Mig, base: seq<seq<Sector>>, r: Record)
    requires Shapes(m, base) && r.Block? && RecordOk(m.devs, r)
    ensures r.dev < |m.devs| && |m.devs[r.dev].disk| > 0
  {
    assert DevOk(m.devs[r.dev], base[r.dev]);
  }

  lemma {:induction false} SentBySome(stream: seq<Record>, dev: nat, s: nat) returns (r: Record)
    requires Sent(stream, dev, s).Some?
    ensures r in stream && Carries(r, dev, s)
  {
    r := stream[|stream| - 1];
    if !Carries(r, dev, s) { r := SentBySome(stream[..|stream| - 1], dev, s); }
  }

  /** A full migration of a disk that is not a whole number of chunks never converges: its last
      block does not fit on the destination. */
  lemma UnalignedNeverConverges(m: Mig, n: Mig, base: seq<seq<Sector>>, i: nat)
    requires Inv(m, base) && Settled(m) && Resending(m, n, |m.devs|, 0)
    requires i < |m.devs| && !m.devs[i].sharedBase && |m.devs[i].disk| % CHUNK != 0
    ensures !Converges(m.devs, base, n.stream)
  {
    assert |m.devs[i].disk| > 0;
    hide *;
    InvParts(m, base);
    SameSizes(m, base);
    if Converges(m.devs, base, n.stream) {
      var s := |m.devs[i].disk| - 1;
      if Sent(n.stream, i, s) == None { ConvergingMentions(m.devs, base, n.stream, i, s); }
      var r := SentBySome(n.stream, i, s);
      ResentRecord(m, n, base, r);
      ConvergingFits(m.devs, base, n.stream, r, i);
      LastChunk(m.devs, r, i);
    }
  }

  lemma InvParts(m: Mig, base: seq<seq<Sector>>)
    requires Inv(m, base)
    ensures Shapes(m, base)
  {
  }

  lemma ConvergingFits(devs: seq<Dev>, base: seq<seq<Sector>>, stream: seq<Record>, r: Record, i: nat)
    requires Converges(devs, base, stream) && |devs| == |base| && i < |devs| && |devs[i].disk| > 0
    requires forall j :: 0 <= j < |devs| ==> |base[j]| == |devs[j].disk|
    requires r in stream && r.Block? && r.dev == i
    ensures r.sector + |r.data| <= |devs[i].disk|
  {
    var dests := Contrary(devs, base, i, 0);
    assert Load(dests, stream) == Ok(Disks(devs));
    LoadMeaning(dests, stream);
    assert Fits(dests, r);
  }

  lemma LastChunk(devs: seq<Dev>, r: Record, i: nat)
    requires RecordOk(devs, r) && r.Block? && r.dev == i < |devs| && |devs[i].disk| > 0
    requires Carries(r, i, |devs[i].disk| - 1)
    requires r.sector + |r.data| <= |devs[i].disk|
    ensures |devs[i].disk| % CHUNK == 0
  {
  }

  lemma ResentRecord(m: Mig, n: Mig, base: seq<seq<Sector>>, r: Record)
    requires Shapes(m, base) && Resending(m, n, |m.devs|, 0) && r in n.stream
    ensures RecordOk(m.devs, r)
  {
    hide Sent, Passed, RecordOk, LiesOnDisk, DevOk;
    var k :| 0 <= k < |n.stream| && n.stream[k] == r;
    assert k < |m.stream| ==> r == m.stream[k];
  }
}