/**
 bdrv_pread and bdrv_pwrite: byte ranges on a device that moves whole sectors.
 */
module ByteIo {
  type Byte = bv8

  const SECTOR := 512
  const EIO := 5

  /** What the driver does with a request: serves it, or fails, a write having reached some of its
      sectors. */
  datatype Service = Fine | Fails(reached: set<nat>)

  ghost predicate FaultFree(services: seq<Service>) {
    forall i :: 0 <= i < |services| ==> services[i].Fine?
  }

  /** The next request fails. */
  predicate Failing(services: seq<Service>) {
    services != [] && services[0].Fails?
  }

  /** What is left to come after n requests. */
  function After(services: seq<Service>, n: nat): (r: seq<Service>) {
    if n <= |services| then services[n..] else []
  }

  lemma AfterTwice(services: seq<Service>, a: nat, b: nat)
    ensures After(After(services, a), b) == After(services, a + b)
  {
  }

  /** The device as its users see it: whole sectors of bytes. */
  class Device {
    var disk: seq<Byte>
    var services: seq<Service>     // what will become of its requests, one by one; then all are served

    ghost predicate Valid()
      reads this
    {
      |disk| % SECTOR == 0
    }

    /** A request for sectors the device has. */
    predicate InRange(sector: int, n: nat)
      reads this
    {
      0 <= sector && SECTOR * (sector + n) <= |disk|
    }

    method Serve() returns (s: Service)
      modifies this`services
      ensures s == (if old(services) == [] then Fine else old(services)[0])
      ensures services == After(old(services), 1)
    {
      if services == [] { return Fine; }
      s := services[0];
      services := services[1..];
    }

    /** bdrv_read: whole sectors, or an error; always an error out of range. */
    method Read(sector: int, n: nat) returns (ret: int, buf: seq<Byte>)
      requires Valid() && 0 < n
      modifies this`services
      ensures ret <= 0 && (ret == 0 <==> InRange(sector, n) && !Failing(old(services)))
      ensures ret == 0 ==> buf == disk[SECTOR * sector..SECTOR * (sector + n)] && services == After(old(services), 1)
      ensures FaultFree(old(services)) ==> FaultFree(services) && (ret == 0 <==> InRange(sector, n))
    {
      if !InRange(sector, n) { return -EIO, []; }
      var s := Serve();
      if s.Fails? { return -EIO, []; }
      return 0, disk[SECTOR * sector..SECTOR * (sector + n)];
    }

    /** bdrv_write: whole sectors; after an error any of the sectors may have been written. */
    method Write(sector: int, buf: seq<Byte>) returns (ret: int)
      requires Valid() && 0 < |buf| && |buf| % SECTOR == 0
      modifies this
      ensures Valid() && ret <= 0 && |disk| == |old(disk)|
      ensures ret == 0 <==> 0 <= sector && SECTOR * sector + |buf| <= |disk| && !Failing(old(services))
      ensures ret == 0 ==> disk == Put(old(disk), SECTOR * sector, buf) && services == After(old(services), 1)
      ensures ret != 0 ==> if 0 <= sector && SECTOR * sector + |buf| <= |disk|
                           then Torn(old(disk), disk, SECTOR * sector, buf) else disk == old(disk)
      ensures FaultFree(old(services)) ==> FaultFree(services) && (ret == 0 <==> old(InRange(sector, |buf| / SECTOR)))
    {
      if sector < 0 || SECTOR * sector + |buf| > |disk| { return -EIO; }
      var s := Serve();
      if s.Fails? {
        for k := 0 to |buf| / SECTOR
          invariant |disk| == |old(disk)| && Torn(old(disk), disk, SECTOR * sector, buf)
        {
          if k in s.reached { disk := Put(disk, SECTOR * (sector + k), buf[SECTOR * k..SECTOR * (k + 1)]); }
        }
        return -EIO;
      }
      disk := Put(disk, SECTOR * sector, buf);
      return 0;
    }
  }

  /** A disk with `buf` at `at`. */
  function Put(disk: seq<Byte>, at: nat, buf: seq<Byte>): (r: seq<Byte>)
    requires at + |buf| <= |disk|
    ensures |r| == |disk|
  {
    disk[..at] + buf + disk[at + |buf|..]
  }

  /** Every byte is as before, or as `buf` has it. */
  ghost predicate Torn(was: seq<Byte>, now: seq<Byte>, at: nat, buf: seq<Byte>)
    requires at + |buf| <= |was|
  {
    && |now| == |was|
    && forall p :: 0 <= p < |was| ==> now[p] == was[p] || (at <= p < at + |buf| && now[p] == buf[p - at])
  }

  /** Reading back what was written gives it back, and nothing else moved. */
  lemma PutThenGet(disk: seq<Byte>, at: nat, buf: seq<Byte>)
    requires at + |buf| <= |disk|
    ensures Put(disk, at, buf)[at..at + |buf|] == buf
    ensures Put(disk, at, buf)[..at] == disk[..at] && Put(disk, at, buf)[at + |buf|..] == disk[at + |buf|..]
  {
  }

  lemma PutTwice(disk: seq<Byte>, at: nat, a: seq<Byte>, b: seq<Byte>)
    requires at + |a| + |b| <= |disk|
    ensures Put(Put(disk, at, a), at + |a|, b) == Put(disk, at, a + b)
  {
  }

  /** Changing part of a sector and writing the sector back changes that part. */
  lemma ModifiedSector(disk: seq<Byte>, base: nat, r: nat, piece: seq<Byte>)
    requires r + |piece| <= SECTOR && base + SECTOR <= |disk|
    ensures Put(disk, base, Put(disk[base..base + SECTOR], r, piece)) == Put(disk, base + r, piece)
  {
    var sector := Put(disk[base..base + SECTOR], r, piece);
    var x, y := Put(disk, base, sector), Put(disk, base + r, piece);
    forall p | 0 <= p < |disk| ensures x[p] == y[p] {
      PutAt(disk, base, sector, p);
      PutAt(disk, base + r, piece, p);
      if base <= p < base + SECTOR { PutAt(disk[base..base + SECTOR], r, piece, p - base); }
    }
  }

  lemma PutAt(disk: seq<Byte>, at: nat, buf: seq<Byte>, p: nat)
    requires at + |buf| <= |disk| && p < |disk|
    ensures Put(disk, at, buf)[p] == if at <= p < at + |buf| then buf[p - at] else disk[p]
  {
  }

  /** If that write fails, only that part can have changed. */
  lemma TornSector(disk: seq<Byte>, now: seq<Byte>, base: nat, r: nat, piece: seq<Byte>)
    requires r + |piece| <= SECTOR && base + SECTOR <= |disk|
    requires Torn(disk, now, base, Put(disk[base..base + SECTOR], r, piece))
    ensures Torn(disk, now, base + r, piece)
  {
    var tmp := Put(disk[base..base + SECTOR], r, piece);
    forall p | 0 <= p < |disk|
      ensures now[p] == disk[p] || (base + r <= p < base + r + |piece| && now[p] == piece[p - (base + r)])
    {
      if base <= p < base + SECTOR {
        var k := p - base;
        assert tmp[k] == if r <= k < r + |piece| then piece[k - r] else disk[base..base + SECTOR][k];
      }
    }
  }

  /** How far a write got: the first `lo` bytes are there, of the bytes up to `hi` any may be, and
      nothing else has changed. */
  ghost predicate Partial(was: seq<Byte>, now: seq<Byte>, at: int, buf: seq<Byte>, lo: nat, hi: nat) {
    && lo <= hi <= |buf| && |now| == |was|
    && forall p :: 0 <= p < |was| ==>
         if at <= p < at + lo then now[p] == buf[p - at]
         else now[p] == was[p] || (at + lo <= p < at + hi && now[p] == buf[p - at])
  }

  /** When the failing request left none of its bytes behind, exactly a prefix of the range has
      changed. */
  lemma WholePrefix(was: seq<Byte>, now: seq<Byte>, at: nat, buf: seq<Byte>, lo: nat, hi: nat)
    requires Partial(was, now, at, buf, lo, hi) && at + hi <= |was| && now[at + lo..at + hi] == was[at + lo..at + hi]
    ensures now == Put(was, at, buf[..lo])
  {
    forall p | 0 <= p < |was| ensures now[p] == Put(was, at, buf[..lo])[p] {
      if at + lo <= p < at + hi { assert now[p] == now[at + lo..at + hi][p - at - lo] == was[at + lo..at + hi][p - at - lo]; }
    }
  }

  lemma PartialPut(was: seq<Byte>, at: nat, buf: seq<Byte>, done: nat)
    requires done <= |buf| && at + done <= |was|
    ensures Partial(was, Put(was, at, buf[..done]), at, buf, done, done)
  {
    var now := Put(was, at, buf[..done]);
    forall p | 0 <= p < |was| ensures if at <= p < at + done then now[p] == buf[p - at] else now[p] == was[p] {
    }
  }

  lemma PartialTorn(was: seq<Byte>, now: seq<Byte>, at: nat, buf: seq<Byte>, done: nat, n: nat)
    requires done + n <= |buf| && at + done + n <= |was|
    requires Torn(Put(was, at, buf[..done]), now, at + done, buf[done..done + n])
    ensures Partial(was, now, at, buf, done, done + n)
  {
    var mid := Put(was, at, buf[..done]);
    forall p | 0 <= p < |was|
      ensures if at <= p < at + done then now[p] == buf[p - at]
              else now[p] == was[p] || (at + done <= p < at + done + n && now[p] == buf[p - at])
    {
      assert mid[p] == if at <= p < at + done then buf[p - at] else was[p];
      assert now[p] == mid[p] || (at + done <= p < at + done + n && now[p] == buf[done..done + n][p - (at + done)]);
    }
  }

  /** A piece within one sector: the sector is read, changed and written back. */
  method WriteInSector(dev: Device, sector: int, r: nat, piece: seq<Byte>) returns (ret: int)
    requires dev.Valid() && 0 < |piece| && r + |piece| <= SECTOR
    modifies dev
    ensures dev.Valid() && ret <= 0 && |dev.disk| == |old(dev.disk)|
    ensures ret == 0 <==> 0 <= sector && SECTOR * (sector + 1) <= |dev.disk| && !Failing(old(dev.services)) &&
                          !Failing(After(old(dev.services), 1))
    ensures ret == 0 ==> dev.disk == Put(old(dev.disk), SECTOR * sector + r, piece) && dev.services == After(old(dev.services), 2)
    ensures ret != 0 ==> if 0 <= sector && SECTOR * (sector + 1) <= |dev.disk| && !Failing(old(dev.services))
                         then Torn(old(dev.disk), dev.disk, SECTOR * sector + r, piece) else dev.disk == old(dev.disk)
    ensures FaultFree(old(dev.services)) ==> FaultFree(dev.services) && (ret == 0 <==> old(dev.InRange(sector, 1)))
  {
    hide Put, Torn, FaultFree;
    ghost var was := dev.disk;
    AfterTwice(dev.services, 1, 1);
    var tmp;
    ret, tmp := dev.Read(sector, 1);
    if ret < 0 { return; }
    var changed := Put(tmp, r, piece);
    ModifiedSector(was, SECTOR * sector, r, piece);
    ret := dev.Write(sector, changed);
    if ret != 0 { TornSector(was, dev.disk, SECTOR * sector, r, piece); }
  }

  /** The bytes before the first sector boundary, at most `count`. */
  function HeadLength(offset: int, count: int): (len: int)
    ensures len <= count && len < SECTOR && (len > 0 ==> offset % SECTOR + len <= SECTOR)
    ensures 0 < len < count ==> SECTOR * (offset / SECTOR + 1) == offset + len
    ensures len <= 0 < count ==> SECTOR * (offset / SECTOR) == offset
  {
    var len := (SECTOR - offset) % SECTOR;
    if len > count then count else len
  }

  /** The requests a write of bytes is made of end after the head, after the whole sectors and at the
      end: these are the first two places. */
  function Head(offset: int, count: nat): (h: nat)
    ensures h <= count
  {
    if HeadLength(offset, count) > 0 then HeadLength(offset, count) else 0
  }

  function Body(head: nat, count: nat): (b: nat)
    requires head <= count
    ensures head <= b <= count
  {
    head + SECTOR * ((count - head) / SECTOR)
  }

  /** A request made on behalf of the bytes [lo, hi) of the range. */
  datatype Request = Request(lo: nat, hi: nat, writes: bool)

  /** Part of a sector is read and written back. */
  function Edge(lo: nat, hi: nat): (qs: seq<Request>) {
    if lo < hi then [Request(lo, hi, false), Request(lo, hi, true)] else []
  }

  function Sectors(lo: nat, hi: nat): (qs: seq<Request>) {
    if lo < hi then [Request(lo, hi, true)] else []
  }

  /** What remains to be done after the head. */
  function RestRequests(head: nat, count: nat): (qs: seq<Request>)
    requires head <= count
  {
    Sectors(head, Body(head, count)) + Edge(Body(head, count), count)
  }

  /** All requests of a write of bytes, in order. */
  function Requests(offset: int, count: nat): (qs: seq<Request>) {
    Edge(0, Head(offset, count)) + RestRequests(Head(offset, count), count)
  }

  predicate OnDevice(q: Request, offset: int, size: nat) {
    0 <= offset + q.lo && offset + q.hi <= size
  }

  /** The number of requests that succeed before one is off the device or fails. */
  function FirstFailure(qs: seq<Request>, services: seq<Service>, offset: int, size: nat): (k: nat)
    ensures k <= |qs|
  {
    if qs == [] || !OnDevice(qs[0], offset, size) || Failing(services) then 0
    else 1 + FirstFailure(qs[1..], After(services, 1), offset, size)
  }

  /** How far a failing request may have reached: a read changes nothing. */
  function Reach(q: Request, offset: int, size: nat): nat {
    if q.writes && OnDevice(q, offset, size) then q.hi else q.lo
  }

  /** These requests were made in order up to the first that fails: `ret` says whether all succeeded; if
      not, the range is replaced up to the one that failed and nothing after it is touched. */
  ghost predicate Went(qs: seq<Request>, services: seq<Service>, left: seq<Service>, was: seq<Byte>, now: seq<Byte>,
                       at: int, data: seq<Byte>, ret: int)
  {
    var k := FirstFailure(qs, services, at, |was|);
    && (ret == 0 <==> k == |qs|)
    && (k == |qs| ==> left == After(services, |qs|))
    && (k < |qs| ==> Partial(was, now, at, data, qs[k].lo, Reach(qs[k], at, |was|)))
  }

  lemma {:induction false} FirstFailureConcat(a: seq<Request>, b: seq<Request>, services: seq<Service>, offset: int, size: nat)
    ensures var k := FirstFailure(a, services, offset, size);
            FirstFailure(a + b, services, offset, size) ==
              if k < |a| then k else |a| + FirstFailure(b, After(services, |a|), offset, size)
  {
    if a == [] {
      assert a + b == b && After(services, 0) == services;
    } else {
      assert (a + b)[1..] == a[1..] + b;
      AfterTwice(services, 1, |a| - 1);
      FirstFailureConcat(a[1..], b, After(services, 1), offset, size);
    }
  }

  /** The first part went wrong, or it went well and the second went somehow. */
  lemma WentFirst(a: seq<Request>, b: seq<Request>, services: seq<Service>, left: seq<Service>, was: seq<Byte>,
                  now: seq<Byte>, at: int, data: seq<Byte>, ret: int)
    requires Went(a, services, left, was, now, at, data, ret) && ret != 0
    ensures Went(a + b, services, left, was, now, at, data, ret)
  {
    hide FirstFailure, Partial;
    FirstFailureConcat(a, b, services, at, |was|);
  }

  lemma WentOn(a: seq<Request>, b: seq<Request>, services: seq<Service>, mid: seq<Service>, left: seq<Service>,
               was: seq<Byte>, then': seq<Byte>, now: seq<Byte>, at: int, data: seq<Byte>, ret: int)
    requires Went(a, services, mid, was, then', at, data, 0) && Went(b, mid, left, was, now, at, data, ret)
    ensures Went(a + b, services, left, was, now, at, data, ret)
  {
    hide FirstFailure, Partial;
    FirstFailureConcat(a, b, services, at, |was|);
    AfterTwice(services, |a|, |b|);
  }

  /** No requests: nothing to go wrong. */
  lemma WentNothing(services: seq<Service>, was: seq<Byte>, now: seq<Byte>, at: int, data: seq<Byte>)
    ensures Went([], services, services, was, now, at, data, 0)
  {
    assert After(services, 0) == services;
  }

  /** bdrv_pwrite: the requests are made in order up to the first that fails. On success exactly the
      range is replaced; on an error the range is replaced up to the request that failed and nothing
      after it is touched. */
  method Pwrite(dev: Device, offset: int, buf: seq<Byte>, count1: int) returns (ret: int)
    requires dev.Valid() && count1 <= |buf|
    modifies dev
    ensures dev.Valid() && |dev.disk| == |old(dev.disk)|
    ensures count1 <= 0 ==> ret == count1 && dev.disk == old(dev.disk)
    ensures count1 > 0 ==> ret < 0 || ret == count1
    ensures count1 > 0 && ret == count1 ==>
              0 <= offset && offset + count1 <= |dev.disk| && dev.disk == Put(old(dev.disk), offset, buf[..count1])
    ensures count1 > 0 ==>
              var qs := Requests(offset, count1);
              var k := FirstFailure(qs, old(dev.services), offset, |dev.disk|);
              && (ret == count1 <==> k == |qs|)
              && (k < |qs| ==>
                    Partial(old(dev.disk), dev.disk, offset, buf[..count1], qs[k].lo, Reach(qs[k], offset, |dev.disk|)))
    ensures FaultFree(old(dev.services)) ==>
              FaultFree(dev.services) && (count1 > 0 ==> (ret == count1 <==> 0 <= offset && offset + count1 <= |dev.disk|))
  {
    hide Put, Torn, Partial, Done, HeadLength, FaultFree, FirstFailure, RestRequests;
    if count1 <= 0 { return count1; }
    ghost var was, data, services := dev.disk, buf[..count1], dev.services;
    NothingDone(was, offset, data);
    WentNothing(services, was, was, offset, data);
    var len := HeadLength(offset, count1);
    var sector, done := offset / SECTOR, 0;
    ghost var h := Head(offset, count1);
    if len > 0 {
      ret := WriteEdge(dev, sector, offset % SECTOR, buf[..len], was, offset, data, 0);
      if ret < 0 {
        WentFirst(Edge(0, h), RestRequests(h, count1), services, dev.services, was, dev.disk, offset, data, ret);
        return;
      }
      if len == count1 {
        NoRest(count1);
        assert Edge(0, h) + [] == Edge(0, h);
        AllDone(was, dev.disk, offset, data);
        return count1;
      }
      sector, done := sector + 1, len;
    }
    ghost var mid, then' := dev.services, dev.disk;
    ret := WriteRest(dev, sector, buf[..count1], was, offset, done);
    WentOn(Edge(0, h), RestRequests(h, count1), services, mid, dev.services, was, then', dev.disk, offset, data, ret);
    if ret < 0 { return; }
    AllDone(was, dev.disk, offset, data);
    return count1;
  }

  lemma NoRest(count: nat)
    ensures RestRequests(count, count) == []
  {
  }

  /** The whole sectors after the head, and the part of the last one. */
  method WriteRest(dev: Device, first: int, data: seq<Byte>, ghost was: seq<Byte>, ghost at: int, head: nat)
    returns (ret: int)
    requires dev.Valid() && |was| == |dev.disk| && head < |data| && SECTOR * first == at + head
    requires Done(was, dev.disk, at, data, head)
    modifies dev
    ensures dev.Valid() && |dev.disk| == |was| && ret <= 0
    ensures ret == 0 ==> Done(was, dev.disk, at, data, |data|)
    ensures Went(RestRequests(head, |data|), old(dev.services), dev.services, was, dev.disk, at, data, ret)
    ensures FaultFree(old(dev.services)) ==> FaultFree(dev.services) && (0 <= at && at + |data| <= |was| ==> ret == 0)
  {
    hide Put, Torn, Partial, Done, FaultFree, FirstFailure, Went;
    ret := 0;
    ghost var services := dev.services;
    var sector, done := first, head;
    var nb := (|data| - done) / SECTOR;
    ghost var body := Body(head, |data|);
    ghost var whole, tail := Sectors(head, body), Edge(body, |data|);
    if nb > 0 {
      ret := WriteBody(dev, sector, data[done..done + SECTOR * nb], was, at, data, done);
      if ret < 0 {
        WentFirst(whole, tail, services, dev.services, was, dev.disk, at, data, ret);
        return;
      }
      sector, done := sector + nb, done + SECTOR * nb;
    } else {
      WentNothing(services, was, dev.disk, at, data);
    }
    ghost var mid, then' := dev.services, dev.disk;
    if done < |data| {
      ret := WriteEdge(dev, sector, 0, data[done..], was, at, data, done);
    } else {
      WentNothing(mid, was, dev.disk, at, data);
    }
    WentOn(whole, tail, services, mid, dev.services, was, then', dev.disk, at, data, ret);
  }

  /** The next bytes are part of a sector. */
  method WriteEdge(dev: Device, sector: int, r: nat, piece: seq<Byte>,
                   ghost was: seq<Byte>, ghost at: int, ghost data: seq<Byte>, ghost done: nat)
    returns (ret: int)
    requires dev.Valid() && 0 < |piece| && r + |piece| <= SECTOR && |was| == |dev.disk|
    requires SECTOR * sector + r == at + done && done + |piece| <= |data| && piece == data[done..done + |piece|]
    requires Done(was, dev.disk, at, data, done)
    modifies dev
    ensures dev.Valid() && |dev.disk| == |was| && ret <= 0
    ensures ret == 0 ==> Done(was, dev.disk, at, data, done + |piece|)
    ensures Went(Edge(done, done + |piece|), old(dev.services), dev.services, was, dev.disk, at, data, ret)
    ensures FaultFree(old(dev.services)) ==> FaultFree(dev.services) && (0 <= at && at + |data| <= |was| ==> ret == 0)
  {
    hide Put, Torn, Partial, Done, FaultFree, FirstFailure;
    ghost var mid, services := dev.disk, dev.services;
    SectorsFit(|was|, sector, at + done + |piece|);
    EdgeFailure(services, done, done + |piece|, at, |was|);
    ret := WriteInSector(dev, sector, r, piece);
    if ret < 0 {
      Failed(was, mid, dev.disk, at, data, done,
             if 0 <= at + done && at + done + |piece| <= |was| && !Failing(services) then |piece| else 0);
    } else {
      DoneNext(was, mid, dev.disk, at, data, done, |piece|);
    }
  }

  lemma EdgeFailure(services: seq<Service>, lo: nat, hi: nat, offset: int, size: nat)
    requires lo < hi
    ensures FirstFailure(Edge(lo, hi), services, offset, size) ==
            if !(0 <= offset + lo && offset + hi <= size) || Failing(services) then 0
            else if Failing(After(services, 1)) then 1 else 2
  {
    var qs := Edge(lo, hi);
    assert qs[1..] == [Request(lo, hi, true)] && qs[1..][1..] == [];
  }

  /** The next bytes are whole sectors. */
  method WriteBody(dev: Device, sector: int, piece: seq<Byte>,
                   ghost was: seq<Byte>, ghost at: int, ghost data: seq<Byte>, ghost done: nat)
    returns (ret: int)
    requires dev.Valid() && 0 < |piece| && |piece| % SECTOR == 0 && |was| == |dev.disk|
    requires SECTOR * sector == at + done && done + |piece| <= |data| && piece == data[done..done + |piece|]
    requires Done(was, dev.disk, at, data, done)
    modifies dev
    ensures dev.Valid() && |dev.disk| == |was| && ret <= 0
    ensures ret == 0 ==> Done(was, dev.disk, at, data, done + |piece|)
    ensures Went(Sectors(done, done + |piece|), old(dev.services), dev.services, was, dev.disk, at, data, ret)
    ensures FaultFree(old(dev.services)) ==> FaultFree(dev.services) && (0 <= at && at + |data| <= |was| ==> ret == 0)
  {
    hide Put, Torn, Partial, Done, FaultFree, FirstFailure;
    ghost var mid, services := dev.disk, dev.services;
    SectorsFit(|was|, sector, at + done + |piece|);
    SectorsFailure(services, done, done + |piece|, at, |was|);
    ret := dev.Write(sector, piece);
    if ret < 0 {
      Failed(was, mid, dev.disk, at, data, done, if 0 <= sector && SECTOR * sector + |piece| <= |was| then |piece| else 0);
    } else {
      DoneNext(was, mid, dev.disk, at, data, done, |piece|);
    }
  }

  lemma SectorsFailure(services: seq<Service>, lo: nat, hi: nat, offset: int, size: nat)
    requires lo < hi
    ensures FirstFailure(Sectors(lo, hi), services, offset, size) ==
            if !(0 <= offset + lo && offset + hi <= size) || Failing(services) then 0 else 1
  {
    assert Sectors(lo, hi)[1..] == [];
  }

  /** A disk of whole sectors that holds the last byte of a piece holds its sector. */
  lemma SectorsFit(size: nat, sector: int, end: int)
    requires size % SECTOR == 0
    ensures SECTOR * sector < end <= size ==> SECTOR * (sector + 1) <= size
  {
  }

  /** The first `done` bytes are written. */
  ghost predicate Done(was: seq<Byte>, now: seq<Byte>, at: int, data: seq<Byte>, done: nat) {
    && done <= |data|
    && if done == 0 then now == was
       else 0 <= at && at + done <= |was| && now == Put(was, at, data[..done])
  }

  lemma NothingDone(was: seq<Byte>, at: int, data: seq<Byte>)
    ensures Done(was, was, at, data, 0)
  {
  }

  lemma AllDone(was: seq<Byte>, now: seq<Byte>, at: int, data: seq<Byte>)
    requires 0 < |data| && Done(was, now, at, data, |data|)
    ensures 0 <= at && at + |data| <= |was| && now == Put(was, at, data)
  {
    assert data[..|data|] == data;
  }

  lemma DoneNext(was: seq<Byte>, mid: seq<Byte>, now: seq<Byte>, at: int, data: seq<Byte>, done: nat, n: nat)
    requires Done(was, mid, at, data, done) && 0 < n && done + n <= |data| && |mid| == |was|
    requires 0 <= at + done && at + done + n <= |was| && now == Put(mid, at + done, data[done..done + n])
    ensures Done(was, now, at, data, done + n)
  {
    hide Put;
    if done > 0 { PutTwice(was, at, data[..done], data[done..done + n]); }
    assert data[..done + n] == data[..done] + data[done..done + n];
    assert done == 0 ==> data[..n] == data[0..n];
  }

  /** The request for the next bytes fails, having reached `n` of them at most. */
  lemma Failed(was: seq<Byte>, mid: seq<Byte>, now: seq<Byte>, at: int, data: seq<Byte>, done: nat, n: nat)
    requires Done(was, mid, at, data, done) && done + n <= |data| && |mid| == |was|
    requires if n == 0 then now == mid
             else 0 <= at + done && at + done + n <= |was| && Torn(mid, now, at + done, data[done..done + n])
    ensures Partial(was, now, at, data, done, done + n)
  {
    hide Put, Torn;
    if n > 0 {
      if done == 0 { PutNothing(was, at, data); }
      PartialTorn(was, now, at, data, done, n);
    } else if done > 0 {
      PartialPut(was, at, data, done);
    }
  }

  lemma PutNothing(was: seq<Byte>, at: nat, data: seq<Byte>)
    requires at <= |was|
    ensures Put(was, at, data[..0]) == was
  {
  }

  /** bdrv_pread: on success the buffer holds exactly the range. */
  method Pread(dev: Device, offset: int, buf: array<Byte>, count1: int) returns (ret: int)
    requires dev.Valid() && count1 <= buf.Length
    modifies buf, dev`services
    ensures FaultFree(old(dev.services)) ==>
              FaultFree(dev.services) && (count1 > 0 ==> (ret == count1 <==> 0 <= offset && offset + count1 <= |dev.disk|))
    ensures count1 <= 0 ==> ret == count1 && buf[..] == old(buf[..])
    ensures count1 > 0 ==> ret < 0 || ret == count1
    ensures count1 > 0 && ret == count1 ==>
              0 <= offset && offset + count1 <= |dev.disk| && buf[..count1] == dev.disk[offset..offset + count1]
    ensures forall j :: 0 <= j < buf.Length && count1 <= j ==> buf[j] == old(buf[j])
  {
    hide HeadLength, Fills, FaultFree;
    if count1 <= 0 { return count1; }
    var len := HeadLength(offset, count1);
    var sector := offset / SECTOR;
    FillsNothing(buf[..], dev.disk, offset);
    if len > 0 {
      ret := ReadPiece(dev, sector, 1, offset % SECTOR, len, buf, offset, 0);
      if ret < 0 { return; }
      if len == count1 {
        FillsAll(buf, dev.disk, offset, count1);
        return count1;
      }
      ret := ReadRest(dev, sector + 1, buf, offset, len, count1);
    } else {
      ret := ReadRest(dev, sector, buf, offset, 0, count1);
    }
    if ret < 0 { return; }
    FillsAll(buf, dev.disk, offset, count1);
    return count1;
  }

  /** The whole sectors after the first boundary, and the part of the last one. */
  method ReadRest(dev: Device, first: int, buf: array<Byte>, ghost offset: int, head: nat, count: nat) returns (ret: int)
    requires dev.Valid() && head < count <= buf.Length
    requires SECTOR * first == offset + head && Fills(buf[..], dev.disk, offset, head)
    modifies buf, dev`services
    ensures FaultFree(old(dev.services)) ==> FaultFree(dev.services) && (0 <= offset && offset + count <= |dev.disk| ==> ret == 0)
    ensures ret <= 0 && forall j :: count <= j < buf.Length ==> buf[j] == old(buf[j])
    ensures ret == 0 ==> Fills(buf[..], dev.disk, offset, count)
  {
    hide Fills, FaultFree;
    ret := 0;
    var sector, done := first, head;
    var nb := (count - done) / SECTOR;
    if nb > 0 {
      ret := ReadPiece(dev, sector, nb, 0, SECTOR * nb, buf, offset, done);
      if ret < 0 { return; }
      sector, done := sector + nb, done + SECTOR * nb;
    }
    if done < count { ret := ReadPiece(dev, sector, 1, 0, count - done, buf, offset, done); }
  }

  /** The first `done` bytes of the buffer are those of the range. */
  ghost predicate Fills(buf: seq<Byte>, disk: seq<Byte>, offset: int, done: nat) {
    done <= |buf| && (done > 0 ==> 0 <= offset && offset + done <= |disk| && buf[..done] == disk[offset..offset + done])
  }

  lemma FillsNothing(buf: seq<Byte>, disk: seq<Byte>, offset: int)
    ensures Fills(buf, disk, offset, 0)
  {
  }

  lemma FillsAll(buf: array<Byte>, disk: seq<Byte>, offset: int, done: nat)
    requires 0 < done && Fills(buf[..], disk, offset, done)
    ensures 0 <= offset && done <= buf.Length && offset + done <= |disk| && buf[..done] == disk[offset..offset + done]
  {
    assert buf[..][..done] == buf[..done];
  }

  /** Some sectors are read and `len` bytes from `r` on go to the buffer at `done`. */
  method ReadPiece(dev: Device, sector: int, nb: nat, r: nat, len: nat, buf: array<Byte>, ghost offset: int, done: nat)
    returns (ret: int)
    requires dev.Valid() && 0 < nb && 0 < len && r + len <= SECTOR * nb && done + len <= buf.Length
    requires SECTOR * sector + r == offset + done && r < SECTOR && SECTOR * (nb - 1) < r + len && Fills(buf[..], dev.disk, offset, done)
    modifies buf, dev`services
    ensures FaultFree(old(dev.services)) ==>
              FaultFree(dev.services) && (0 <= offset && offset + done + len <= |dev.disk| ==> ret == 0)
    ensures ret <= 0 && forall j :: done + len <= j < buf.Length ==> buf[j] == old(buf[j])
    ensures ret == 0 ==> Fills(buf[..], dev.disk, offset, done + len)
  {
    hide FaultFree;
    SectorsFit(|dev.disk|, sector + nb - 1, offset + done + len);
    var tmp;
    ret, tmp := dev.Read(sector, nb);
    if ret < 0 { return; }
    ReadPart(dev.disk, SECTOR * sector, SECTOR * (sector + nb), r, len);
    CopyIn(buf, done, tmp[r..r + len]);
    assert buf[..][..done] == buf[..done] && buf[..][done..done + len] == buf[done..done + len];
    Filled(buf[..], dev.disk, offset, done, len);
  }

  /** memcpy */
  method CopyIn(buf: array<Byte>, at: nat, piece: seq<Byte>)
    requires at + |piece| <= buf.Length
    modifies buf
    ensures buf[..at] == old(buf[..at]) && buf[at..at + |piece|] == piece
    ensures forall j :: at + |piece| <= j < buf.Length ==> buf[j] == old(buf[j])
  {
    for k := 0 to |piece|
      invariant forall j :: 0 <= j < buf.Length ==> buf[j] == if at <= j < at + k then piece[j - at] else old(buf[j])
    {
      buf[at + k] := piece[k];
    }
  }

  lemma ReadPart(disk: seq<Byte>, a: nat, b: nat, r: nat, len: nat)
    requires a + r + len <= b <= |disk|
    ensures disk[a..b][r..r + len] == disk[a + r..a + r + len]
  {
    var x, y := disk[a..b][r..r + len], disk[a + r..a + r + len];
    assert forall k :: 0 <= k < len ==> x[k] == y[k];
  }

  lemma Filled(buf: seq<Byte>, disk: seq<Byte>, offset: int, done: nat, n: nat)
    requires done + n <= |buf| && 0 <= offset && offset + done + n <= |disk|
    requires buf[..done] == disk[offset..offset + done]
    requires buf[done..done + n] == disk[offset + done..offset + done + n]
    ensures buf[..done + n] == disk[offset..offset + done + n]
  {
    assert buf[..done + n] == buf[..done] + buf[done..done + n];
    assert disk[offset..offset + done + n] == disk[offset..offset + done] + disk[offset + done..offset + done + n];
  }

  /** What is written can be read back. */
  method WriteThenRead(dev: Device, offset: int, buf: seq<Byte>, back: array<Byte>) returns (ret: int)
    requires dev.Valid() && 0 < |buf| <= back.Length
    modifies dev, back
    ensures ret < 0 || (ret == |buf| && back[..|buf|] == buf)
    ensures FaultFree(old(dev.services)) && 0 <= offset && offset + |buf| <= |old(dev.disk)| ==> ret == |buf|
  {
    hide Put, FaultFree;
    ret := Pwrite(dev, offset, buf, |buf|);
    if ret < 0 { return; }
    assert buf[..|buf|] == buf;
    PutThenGet(old(dev.disk), offset, buf);
    ret := Pread(dev, offset, back, |buf|);
  }
}
