/**
 From the records of a migration to the bytes of its stream and back: what the source puts on the wire
 is, section by section, what the destination loads.
 */
module MigrationBytes {
  import opened Options
  import opened BlockMigration
  import W = MigrationWire

  type Bytes = seq<W.Byte>

  /** How devices are named and sectors are laid out in bytes. */
  datatype Code = Code(names: seq<Bytes>, enc: Sector -> Bytes, dec: Bytes -> Sector)

  /** The code can carry this record. */
  ghost predicate Carried(c: Code, r: Record) {
    match r
    case Block(dev, sector, data) =>
      && dev < |c.names| && |c.names[dev]| < 32 && sector < 0x80_0000_0000_0000 && |data| == CHUNK
      && forall k :: 0 <= k < |data| ==> |c.enc(data[k])| == 512 && c.dec(c.enc(data[k])) == data[k]
    case Progress(percent) => 0 <= percent < 0x80_0000_0000_0000
    case Eos => true
  }

  ghost predicate Distinct(names: seq<Bytes>) {
    forall i, j :: 0 <= i < j < |names| ==> names[i] != names[j]
  }

  // ---------------------------------------------------------------- sectors and bytes

  ghost function Join(c: Code, data: seq<Sector>): Bytes {
    if data == [] then [] else c.enc(data[0]) + Join(c, data[1..])
  }

  ghost function Split(c: Code, bytes: Bytes): seq<Sector> {
    if |bytes| < 512 then [] else [c.dec(bytes[..512])] + Split(c, bytes[512..])
  }

  lemma {:induction false} SplitJoin(c: Code, data: seq<Sector>)
    requires forall k :: 0 <= k < |data| ==> |c.enc(data[k])| == 512 && c.dec(c.enc(data[k])) == data[k]
    ensures |Join(c, data)| == 512 * |data| && Split(c, Join(c, data)) == data
  {
    if data != [] {
      var rest := data[1..];
      assert forall k :: 0 <= k < |rest| ==> rest[k] == data[k + 1];
      SplitJoin(c, rest);
      var b := Join(c, data);
      assert b[..512] == c.enc(data[0]) && b[512..] == Join(c, rest);
      assert data == [data[0]] + rest;
    }
  }

  /** bdrv_find: the device of that name. */
  ghost function Find(names: seq<Bytes>, name: Bytes): Option<nat> {
    if names == [] then None
    else if names[|names| - 1] == name then Some(|names| - 1)
    else Find(names[..|names| - 1], name)
  }

  lemma {:induction false} FindsIt(names: seq<Bytes>, i: nat)
    requires Distinct(names) && i < |names|
    ensures Find(names, names[i]) == Some(i)
  {
    var k := |names| - 1;
    if i < k {
      assert names[i] != names[k];
      FindsIt(names[..k], i);
    }
  }

  // ---------------------------------------------------------------- records and entries

  ghost function ToEntry(c: Code, r: Record): W.Entry
    requires Carried(c, r) && !r.Eos?
  {
    match r
    case Block(dev, sector, data) => W.DeviceBlock(sector, c.names[dev], Join(c, data))
    case Progress(percent) => W.Progress(percent)
  }

  ghost function FromEntry(c: Code, e: W.Entry): Option<Record> {
    match e
    case DeviceBlock(sector, name, payload) =>
      (match Find(c.names, name) case None => None case Some(i) => Some(Block(i, sector, Split(c, payload))))
    case Progress(percent) => Some(Progress(percent))
  }

  lemma EntryBack(c: Code, r: Record)
    requires Distinct(c.names) && Carried(c, r) && !r.Eos?
    ensures FromEntry(c, ToEntry(c, r)) == Some(r) && W.Encodable(ToEntry(c, r))
  {
    hide Join, Split, Find;
    if r.Block? {
      SplitJoin(c, r.data);
      FindsIt(c.names, r.dev);
    }
  }

  ghost function ToEntries(c: Code, rs: seq<Record>): (es: seq<W.Entry>)
    requires forall r :: r in rs ==> Carried(c, r) && !r.Eos?
  {
    if rs == [] then [] else [ToEntry(c, rs[0])] + ToEntries(c, rs[1..])
  }

  ghost function FromEntries(c: Code, es: seq<W.Entry>): Option<seq<Record>> {
    if es == [] then Some([])
    else
      match FromEntry(c, es[0])
      case None => None
      case Some(r) => (match FromEntries(c, es[1..]) case None => None case Some(rs) => Some([r] + rs))
  }

  lemma {:induction false} EntriesBack(c: Code, rs: seq<Record>)
    requires Distinct(c.names) && forall r :: r in rs ==> Carried(c, r) && !r.Eos?
    ensures FromEntries(c, ToEntries(c, rs)) == Some(rs)
    ensures forall e :: e in ToEntries(c, rs) ==> W.Encodable(e)
  {
    hide FromEntry, ToEntry, Carried;
    if rs != [] {
      EntryBack(c, rs[0]);
      EntriesBack(c, rs[1..]);
      var es := ToEntries(c, rs);
      assert es[1..] == ToEntries(c, rs[1..]);
      assert rs == [rs[0]] + rs[1..];
    }
  }

  // ---------------------------------------------------------------- the whole stream

  /** What the source puts on the wire. */
  ghost function Wire(c: Code, stream: seq<Record>): Bytes
    requires forall r :: r in stream ==> Carried(c, r)
  {
    if stream == [] then []
    else (if stream[0].Eos? then W.Header(0, 2) else W.Encode(ToEntry(c, stream[0]))) + Wire(c, stream[1..])
  }

  /** What block_load, called for every section, makes of it. */
  ghost function Unwire(c: Code, bytes: Bytes): Option<seq<Record>>
    decreases |bytes|
  {
    if bytes == [] then Some([])
    else
      match W.DecodeSection(bytes)
      case None => None
      case Some(p) =>
        match FromEntries(c, p.entries)
        case None => None
        case Some(rs) => (match Unwire(c, p.rest) case None => None case Some(more) => Some(rs + [Eos] + more))
  }

  /** The first section of a stream is the entries before its end marker. */
  lemma {:induction false} FirstSection(c: Code, stream: seq<Record>, n: nat)
    requires forall r :: r in stream ==> Carried(c, r)
    requires n < |stream| && stream[n].Eos? && forall k :: 0 <= k < n ==> !stream[k].Eos?
    ensures (forall r :: r in stream[..n] ==> Carried(c, r) && !r.Eos?) && (forall r :: r in stream[n + 1..] ==> Carried(c, r))
    ensures Wire(c, stream) == W.EncodeSection(ToEntries(c, stream[..n])) + Wire(c, stream[n + 1..])
    decreases n
  {
    hide Carried, ToEntry;
    if n == 0 {
      assert stream[..0] == [];
    } else {
      var rest := stream[1..];
      assert forall k :: 0 <= k < |rest| ==> rest[k] == stream[k + 1];
      FirstSection(c, rest, n - 1);
      assert stream[..n][0] == stream[0] && stream[..n][1..] == rest[..n - 1] && rest[n..] == stream[n + 1..];
      var e, es, more := ToEntry(c, stream[0]), ToEntries(c, rest[..n - 1]), Wire(c, stream[n + 1..]);
      assert ToEntries(c, stream[..n]) == [e] + es;
      assert ([e] + es)[1..] == es;
      assert W.Encode(e) + (W.EncodeSection(es) + more) == W.Encode(e) + W.EncodeSection(es) + more;
    }
  }

  ghost function FirstEos(stream: seq<Record>): (n: nat)
    requires stream != [] && stream[|stream| - 1].Eos?
    ensures n < |stream| && stream[n].Eos? && forall k :: 0 <= k < n ==> !stream[k].Eos?
  {
    if stream[0].Eos? then 0
    else
      assert forall k :: 0 <= k < |stream| - 1 ==> stream[1..][k] == stream[k + 1];
      1 + FirstEos(stream[1..])
  }

  /** The wire round trip: a stream that ends with an end marker, as every stage leaves it, is loaded
      record for record. */
  lemma {:induction false} WireRoundTrip(c: Code, stream: seq<Record>)
    requires Distinct(c.names) && (forall r :: r in stream ==> Carried(c, r))
    requires stream != [] ==> stream[|stream| - 1].Eos?
    ensures Unwire(c, Wire(c, stream)) == Some(stream)
    decreases |stream|
  {
    hide *;
    if stream == [] {
      NothingWired(c);
    } else {
      var n := FirstEos(stream);
      FirstSection(c, stream, n);
      var rs, more := stream[..n], stream[n + 1..];
      EntriesBack(c, rs);
      WireRoundTrip(c, more);
      var es, rest := ToEntries(c, rs), Wire(c, more);
      W.SectionRoundTrip(es, rest);
      UnwireStep(c, W.EncodeSection(es) + rest, es, rs, rest, more);
      assert stream == rs + [Eos] + more;
    }
  }

  lemma NothingWired(c: Code)
    ensures Wire(c, []) == [] && Unwire(c, []) == Some([])
  {
  }

  lemma UnwireStep(c: Code, bytes: Bytes, es: seq<W.Entry>, rs: seq<Record>, rest: Bytes, more: seq<Record>)
    requires bytes != [] && W.DecodeSection(bytes) == Some(W.Parsed(es, rest))
    requires FromEntries(c, es) == Some(rs) && Unwire(c, rest) == Some(more)
    ensures Unwire(c, bytes) == Some(rs + [Eos] + more)
  {
    hide W.DecodeSection, FromEntries;
  }

  /** Loading bytes. */
  ghost function LoadBytes(c: Code, dests: seq<seq<Sector>>, bytes: Bytes): Option<Loaded> {
    match Unwire(c, bytes) case None => None case Some(stream) => Some(Load(dests, stream))
  }

  /** Hence convergence is convergence on the wire. */
  lemma ConvergesOnTheWire(c: Code, devs: seq<Dev>, base: seq<seq<Sector>>, stream: seq<Record>)
    requires Distinct(c.names) && (forall r :: r in stream ==> Carried(c, r))
    requires stream != [] ==> stream[|stream| - 1].Eos?
    ensures Converges(devs, base, stream) <==>
            forall dests :: Compatible(devs, base, dests) ==> LoadBytes(c, dests, Wire(c, stream)) == Some(Ok(Disks(devs)))
  {
    hide Wire, Unwire, Load, Compatible;
    WireRoundTrip(c, stream);
  }
}
