/**
 The bytes of the migration stream: blk_send and the progress and end markers of
 block-migration.c on one side, the parsing loop of block_load on the other.
 */
module MigrationWire {
  import opened Options

  newtype Byte = n: int | 0 <= n < 256

  /** BLOCK_SIZE: the bytes of one chunk. */
  const BLOCK_SIZE: int := 0x100000

  /** A section of the stream is a number of entries followed by the end marker. */
  datatype Entry =
    | DeviceBlock(sector: nat, name: seq<Byte>, payload: seq<Byte>)
    | Progress(percent: nat)

  /** What the header can hold, 55 bits above the nine flag bits, and what a device name can be: its
      array has 32 characters, one of them the final zero. */
  ghost predicate Encodable(e: Entry) {
    match e
    case DeviceBlock(sector, name, payload) =>
      sector < 0x80_0000_0000_0000 && |name| < 32 && |payload| == BLOCK_SIZE
    case Progress(percent) => percent < 0x80_0000_0000_0000
  }

  /** qemu_put_be64 */
  function PutBe(v: nat, width: nat): (bytes: seq<Byte>)
    ensures |bytes| == width
  {
    if width == 0 then [] else PutBe(v / 256, width - 1) + [(v % 256) as Byte]
  }

  /** qemu_get_be64 */
  function GetBe(bytes: seq<Byte>): nat {
    if bytes == [] then 0 else GetBe(bytes[..|bytes| - 1]) * 256 + bytes[|bytes| - 1] as int
  }

  function Pow256(width: nat): nat {
    if width == 0 then 1 else 256 * Pow256(width - 1)
  }

  lemma {:induction false} BeRoundTrip(v: nat, width: nat)
    requires v < Pow256(width)
    ensures GetBe(PutBe(v, width)) == v
  {
    if width > 0 {
      BeRoundTrip(v / 256, width - 1);
      assert PutBe(v, width)[..width - 1] == PutBe(v / 256, width - 1);
    }
  }

  /** BLK_MIG_FLAG_DEVICE_BLOCK, BLK_MIG_FLAG_EOS and BLK_MIG_FLAG_PROGRESS are bits 0, 1 and 2 of a
      header whose upper bits hold the sector or the percentage. */
  function Header(value: nat, flag: nat): seq<Byte> {
    PutBe(value * 512 + flag, 8)
  }

  lemma HeaderRoundTrip(value: nat, flag: nat)
    requires value < 0x80_0000_0000_0000 && flag < 512
    ensures |Header(value, flag)| == 8
    ensures GetBe(Header(value, flag)) / 512 == value && GetBe(Header(value, flag)) % 512 == flag
  {
    assert Pow256(8) == 0x1_0000_0000_0000_0000 by {
      assert Pow256(2) == 0x1_0000;
      assert Pow256(4) == 256 * (256 * Pow256(2));
      assert Pow256(6) == 256 * (256 * Pow256(4));
      assert Pow256(8) == 256 * (256 * Pow256(6));
    }
    BeRoundTrip(value * 512 + flag, 8);
  }

  function Encode(e: Entry): (bytes: seq<Byte>)
    ensures |bytes| >= 8
  {
    match e
    case DeviceBlock(sector, name, payload) =>
      Header(sector, 1) + [(|name| % 256) as Byte] + name + payload
    case Progress(percent) => Header(percent, 4)
  }

  /** A whole section: entries, then the end marker. */
  function EncodeSection(entries: seq<Entry>): (bytes: seq<Byte>)
    ensures |bytes| >= 8
  {
    if entries == [] then Header(0, 2) else Encode(entries[0]) + EncodeSection(entries[1..])
  }

  datatype Parsed = Parsed(entries: seq<Entry>, rest: seq<Byte>)

  /** The loop of block_load. It fails on a truncated stream and on a header with no known flag. */
  function DecodeSection(bytes: seq<Byte>): (r: Option<Parsed>)
    ensures r.Some? ==> |r.value.rest| < |bytes|
    decreases |bytes|, 0
  {
    if |bytes| < 8 then None
    else
      var v := GetBe(bytes[..8]);
      var flags := v % 512;
      if flags % 2 == 1 then
        if |bytes| < 9 || |bytes| < 9 + bytes[8] as int + BLOCK_SIZE then None
        else
          var len := bytes[8] as int;
          var e := DeviceBlock(v / 512, bytes[9..9 + len], bytes[9 + len..9 + len + BLOCK_SIZE]);
          Continue(e, flags, bytes[9 + len + BLOCK_SIZE..])
      else if flags / 4 % 2 == 1 then Continue(Progress(v / 512), flags, bytes[8..])
      else if flags / 2 % 2 == 1 then Some(Parsed([], bytes[8..]))
      else None
  }

  /** The section goes on after an entry unless its header also carried the end flag. */
  function Continue(e: Entry, flags: nat, rest: seq<Byte>): (r: Option<Parsed>)
    ensures r.Some? ==> |r.value.rest| <= |rest|
    decreases |rest|, 1
  {
    if flags / 2 % 2 == 1 then Some(Parsed([e], rest))
    else
      match DecodeSection(rest)
      case Some(p) => Some(Parsed([e] + p.entries, p.rest))
      case None => None
  }

  /** What blk_send writes for one entry is parsed back, whatever follows it. */
  lemma EntryParses(e: Entry, rest: seq<Byte>)
    requires Encodable(e)
    ensures DecodeSection(Encode(e) + rest) == Continue(e, if e.DeviceBlock? then 1 else 4, rest)
  {
    hide DecodeSection, Continue, Header, GetBe;
    var bytes := Encode(e) + rest;
    if e.DeviceBlock? {
      HeaderRoundTrip(e.sector, 1);
      BlockLayout(Header(e.sector, 1), e.name, e.payload, rest);
      BlockStep(bytes, e, rest);
    } else {
      HeaderRoundTrip(e.percent, 4);
      assert bytes[..8] == Header(e.percent, 4);
      assert bytes[8..] == rest;
      ProgressStep(bytes, e, rest);
    }
  }

  lemma BlockLayout(head: seq<Byte>, name: seq<Byte>, payload: seq<Byte>, rest: seq<Byte>)
    requires |head| == 8 && |name| < 256
    ensures var bytes, len, end := head + [(|name| % 256) as Byte] + name + payload + rest, |name|, 9 + |name| + |payload|;
            |bytes| >= end && bytes[..8] == head && bytes[8] as int == len &&
            bytes[9..9 + len] == name && bytes[9 + len..end] == payload && bytes[end..] == rest
  {
  }

  lemma BlockStep(bytes: seq<Byte>, e: Entry, rest: seq<Byte>)
    requires e.DeviceBlock? && |bytes| >= 9 + |e.name| + BLOCK_SIZE
    requires GetBe(bytes[..8]) / 512 == e.sector && GetBe(bytes[..8]) % 512 == 1 && bytes[8] as int == |e.name|
    requires bytes[9..9 + |e.name|] == e.name && bytes[9 + |e.name|..9 + |e.name| + BLOCK_SIZE] == e.payload
    requires bytes[9 + |e.name| + BLOCK_SIZE..] == rest
    ensures DecodeSection(bytes) == Continue(e, 1, rest)
  {
    hide Continue, GetBe;
  }

  lemma ProgressStep(bytes: seq<Byte>, e: Entry, rest: seq<Byte>)
    requires e.Progress? && |bytes| >= 8 && bytes[8..] == rest
    requires GetBe(bytes[..8]) / 512 == e.percent && GetBe(bytes[..8]) % 512 == 4
    ensures DecodeSection(bytes) == Continue(e, 4, rest)
  {
    hide Continue, GetBe;
  }

  lemma EosStep(bytes: seq<Byte>)
    requires |bytes| >= 8 && GetBe(bytes[..8]) % 512 == 2
    ensures DecodeSection(bytes) == Some(Parsed([], bytes[8..]))
  {
    hide Continue, GetBe;
  }

  /** The stream round trip: parsing a section gives back the entries that were written and leaves
      what follows the section untouched. */
  lemma {:induction false} SectionRoundTrip(entries: seq<Entry>, rest: seq<Byte>)
    requires forall e :: e in entries ==> Encodable(e)
    ensures DecodeSection(EncodeSection(entries) + rest) == Some(Parsed(entries, rest))
  {
    hide DecodeSection, Encode, Header, GetBe;
    var bytes := EncodeSection(entries) + rest;
    if entries == [] {
      HeaderRoundTrip(0, 2);
      assert bytes[..8] == Header(0, 2);
      assert bytes[8..] == rest;
      EosStep(bytes);
    } else {
      var e, more := entries[0], EncodeSection(entries[1..]) + rest;
      assert bytes == Encode(e) + more;
      EntryParses(e, more);
      SectionRoundTrip(entries[1..], rest);
      assert entries == [e] + entries[1..];
    }
  }
}
