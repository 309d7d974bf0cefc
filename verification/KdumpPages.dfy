// The page section of the kdump-compressed format: the write-behind caches, the page writer of
// dump.c, and the reader such a file is for.

module KdumpPages {
  import opened Basics
  import opened LittleEndian
  import opened VmcoreFiles
  import opened GuestPages
  import opened DumpBitmaps

  // ------------------------------------------------------------------------------------------
  // Page descriptors

  /** PageDescriptor; page_flags is always 0. */
  datatype Descriptor = Descriptor(offset: nat, size: nat, flags: nat)

  const DESCRIPTOR_SIZE: nat := 24

  function Encode(d: Descriptor): (r: seq<Byte>)
    ensures |r| == DESCRIPTOR_SIZE
  {
    Le(d.offset, 8) + Le(d.size, 4) + Le(d.flags, 4) + Le(0, 8)
  }

  function Parse(bytes: seq<Byte>): Descriptor
    requires |bytes| == DESCRIPTOR_SIZE
  {
    Descriptor(UnLe(bytes[..8]), UnLe(bytes[8..12]), UnLe(bytes[12..16]))
  }

  predicate Fits(d: Descriptor) {
    d.offset < 0x1_0000_0000_0000_0000 && d.size < 0x1_0000_0000 && d.flags < 0x1_0000_0000
  }

  lemma ParseEncode(d: Descriptor)
    requires Fits(d)
    ensures Parse(Encode(d)) == d && UnLe(Encode(d)[16..]) == 0
  {
    Widths();
    LeRoundTrip(0, 8);
    LeRoundTrip(d.offset, 8);
    LeRoundTrip(d.size, 4);
    LeRoundTrip(d.flags, 4);
    var r := Encode(d);
    assert r[..8] == Le(d.offset, 8);
    assert r[8..12] == Le(d.size, 4);
    assert r[12..16] == Le(d.flags, 4);
    assert r[16..] == Le(0, 8);
  }

  /** The descriptor section. */
  function EncodeAll(ds: seq<Descriptor>): (r: seq<Byte>)
    ensures |r| == DESCRIPTOR_SIZE * |ds|
  {
    if ds == [] then [] else EncodeAll(ds[..|ds| - 1]) + Encode(ds[|ds| - 1])
  }

  lemma {:induction false} EncodedAt(ds: seq<Descriptor>, k: nat)
    requires k < |ds|
    ensures EncodeAll(ds)[DESCRIPTOR_SIZE * k..DESCRIPTOR_SIZE * (k + 1)] == Encode(ds[k])
  {
    if k < |ds| - 1 {
      var front := ds[..|ds| - 1];
      EncodedAt(front, k);
      assert EncodeAll(ds)[DESCRIPTOR_SIZE * k..DESCRIPTOR_SIZE * (k + 1)]
        == EncodeAll(front)[DESCRIPTOR_SIZE * k..DESCRIPTOR_SIZE * (k + 1)];
    }
  }

  // ------------------------------------------------------------------------------------------
  // The write-behind cache

  class DataCache {
    const buf: array<Byte>
    var dataSize: nat
    var offset: nat
    ghost const start: nat
    ghost var stream: seq<Byte>

    /** The file holds what has been handed in from start on, except for what the buffer still holds. */
    ghost predicate Valid(log: seq<Record>)
      reads this, buf
    {
      && dataSize <= buf.Length && dataSize <= |stream|
      && offset == start + |stream| - dataSize
      && buf[..dataSize] == stream[|stream| - dataSize..]
      && Holds(log, start, stream[..|stream| - dataSize])
    }

    /** prepare_data_cache. */
    constructor (bufSize: nat, offset: nat, ghost log: seq<Record>)
      ensures fresh(buf) && buf.Length == bufSize && start == offset && stream == [] && Valid(log)
    {
      buf := new Byte[bufSize](i => 0);
      dataSize, this.offset := 0, offset;
      start, stream := offset, [];
    }

    /** A record elsewhere in the file does not matter. */
    lemma Elsewhere(log: seq<Record>, log': seq<Record>, lo: nat, hi: nat)
      requires Valid(log) && Touches(log, log', lo, hi) && (start + |stream| <= lo || hi <= start)
      ensures Valid(log')
    {
      TouchesHolds(log, log', lo, hi, start, stream[..|stream| - dataSize]);
    }

    /** Appends the buffer to the file. */
    method Spill(s: DumpState)
      requires Valid(s.log)
      modifies this`dataSize, this`offset, s`log
      ensures Valid(s.log) && dataSize == 0
      ensures Touches(old(s.log), s.log, start, start + |stream|)
    {
      ghost var r := Record(offset, buf[..dataSize]);
      HoldsMore(s.log, r, start, stream[..|stream| - dataSize]);
      TouchesOne(s.log, r, start, start + |stream|);
      assert stream[..|stream| - dataSize] + r.data == stream[..|stream| - 0];
      s.WriteBuffer(offset, buf[..dataSize]);
      offset := offset + dataSize;
      dataSize := 0;
    }

    /** memcpy into the buffer. */
    method Put(data: seq<Byte>, ghost log: seq<Record>)
      requires Valid(log) && dataSize + |data| <= buf.Length
      modifies this`dataSize, this`stream, buf
      ensures Valid(log) && stream == old(stream) + data && dataSize == old(dataSize) + |data|
    {
      forall i | 0 <= i < |data| { buf[dataSize + i] := data[i]; }
      stream := stream + data;
      dataSize := dataSize + |data|;
      assert stream[..|stream| - dataSize] == old(stream)[..|old(stream)| - old(dataSize)];
      assert buf[..dataSize] == stream[|stream| - dataSize..];
    }

    /** write_cache. */
    method Write(s: DumpState, data: seq<Byte>, sync: bool)
      requires Valid(s.log) && |data| <= buf.Length
      modifies this`dataSize, this`offset, this`stream, buf, s`log
      ensures Valid(s.log)
      ensures stream == if sync then old(stream) else old(stream) + data
      ensures sync ==> Holds(s.log, start, stream)
      ensures dataSize == if sync then 0 else |data| + if old(dataSize) + |data| <= buf.Length then old(dataSize) else 0
      ensures Touches(old(s.log), s.log, start, start + |old(stream)|)
    {
      if (!sync && dataSize + |data| > buf.Length) || (sync && dataSize > 0) {
        Spill(s);
      }
      if !sync {
        Put(data, s.log);
      }
      assert stream[..|stream| - 0] == stream;
    }
  }

  // ------------------------------------------------------------------------------------------
  // What a descriptor means

  /** The compression in use: its flag and the two directions, of which the first may fail. */
  datatype Codec = Codec(flag: nat, compress: seq<Byte> -> Option<seq<Byte>>, decompress: seq<Byte> -> seq<Byte>)

  ghost predicate CodecOk(c: Codec) {
    && (c.flag == 1 || c.flag == 2 || c.flag == 4)
    && (forall p :: c.compress(p).Some? ==> c.decompress(c.compress(p).value) == p)
  }

  function Expand(c: Codec, flags: nat, bytes: seq<Byte>): seq<Byte> {
    if flags == 0 then bytes else c.decompress(bytes)
  }

  /** The descriptor points into the data section at bytes that decode to the page. */
  ghost predicate Describes(c: Codec, d: Descriptor, page: seq<Byte>, data: seq<Byte>, dataStart: nat) {
    && dataStart <= d.offset && d.offset + d.size <= dataStart + |data|
    && d.size <= |page| && d.flags <= 4
    && Expand(c, d.flags, data[d.offset - dataStart..d.offset - dataStart + d.size]) == page
  }

  lemma DescribesMore(c: Codec, d: Descriptor, page: seq<Byte>, data: seq<Byte>, dataStart: nat, more: seq<Byte>)
    requires Describes(c, d, page, data, dataStart)
    ensures Describes(c, d, page, data + more, dataStart)
  {
    var lo := d.offset - dataStart;
    assert (data + more)[lo..lo + d.size] == data[lo..lo + d.size];
  }

  /** The first k pages are described; all zero pages share the slot at the start of the data. */
  ghost predicate Stored(c: Codec, ds: seq<Descriptor>, frames: seq<Frame>, page: nat, data: seq<Byte>,
      dataStart: nat) {
    && |ds| <= |frames|
    && page <= |data| <= page + page * |ds| && data[..page] == Zeros(page)
    && (forall j :: 0 <= j < |ds| ==> Describes(c, ds[j], frames[j].bytes, data, dataStart))
    && (forall j :: 0 <= j < |ds| && frames[j].bytes == Zeros(page) ==> ds[j] == Descriptor(dataStart, page, 0))
  }

  /** One page: what is appended to the data section, and its descriptor. */
  ghost predicate Chosen(c: Codec, d: Descriptor, more: seq<Byte>, bytes: seq<Byte>, page: nat, data: seq<Byte>,
      dataStart: nat) {
    && |more| <= page && Describes(c, d, bytes, data + more, dataStart)
    && (bytes == Zeros(page) ==> d == Descriptor(dataStart, page, 0))
  }

  lemma OneMore(page: nat, n: nat)
    ensures page * (n + 1) == page * n + page
  {
  }

  lemma StoredNext(c: Codec, ds: seq<Descriptor>, frames: seq<Frame>, page: nat, data: seq<Byte>, dataStart: nat,
      d: Descriptor, more: seq<Byte>)
    requires Stored(c, ds, frames, page, data, dataStart) && |ds| < |frames|
    requires Chosen(c, d, more, frames[|ds|].bytes, page, data, dataStart)
    ensures Stored(c, ds + [d], frames, page, data + more, dataStart)
  {
    hide Describes, Zeros;
    assert (data + more)[..page] == data[..page];
    OneMore(page, |ds|);
    forall j | 0 <= j < |ds| ensures Describes(c, ds[j], frames[j].bytes, data + more, dataStart) {
      DescribesMore(c, ds[j], frames[j].bytes, data, dataStart, more);
    }
  }

  // ------------------------------------------------------------------------------------------
  // write_dump_pages

  /** The two caches and the regions they write. */
  ghost predicate Caches(s: DumpState, desc: DataCache, data: DataCache, n: nat, ds: seq<Descriptor>)
    reads s, desc, desc.buf, data, data.buf
  {
    && desc != data && desc.buf != data.buf && s.page >= 8
    && desc.buf.Length == data.buf.Length == 4 * s.page
    && desc.Valid(s.log) && data.Valid(s.log)
    && desc.start == s.offsetPage && data.start == s.offsetPage + DESCRIPTOR_SIZE * n
    && |ds| <= n && desc.stream == EncodeAll(ds)
  }

  method WriteData(s: DumpState, desc: DataCache, data: DataCache, bytes: seq<Byte>, sync: bool, ghost n: nat,
      ghost ds: seq<Descriptor>)
    requires Caches(s, desc, data, n, ds) && |bytes| <= s.page
    modifies s`log, data`dataSize, data`offset, data`stream, data.buf
    ensures Caches(s, desc, data, n, ds)
    ensures data.stream == if sync then old(data.stream) else old(data.stream) + bytes
    ensures sync ==> Holds(s.log, data.start, data.stream)
    ensures Touches(old(s.log), s.log, data.start, data.start + |old(data.stream)|)
  {
    data.Write(s, bytes, sync);
    desc.Elsewhere(old(s.log), s.log, data.start, data.start + |old(data.stream)|);
  }

  method WriteDescriptor(s: DumpState, desc: DataCache, data: DataCache, d: Descriptor, ghost n: nat,
      ghost ds: seq<Descriptor>)
    requires Caches(s, desc, data, n, ds) && |ds| < n
    modifies s`log, desc`dataSize, desc`offset, desc`stream, desc.buf
    ensures Caches(s, desc, data, n, ds + [d])
    ensures Touches(old(s.log), s.log, desc.start, data.start)
  {
    desc.Write(s, Encode(d), false);
    data.Elsewhere(old(s.log), s.log, desc.start, desc.start + |old(desc.stream)|);
    assert (ds + [d])[..|ds|] == ds;
  }

  method SyncDescriptors(s: DumpState, desc: DataCache, data: DataCache, ghost n: nat, ghost ds: seq<Descriptor>)
    requires Caches(s, desc, data, n, ds)
    modifies s`log, desc`dataSize, desc`offset, desc`stream, desc.buf
    ensures Caches(s, desc, data, n, ds) && Holds(s.log, desc.start, EncodeAll(ds))
    ensures Touches(old(s.log), s.log, desc.start, data.start)
  {
    desc.Write(s, [], true);
    data.Elsewhere(old(s.log), s.log, desc.start, desc.start + |old(desc.stream)|);
  }

  /** One round of the loop of write_dump_pages. */
  method StorePage(s: DumpState, c: Codec, desc: DataCache, data: DataCache, pdZero: Descriptor, bytes: seq<Byte>,
      offsetData: nat, ghost frames: seq<Frame>, ghost ds: seq<Descriptor>)
    returns (offsetData': nat, ghost ds': seq<Descriptor>)
    requires Caches(s, desc, data, |frames|, ds) && CodecOk(c)
    requires Stored(c, ds, frames, s.page, data.stream, data.start) && offsetData == data.start + |data.stream|
    requires |ds| < |frames| && bytes == frames[|ds|].bytes && |bytes| == s.page
    requires pdZero == Descriptor(data.start, s.page, 0)
    modifies s`log, desc`dataSize, desc`offset, desc`stream, desc.buf, data`dataSize, data`offset, data`stream, data.buf
    ensures Caches(s, desc, data, |frames|, ds') && |ds'| == |ds| + 1
    ensures Stored(c, ds', frames, s.page, data.stream, data.start) && offsetData' == data.start + |data.stream|
    ensures |old(data.stream)| <= |data.stream|
    ensures Touches(old(s.log), s.log, s.offsetPage, data.start + |old(data.stream)|)
  {
    hide Holds, EncodeAll, Encode, CodecOk, Stored, Chosen, Describes, Touches, Zeros, DataCache.Valid;
    var pd, more := pdZero, [];
    ghost var size := |data.stream|;
    TouchesNone(s.log, data.start, data.start + size);
    if bytes != Zeros(s.page) {
      var packed := c.compress(bytes);
      if packed.Some? && |packed.value| < s.page {
        pd, more := Descriptor(offsetData, |packed.value|, c.flag), packed.value;
      } else {
        pd, more := Descriptor(offsetData, s.page, 0), bytes;
      }
      WriteData(s, desc, data, more, false, |frames|, ds);
    }
    ghost var log := s.log;
    ChosenOk(c, bytes, s.page, old(data.stream), data.start, frames, ds);
    StoredNext(c, ds, frames, s.page, old(data.stream), data.start, pd, more);
    assert data.stream == old(data.stream) + more;
    offsetData' := offsetData + |more|;
    WriteDescriptor(s, desc, data, pd, |frames|, ds);
    ds' := ds + [pd];
    TouchesBoth(old(s.log), log, s.log, data.start, data.start + size, desc.start, data.start, s.offsetPage,
        data.start + size);
  }

  /** What write_dump_pages appends for a page, and the descriptor it makes. */
  function Choice(c: Codec, bytes: seq<Byte>, page: nat, dataStart: nat, offsetData: nat): (Descriptor, seq<Byte>) {
    if bytes == Zeros(page) then (Descriptor(dataStart, page, 0), [])
    else if c.compress(bytes).Some? && |c.compress(bytes).value| < page
    then (Descriptor(offsetData, |c.compress(bytes).value|, c.flag), c.compress(bytes).value)
    else (Descriptor(offsetData, page, 0), bytes)
  }

  /** It does describe the page. */
  lemma ChosenOk(c: Codec, bytes: seq<Byte>, page: nat, data: seq<Byte>, dataStart: nat, frames: seq<Frame>,
      ds: seq<Descriptor>)
    requires CodecOk(c) && |bytes| == page && Stored(c, ds, frames, page, data, dataStart)
    ensures var (d, more) := Choice(c, bytes, page, dataStart, dataStart + |data|);
      Chosen(c, d, more, bytes, page, data, dataStart)
  {
    var (d, more) := Choice(c, bytes, page, dataStart, dataStart + |data|);
    var lo := d.offset - dataStart;
    if bytes == Zeros(page) {
      assert (data + more)[lo..lo + d.size] == data[..page];
    } else {
      assert (data + more)[lo..lo + d.size] == more;
    }
  }

  /** The page section is complete: descriptors, then data. */
  ghost predicate PagesWritten(log: seq<Record>, offsetPage: nat, c: Codec, frames: seq<Frame>, page: nat,
      ds: seq<Descriptor>, data: seq<Byte>)
  {
    var dataStart := offsetPage + DESCRIPTOR_SIZE * |frames|;
    && |ds| == |frames| && Holds(log, offsetPage, EncodeAll(ds)) && Holds(log, dataStart, data)
    && Stored(c, ds, frames, page, data, dataStart)
  }

  /** The loop over all pages. */
  method StoreAll(s: DumpState, c: Codec, desc: DataCache, data: DataCache, pdZero: Descriptor, offsetData0: nat)
    returns (ghost ds: seq<Descriptor>)
    requires BlocksOk(s.blocks, s.page) && s.blocks != [] && CodecOk(c)
    requires Caches(s, desc, data, |Frames(s.blocks, s.page)|, [])
    requires data.stream == Zeros(s.page) && offsetData0 == data.start + s.page
    requires pdZero == Descriptor(data.start, s.page, 0)
    modifies s`log, desc`dataSize, desc`offset, desc`stream, desc.buf, data`dataSize, data`offset, data`stream, data.buf
    ensures Caches(s, desc, data, |Frames(s.blocks, s.page)|, ds) && |ds| == |Frames(s.blocks, s.page)|
    ensures Stored(c, ds, Frames(s.blocks, s.page), s.page, data.stream, data.start) && s.page <= |data.stream|
    ensures Touches(old(s.log), s.log, s.offsetPage, data.start + |data.stream|)
  {
    ghost var frames := Frames(s.blocks, s.page);
    var offsetData := offsetData0;
    ds := [];
    var more, block, pfn, bytes := GetNextPage(s.blocks, s.page, -1, 0);
    assert Stored(c, ds, frames, s.page, data.stream, data.start);
    hide Holds, EncodeAll, CodecOk, Describes, Stored, Frames, BlocksOk, CursorOk, Delivered, Caches;
    while more
      invariant more <==> |ds| < |frames|
      invariant |ds| <= |frames|
      invariant more ==> CursorOk(s.blocks, s.page, block, pfn)
      invariant more ==> Delivered(s.blocks, s.page, block, pfn) == |ds| + 1 && bytes == frames[|ds|].bytes
      invariant Caches(s, desc, data, |frames|, ds)
      invariant Stored(c, ds, frames, s.page, data.stream, data.start) && offsetData == data.start + |data.stream|
      invariant Touches(old(s.log), s.log, s.offsetPage, data.start + |data.stream|)
      decreases |frames| - |ds|
    {
      ghost var home := FrameHome(s.blocks, s.page, |ds|);
      offsetData, ds := StorePage(s, c, desc, data, pdZero, bytes, offsetData, frames, ds);
      more, block, pfn, bytes := GetNextPage(s.blocks, s.page, block, pfn);
    }
  }

  /** The two final flushes. */
  method SyncAll(s: DumpState, c: Codec, desc: DataCache, data: DataCache, ghost frames: seq<Frame>,
      ghost ds: seq<Descriptor>)
    requires Caches(s, desc, data, |frames|, ds) && |ds| == |frames|
    requires Stored(c, ds, frames, s.page, data.stream, data.start)
    modifies s`log, desc`dataSize, desc`offset, desc`stream, desc.buf, data`dataSize, data`offset, data`stream, data.buf
    ensures PagesWritten(s.log, s.offsetPage, c, frames, s.page, ds, data.stream) && data.stream == old(data.stream)
    ensures Touches(old(s.log), s.log, s.offsetPage, data.start + |data.stream|)
  {
    hide Holds, EncodeAll, CodecOk, Describes, Stored;
    SyncDescriptors(s, desc, data, |frames|, ds);
    ghost var log := s.log;
    WriteData(s, desc, data, [], true, |frames|, ds);
    TouchesHolds(log, s.log, data.start, data.start + |data.stream|, s.offsetPage, EncodeAll(ds));
  }

  /** Both caches, and the shared zero page as the first data. */
  method PrepareCaches(s: DumpState, offsetDesc: nat, offsetData: nat) returns (desc: DataCache, data: DataCache)
    requires s.page >= 8 && offsetDesc == s.offsetPage && offsetData == offsetDesc + DESCRIPTOR_SIZE * s.numDumpable
    modifies s`log
    ensures fresh(desc) && fresh(desc.buf) && fresh(data) && fresh(data.buf)
    ensures Caches(s, desc, data, s.numDumpable, []) && data.stream == Zeros(s.page) && data.start == offsetData
    ensures Touches(old(s.log), s.log, offsetDesc, offsetData + s.page)
  {
    desc := new DataCache(4 * s.page, offsetDesc, s.log);
    data := new DataCache(4 * s.page, offsetData, s.log);
    WriteData(s, desc, data, Zeros(s.page), false, s.numDumpable, []);
    assert [] + Zeros(s.page) == Zeros(s.page);
  }

  method WriteDumpPages(s: DumpState, c: Codec) returns (ghost ds: seq<Descriptor>, ghost stored: seq<Byte>)
    requires BlocksOk(s.blocks, s.page) && s.blocks != [] && s.page >= 8 && CodecOk(c)
    requires s.numDumpable == |Frames(s.blocks, s.page)|
    modifies s`log
    ensures PagesWritten(s.log, s.offsetPage, c, Frames(s.blocks, s.page), s.page, ds, stored)
    ensures Touches(old(s.log), s.log, s.offsetPage, s.offsetPage + DESCRIPTOR_SIZE * s.numDumpable + |stored|)
  {
    hide Holds, EncodeAll, CodecOk, Describes, Stored, Frames, BlocksOk, PagesWritten, Caches;
    var offsetDesc := s.offsetPage;
    var offsetData := offsetDesc + DESCRIPTOR_SIZE * s.numDumpable;
    var desc, data := PrepareCaches(s, offsetDesc, offsetData);
    var pdZero := Descriptor(offsetData, s.page, 0);
    offsetData := offsetData + s.page;
    ds := StoreAll(s, c, desc, data, pdZero, offsetData);
    SyncAll(s, c, desc, data, Frames(s.blocks, s.page), ds);
    stored := data.stream;
  }

  // ------------------------------------------------------------------------------------------
  // Reading the file back

  /** A range of the replayed file, if all of it has been written. */
  function Fetch(log: seq<Record>, offset: nat, size: nat): (r: Option<seq<Byte>>)
    ensures r.Some? ==> |r.value| == size
  {
    if size == 0 then Some([])
    else
      var front := Fetch(log, offset, size - 1);
      var last := ByteAt(log, offset + (size - 1));
      if front.Some? && last.Some? then Some(front.value + [last.value]) else None
  }

  lemma {:induction false} FetchHeld(log: seq<Record>, offset: nat, bytes: seq<Byte>)
    requires Holds(log, offset, bytes)
    ensures Fetch(log, offset, |bytes|) == Some(bytes)
  {
    if bytes != [] {
      var n := |bytes| - 1;
      HoldsPart(log, offset, bytes, 0, n);
      FetchHeld(log, offset, bytes[..n]);
      assert bytes == bytes[..n] + [bytes[n]];
    }
  }

  /** What a reader of the format makes of the k-th descriptor. */
  function ReadPage(log: seq<Record>, c: Codec, offsetPage: nat, k: nat): Option<seq<Byte>> {
    var raw := Fetch(log, offsetPage + DESCRIPTOR_SIZE * k, DESCRIPTOR_SIZE);
    if raw.None? then None
    else
      var d := Parse(raw.value);
      var bytes := Fetch(log, d.offset, d.size);
      if bytes.None? then None else Some(Expand(c, d.flags, bytes.value))
  }

  /** The k-th descriptor leads to the k-th guest page. */
  lemma ReadBack(log: seq<Record>, offsetPage: nat, c: Codec, frames: seq<Frame>, page: nat, ds: seq<Descriptor>,
      data: seq<Byte>, k: nat)
    requires PagesWritten(log, offsetPage, c, frames, page, ds, data) && k < |frames|
    requires |frames[k].bytes| == page < 0x1_0000_0000
    requires offsetPage + DESCRIPTOR_SIZE * |frames| + page + page * |frames| < 0x1_0000_0000_0000_0000
    ensures ReadPage(log, c, offsetPage, k) == Some(frames[k].bytes)
  {
    hide EncodeAll, Holds, Encode, Parse, Fetch, Describes;
    var dataStart := offsetPage + DESCRIPTOR_SIZE * |frames|;
    assert Describes(c, ds[k], frames[k].bytes, data, dataStart);
    ReadAt(log, offsetPage, c, frames[k].bytes, ds, data, dataStart, k);
  }

  lemma ReadAt(log: seq<Record>, offsetPage: nat, c: Codec, page: seq<Byte>, ds: seq<Descriptor>, data: seq<Byte>,
      dataStart: nat, k: nat)
    requires Holds(log, offsetPage, EncodeAll(ds)) && Holds(log, dataStart, data) && k < |ds|
    requires Describes(c, ds[k], page, data, dataStart)
    requires |page| < 0x1_0000_0000 && dataStart + |data| < 0x1_0000_0000_0000_0000
    ensures ReadPage(log, c, offsetPage, k) == Some(page)
  {
    hide EncodeAll, Holds, Encode, Parse, Fetch, Expand, ReadPage, Describes, Fits;
    var d := ds[k];
    var from := DescribesPart(c, d, page, data, dataStart);
    ReadDescriptor(log, offsetPage, ds, k);
    var bytes := FetchPart(log, dataStart, data, from, d.offset, d.size);
    ReadAs(log, c, offsetPage, k, d, bytes);
  }

  lemma DescribesPart(c: Codec, d: Descriptor, page: seq<Byte>, data: seq<Byte>, dataStart: nat) returns (from: nat)
    requires Describes(c, d, page, data, dataStart)
    requires |page| < 0x1_0000_0000 && dataStart + |data| < 0x1_0000_0000_0000_0000
    ensures d.offset == dataStart + from && from + d.size <= |data| && Fits(d)
    ensures Expand(c, d.flags, data[from..from + d.size]) == page
  {
    from := d.offset - dataStart;
  }

  lemma ReadAs(log: seq<Record>, c: Codec, offsetPage: nat, k: nat, d: Descriptor, bytes: seq<Byte>)
    requires var raw := Fetch(log, offsetPage + DESCRIPTOR_SIZE * k, DESCRIPTOR_SIZE);
      raw.Some? && Parse(raw.value) == d
    requires Fetch(log, d.offset, d.size) == Some(bytes)
    ensures ReadPage(log, c, offsetPage, k) == Some(Expand(c, d.flags, bytes))
  {
    hide Parse, Fetch, Expand;
  }

  lemma FetchPart(log: seq<Record>, offset: nat, all: seq<Byte>, from: nat, at: nat,
      size: nat) returns (bytes: seq<Byte>)
    requires Holds(log, offset, all) && from + size <= |all| && at == offset + from
    ensures bytes == all[from..from + size] && Fetch(log, at, size) == Some(bytes)
  {
    hide Holds;
    bytes := all[from..from + size];
    HoldsPart(log, offset, all, from, from + size);
    FetchHeld(log, offset + from, bytes);
  }

  lemma HeldDescriptor(log: seq<Record>, offsetPage: nat, ds: seq<Descriptor>, k: nat)
    requires Holds(log, offsetPage, EncodeAll(ds)) && k < |ds|
    ensures Holds(log, offsetPage + DESCRIPTOR_SIZE * k, Encode(ds[k]))
  {
    hide EncodeAll, Encode, Holds;
    EncodedAt(ds, k);
    HoldsPart(log, offsetPage, EncodeAll(ds), DESCRIPTOR_SIZE * k, DESCRIPTOR_SIZE * (k + 1));
  }

  lemma ReadDescriptor(log: seq<Record>, offsetPage: nat, ds: seq<Descriptor>, k: nat)
    requires Holds(log, offsetPage, EncodeAll(ds)) && k < |ds| && Fits(ds[k])
    ensures var raw := Fetch(log, offsetPage + DESCRIPTOR_SIZE * k, DESCRIPTOR_SIZE);
      raw.Some? && Parse(raw.value) == ds[k]
  {
    hide EncodeAll, Encode, Parse, Holds, Fetch;
    HeldDescriptor(log, offsetPage, ds, k);
    FetchHeld(log, offsetPage + DESCRIPTOR_SIZE * k, Encode(ds[k]));
    ParseEncode(ds[k]);
  }
}
