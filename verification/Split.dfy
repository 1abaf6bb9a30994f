/** Splitting a WIM (internal/wim/split.go:63-251): the parts read back as the source. */
module Split {
  import opened Arith
  import opened WimFormat
  import opened Outside
  import opened Packing
  import opened Swm

  /** "MSWIM\0\0\0" as a little-endian number. */
  const IMAGE_TAG := 0x4D_4957_534D
  const DEFAULT_PART_MIB := 3800

  // ---- what a reader makes of a file

  /** The offset table of an uncompressed-table file. */
  function TableOf(file: seq<Byte>): Option<seq<Stream>> {
    if |file| < HEADER_SIZE then None else DecodeTable(At(file, DecodeHeader(file[..HEADER_SIZE]).table))
  }

  /** A stream with the bytes it stands for, wherever they are. */
  datatype Payload = Payload(packed: nat, original: int, refs: nat, hash: nat, data: seq<Byte>)

  function PayloadOf(c: seq<Byte>, s: Stream): Payload {
    Payload(s.res.packed, s.res.original, s.refs, s.hash, At(c, s.res))
  }

  function Payloads(c: seq<Byte>, ss: seq<Stream>): (ps: seq<Payload>)
    ensures |ps| == |ss|
  {
    if ss == [] then [] else Payloads(c, ss[..|ss| - 1]) + [PayloadOf(c, ss[|ss| - 1])]
  }

  // ---- one part

  lemma {:induction false} RelocatedAt(ss: seq<Stream>, k: nat, i: nat)
    requires i < |ss|
    ensures Relocated(ss, k)[i] == Move(ss[i], k, HEADER_SIZE + Bytes(ss[..i]))
  {
    var rest := ss[..|ss| - 1];
    if i < |rest| {
      RelocatedAt(rest, k, i);
      assert rest[..i] == ss[..i];
    }
  }

  lemma {:induction false} BlobDataAt(c: seq<Byte>, ss: seq<Stream>, i: nat)
    requires i < |ss| && forall s | s in ss :: Within(s.res, |c|)
    ensures var n := Size(ss[i].res);
            && Bytes(ss[..i]) + n <= Bytes(ss)
            && |BlobData(c, ss)| == Bytes(ss)
            && BlobData(c, ss)[Bytes(ss[..i])..Bytes(ss[..i]) + n] == At(c, ss[i].res)
  {
    hide Size, At, Within;
    BlobDataLength(c, ss);
    var rest := ss[..|ss| - 1];
    BlobDataLength(c, rest);
    InsideFile(ss[|ss| - 1].res, c);
    if i < |rest| {
      BlobDataAt(c, rest, i);
      assert rest[..i] == ss[..i];
    }
  }

  lemma PrefixBytes(ss: seq<Stream>, i: nat)
    requires i < |ss|
    ensures Bytes(ss[..i + 1]) == Bytes(ss[..i]) + Size(ss[i].res)
  {
    hide Size, Bytes;
    assert ss[..i + 1] == ss[..i] + [ss[i]];
    BytesAppend(ss[..i], ss[i]);
  }

  lemma PrefixGrows(ss: seq<Stream>, i: nat)
    requires i <= |ss|
    ensures Bytes(ss[..i]) <= Bytes(ss)
  {
    hide Size, Bytes;
    assert ss == ss[..i] + ss[i..];
    BytesSplit(ss[..i], ss[i..]);
  }

  /** Resources of a part lie after its header, in order and apart, before its table. */
  lemma ResourcesApart(ss: seq<Stream>, k: nat, i: nat, j: nat)
    requires i < j < |ss|
    ensures var a, b := Relocated(ss, k)[i].res, Relocated(ss, k)[j].res;
            HEADER_SIZE <= a.offset && a.offset + Size(a) <= b.offset && b.offset + Size(b) <= HEADER_SIZE + Bytes(ss)
  {
    hide Bytes, Relocated;
    RelocatedAt(ss, k, i);
    RelocatedAt(ss, k, j);
    PrefixBytes(ss, i);
    PrefixBytes(ss, j);
    assert ss[..j][..i + 1] == ss[..i + 1];
    PrefixGrows(ss[..j], i + 1);
    PrefixGrows(ss, j + 1);
  }

  lemma SliceOfMiddle(a: seq<Byte>, b: seq<Byte>, c: seq<Byte>)
    ensures Slice(a + b + c, |a|, |b|) == b
  {
  }

  lemma SliceInMiddle(a: seq<Byte>, b: seq<Byte>, c: seq<Byte>, i: nat, n: nat)
    requires i + n <= |b|
    ensures Slice(a + b + c, |a| + i, n) == b[i..i + n]
  {
  }

  lemma DataInFile(c: seq<Byte>, h: Header, guid: nat, ss: seq<Stream>, k: nat, n: nat, i: nat)
    requires AllWithin(c, h, ss) && i < |ss|
    ensures Slice(PartFile(c, h, guid, ss, k, n), HEADER_SIZE + Bytes(ss[..i]), Size(ss[i].res)) == At(c, ss[i].res)
  {
    hide EncodeHeader, PartHeader, PartTable, BlobData, Slice, Bytes, Size, At, Within;
    BlobDataAt(c, ss, i);
    var header, data := EncodeHeader(PartHeader(h, guid, ss, k, n)), BlobData(c, ss);
    Regroup(header + data, PartTable(ss, k), At(c, h.xml));
    SliceInMiddle(header, data, PartTable(ss, k) + At(c, h.xml), Bytes(ss[..i]), Size(ss[i].res));
  }

  /** In its part each stream has the bytes it had in the source, and nothing about it
      but its place has changed. */
  lemma PayloadMoves(c: seq<Byte>, h: Header, guid: nat, ss: seq<Stream>, k: nat, n: nat, i: nat)
    requires AllWithin(c, h, ss) && i < |ss|
    ensures PayloadOf(PartFile(c, h, guid, ss, k, n), Relocated(ss, k)[i]) == PayloadOf(c, ss[i])
    ensures Relocated(ss, k)[i].part == k % 65536
  {
    hide PartFile, Slice, Bytes, Within, Relocated, AllWithin;
    RelocatedAt(ss, k, i);
    DataInFile(c, h, guid, ss, k, n, i);
  }

  lemma {:induction false} PayloadsEqual(c: seq<Byte>, d: seq<Byte>, ss: seq<Stream>, rs: seq<Stream>)
    requires |ss| == |rs| && forall i | 0 <= i < |ss| :: PayloadOf(c, ss[i]) == PayloadOf(d, rs[i])
    ensures Payloads(c, ss) == Payloads(d, rs)
  {
    hide PayloadOf;
    if ss != [] {
      PayloadsEqual(c, d, ss[..|ss| - 1], rs[..|rs| - 1]);
    }
  }

  predicate AllValid(h: Header, guid: nat, ss: seq<Stream>) {
    ValidHeader(h) && guid < Pow256(16) && forall s | s in ss :: ValidStream(s)
  }

  lemma FinalHeaderValid(h: Header, guid: nat, k: nat, n: nat, tableStart: nat, tableSize: nat)
    requires ValidHeader(h) && guid < Pow256(16) && tableStart + tableSize < TWO_56
    ensures ValidHeader(FinalHeader(h, guid, k, n, tableStart, tableSize))
  {
    Pow256Values();
    assert HeadValues(h)[3] < Pow256(HEADER_HEAD[3]);
    assert HeadValues(h)[8] < Pow256(HEADER_HEAD[8]);
    var f := FinalHeader(h, guid, k, n, tableStart, tableSize);
    forall i | 0 <= i < |HEADER_HEAD|
      ensures HeadValues(f)[i] < Pow256(HEADER_HEAD[i])
    {
      assert HeadValues(h)[i] < Pow256(HEADER_HEAD[i]);
    }
    assert HEADER_BOOT[0] == 4;
  }

  lemma RelocatedValid(ss: seq<Stream>, k: nat, i: nat)
    requires i < |ss| && ValidStream(ss[i]) && HEADER_SIZE + Bytes(ss[..i]) < TWO_56
    ensures ValidStream(Relocated(ss, k)[i])
  {
    RelocatedAt(ss, k, i);
    Pow256Values();
    hide Relocated;
    var s := ss[i];
    assert STREAM_TAIL[0] == 2;
    forall j | 0 <= j < 3
      ensures [k % 65536, s.refs, s.hash][j] < Pow256(STREAM_TAIL[j])
    {
      assert [s.part, s.refs, s.hash][j] < Pow256(STREAM_TAIL[j]);
    }
  }

  lemma PartLength(c: seq<Byte>, h: Header, guid: nat, ss: seq<Stream>, k: nat, n: nat)
    requires AllWithin(c, h, ss)
    ensures |PartFile(c, h, guid, ss, k, n)| >= HEADER_SIZE + Bytes(ss) + STREAM_SIZE * |ss|
  {
    BlobDataLength(c, ss);
    hide EncodeHeader, BlobData, PartTable, PartHeader;
  }

  /** The header points at the table. */
  lemma TableInFile(c: seq<Byte>, h: Header, guid: nat, ss: seq<Stream>, k: nat, n: nat)
    requires AllWithin(c, h, ss) && STREAM_SIZE * |ss| < TWO_56
    ensures At(PartFile(c, h, guid, ss, k, n), PartHeader(h, guid, ss, k, n).table) == PartTable(ss, k)
    ensures Flags(PartHeader(h, guid, ss, k, n).table) == 0
  {
    TableResource(h, guid, k, n, HEADER_SIZE + Bytes(ss), STREAM_SIZE * |ss|);
    BlobDataLength(c, ss);
    var front := EncodeHeader(PartHeader(h, guid, ss, k, n)) + BlobData(c, ss);
    hide EncodeHeader, BlobData, PartTable, Slice, Size, Within, FinalHeader, Bytes;
    SliceOfMiddle(front, PartTable(ss, k), At(c, h.xml));
  }

  lemma HeaderInFile(c: seq<Byte>, h: Header, guid: nat, ss: seq<Stream>, k: nat, n: nat)
    requires ValidHeader(PartHeader(h, guid, ss, k, n))
    ensures var file := PartFile(c, h, guid, ss, k, n);
            |file| >= HEADER_SIZE && DecodeHeader(file[..HEADER_SIZE]) == PartHeader(h, guid, ss, k, n)
  {
    hide EncodeHeader, DecodeHeader, BlobData, PartTable, PartHeader, At, ValidHeader;
    HeaderRoundTrip(PartHeader(h, guid, ss, k, n));
    var header := EncodeHeader(PartHeader(h, guid, ss, k, n));
    assert PartFile(c, h, guid, ss, k, n)[..HEADER_SIZE] == header;
  }

  lemma {:induction false} AllRelocatedValid(ss: seq<Stream>, k: nat)
    requires (forall s | s in ss :: ValidStream(s)) && HEADER_SIZE + Bytes(ss) < TWO_56
    ensures forall r | r in Relocated(ss, k) :: ValidStream(r)
  {
    hide ValidStream, Size, Relocated;
    forall i | 0 <= i < |ss|
      ensures ValidStream(Relocated(ss, k)[i])
    {
      assert ss[i] in ss;
      assert ss == ss[..i] + ss[i..];
      BytesSplit(ss[..i], ss[i..]);
      RelocatedValid(ss, k, i);
    }
  }

  /** A part reads back: its header, its table, and every stream with its bytes. */
  lemma PartReadsBack(c: seq<Byte>, h: Header, guid: nat, ss: seq<Stream>, k: nat, n: nat)
    requires AllWithin(c, h, ss) && AllValid(h, guid, ss) && |PartFile(c, h, guid, ss, k, n)| < TWO_56
    ensures var file := PartFile(c, h, guid, ss, k, n);
            && |file| >= HEADER_SIZE
            && DecodeHeader(file[..HEADER_SIZE]) == PartHeader(h, guid, ss, k, n)
            && TableOf(file) == Some(Relocated(ss, k))
            && Payloads(file, Relocated(ss, k)) == Payloads(c, ss)
  {
    hide PartFile, Bytes, Relocated, PayloadOf, AllWithin, ValidHeader, ValidStream, FinalHeader, DecodeHeader;
    hide DecodeTable, EncodeTable, At, Payloads;
    var file := PartFile(c, h, guid, ss, k, n);
    PartLength(c, h, guid, ss, k, n);
    FinalHeaderValid(h, guid, k, n, HEADER_SIZE + Bytes(ss), STREAM_SIZE * |ss|);
    HeaderInFile(c, h, guid, ss, k, n);
    TableInFile(c, h, guid, ss, k, n);
    AllRelocatedValid(ss, k);
    TableRoundTrip(Relocated(ss, k));
    forall i | 0 <= i < |ss|
      ensures PayloadOf(c, ss[i]) == PayloadOf(file, Relocated(ss, k)[i])
    {
      PayloadMoves(c, h, guid, ss, k, n, i);
    }
    PayloadsEqual(c, file, ss, Relocated(ss, k));
  }

  lemma SliceOfEnd(a: seq<Byte>, b: seq<Byte>)
    ensures Slice(a + b, |a|, |b|) == b
  {
  }

  lemma PiecesOf(c: seq<Byte>, h: Header, ss: seq<Stream>)
    requires AllWithin(c, h, ss)
    ensures |BlobData(c, ss)| == Bytes(ss) && |At(c, h.xml)| == Size(h.xml)
  {
    hide Slice, Size, Bytes, BlobData;
    BlobDataLength(c, ss);
    InsideFile(h.xml, c);
  }

  /** The XML data follows the table. */
  lemma XmlInFile(c: seq<Byte>, h: Header, guid: nat, ss: seq<Stream>, k: nat, n: nat)
    requires AllWithin(c, h, ss)
    ensures var file, start := PartFile(c, h, guid, ss, k, n), HEADER_SIZE + Bytes(ss) + STREAM_SIZE * |ss|;
            |file| == start + Size(h.xml) && Slice(file, start, Size(h.xml)) == At(c, h.xml)
  {
    hide AllWithin, EncodeHeader, BlobData, PartTable, PartHeader, Slice, Size, Bytes, At;
    PiecesOf(c, h, ss);
    SliceOfEnd(EncodeHeader(PartHeader(h, guid, ss, k, n)) + BlobData(c, ss) + PartTable(ss, k), At(c, h.xml));
  }

  /** What the header of a part's own file says. The XML data is where it says, behind the
      table and inside the file, with the source's bytes and sizes; the part has its number,
      the set's size and GUID and the spanned flag, and no integrity table; whatever else
      describes images is the source's in part 1 and nothing in the others. */
  lemma PartHeaderReads(c: seq<Byte>, h: Header, guid: nat, ss: seq<Stream>, k: nat, n: nat)
    requires AllWithin(c, h, ss) && AllValid(h, guid, ss) && |PartFile(c, h, guid, ss, k, n)| < TWO_56
    requires k <= 65535 && n <= 65535
    ensures var file := PartFile(c, h, guid, ss, k, n);
            |file| >= 212 &&
            var hd := DecodeHeader(file[..212]);
            && hd.part == k && hd.totalParts == n && hd.guid == guid
            && hd.flags / 8 % 2 == 1 && hd.flags % 8 == h.flags % 8 && hd.flags / 16 == h.flags / 16
            && hd.tag == h.tag && hd.size == h.size && hd.version == h.version
            && hd.compressionSize == h.compressionSize && hd.padding == h.padding && hd.unused == h.unused
            && hd.integrity == Resource(0, 0, 0)
            && (if k <= 1
                then hd.imageCount == h.imageCount && hd.bootIndex == h.bootIndex && hd.bootMetadata == h.bootMetadata
                else hd.imageCount == 0 && hd.bootIndex == 0 && hd.bootMetadata == Resource(0, 0, 0))
    ensures var file := PartFile(c, h, guid, ss, k, n);
            var hd := DecodeHeader(file[..212]);
            && 212 <= hd.table.offset && Size(hd.table) == 50 * |ss| && Flags(hd.table) == 0
            && hd.table.original == 50 * |ss| && hd.table.offset + 50 * |ss| <= |file|
            && (if Size(h.xml) > 0 then
                  && At(file, hd.xml) == At(c, h.xml)
                  && hd.xml.packed == h.xml.packed && hd.xml.original == h.xml.original
                  && hd.table.offset + Size(hd.table) <= hd.xml.offset && hd.xml.offset + Size(hd.xml) <= |file|
                else hd.xml == h.xml)
  {
    hide PartFile, Bytes, Relocated, AllWithin, ValidHeader, ValidStream, DecodeHeader, Payloads, TableOf, Pow256;
    hide Slice;
    PartReadsBack(c, h, guid, ss, k, n);
    XmlInFile(c, h, guid, ss, k, n);
    SpannedFlag(h.flags);
  }

  /** Marking a part as spanned changes no other flag. */
  lemma SpannedFlag(flags: nat)
    ensures var f := WithSpanned(flags); f / 8 % 2 == 1 && f % 8 == flags % 8 && f / 16 == flags / 16
  {
  }

  lemma TableResource(h: Header, guid: nat, k: nat, n: nat, tableStart: nat, tableSize: nat)
    requires tableSize < TWO_56
    ensures var r := FinalHeader(h, guid, k, n, tableStart, tableSize).table;
            r.offset == tableStart && Size(r) == tableSize && Flags(r) == 0
  {
  }

  // ---- what the source's own bytes can say

  lemma {:induction false} NumberBound(b: seq<Byte>)
    ensures Number(b) < Pow256(|b|)
  {
    if b != [] {
      NumberBound(b[1..]);
    }
  }

  lemma {:induction false} DecodeFits(widths: seq<nat>, b: seq<Byte>)
    requires |b| == Total(widths)
    ensures Fits(widths, Decode(widths, b))
  {
    if widths != [] {
      NumberBound(b[..widths[0]]);
      DecodeFits(widths[1..], b[widths[0]..]);
      forall i | 0 <= i < |widths|
        ensures Decode(widths, b)[i] < Pow256(widths[i])
      {
        if i > 0 {
          assert Decode(widths, b)[i] == Decode(widths[1..], b[widths[0]..])[i - 1];
          assert widths[i] == widths[1..][i - 1];
        }
      }
    }
  }

  lemma ResourceDecodedValid(b: seq<Byte>)
    requires |b| == 24
    ensures ValidResource(DecodeResource(b))
  {
    Widths();
    Pow256Values();
    DecodeFits(RESOURCE_WIDTHS, b);
    hide Decode;
    var v := Decode(RESOURCE_WIDTHS, b);
    assert v[0] < Pow256(RESOURCE_WIDTHS[0]) && v[1] < Pow256(RESOURCE_WIDTHS[1]) && v[2] < Pow256(RESOURCE_WIDTHS[2]);
  }

  lemma StreamDecodedValid(b: seq<Byte>)
    requires |b| == STREAM_SIZE
    ensures ValidStream(DecodeStream(b))
  {
    Widths();
    ResourceDecodedValid(b[..24]);
    DecodeFits(STREAM_TAIL, b[24..]);
    hide Decode, DecodeResource;
    var v := Decode(STREAM_TAIL, b[24..]);
    assert v == [v[0], v[1], v[2]];
  }

  lemma HeaderDecodedValid(b: seq<Byte>)
    requires |b| == HEADER_SIZE
    ensures ValidHeader(DecodeHeader(b))
  {
    Widths();
    DecodeFits(HEADER_HEAD, b[..48]);
    DecodeFits(HEADER_BOOT, b[120..128]);
    ResourceDecodedValid(b[48..72]);
    ResourceDecodedValid(b[72..96]);
    ResourceDecodedValid(b[96..120]);
    ResourceDecodedValid(b[128..152]);
    NumberBound(b[152..]);
    hide Decode, DecodeResource, Number;
    var v, w := Decode(HEADER_HEAD, b[..48]), Decode(HEADER_BOOT, b[120..128]);
    assert v == [v[0], v[1], v[2], v[3], v[4], v[5], v[6], v[7], v[8]];
    assert w == [w[0], w[1]];
    assert HeadValues(DecodeHeader(b)) == v;
  }

  lemma {:induction false} TableDecodedValid(b: seq<Byte>)
    requires DecodeTable(b).Some?
    ensures forall s | s in DecodeTable(b).value :: ValidStream(s)
    decreases |b|
  {
    hide DecodeStream, ValidStream;
    if b != [] {
      StreamDecodedValid(b[..STREAM_SIZE]);
      TableDecodedValid(b[STREAM_SIZE..]);
    }
  }

  // ---- reading the source

  function Insert(s: Stream, ss: seq<Stream>): seq<Stream> {
    if ss == [] || s.res.offset <= ss[0].res.offset then [s] + ss else [ss[0]] + Insert(s, ss[1..])
  }

  function SortByOffset(ss: seq<Stream>): seq<Stream> {
    if ss == [] then [] else Insert(ss[0], SortByOffset(ss[1..]))
  }

  predicate Sorted(ss: seq<Stream>) {
    forall i, j | 0 <= i < j < |ss| :: ss[i].res.offset <= ss[j].res.offset
  }

  lemma {:induction false} InsertPermutes(s: Stream, ss: seq<Stream>)
    ensures multiset(Insert(s, ss)) == multiset(ss) + multiset{s}
  {
    if !(ss == [] || s.res.offset <= ss[0].res.offset) {
      InsertPermutes(s, ss[1..]);
      assert ss == [ss[0]] + ss[1..];
    }
  }

  lemma ConsSorted(s: Stream, ss: seq<Stream>)
    requires Sorted(ss) && forall x | x in ss :: s.res.offset <= x.res.offset
    ensures Sorted([s] + ss)
  {
    forall i, j | 0 <= i < j < |[s] + ss|
      ensures ([s] + ss)[i].res.offset <= ([s] + ss)[j].res.offset
    {
      assert ([s] + ss)[j] == ss[j - 1] && ss[j - 1] in ss;
      if i > 0 {
        assert ([s] + ss)[i] == ss[i - 1];
      }
    }
  }

  lemma {:induction false} InsertSorts(s: Stream, ss: seq<Stream>)
    requires Sorted(ss)
    ensures Sorted(Insert(s, ss))
    ensures forall x | x in Insert(s, ss) :: x == s || x in ss
  {
    if ss == [] {
    } else if s.res.offset <= ss[0].res.offset {
      forall x | x in ss
        ensures s.res.offset <= x.res.offset
      {
        var i :| 0 <= i < |ss| && ss[i] == x;
      }
      ConsSorted(s, ss);
    } else {
      InsertSorts(s, ss[1..]);
      ConsSorted(ss[0], Insert(s, ss[1..]));
    }
  }

  lemma {:induction false} SortSorts(ss: seq<Stream>)
    ensures Sorted(SortByOffset(ss)) && multiset(SortByOffset(ss)) == multiset(ss)
  {
    if ss != [] {
      SortSorts(ss[1..]);
      InsertSorts(ss[0], SortByOffset(ss[1..]));
      InsertPermutes(ss[0], SortByOffset(ss[1..]));
      assert ss == [ss[0]] + ss[1..];
    }
  }

  method ParseStreams(table: seq<Byte>) returns (r: Option<seq<Stream>>)
    ensures r == DecodeTable(table)
  {
    hide DecodeStream;
    var b, ss: seq<Stream> := table, [];
    while |b| >= STREAM_SIZE
      invariant DecodeTable(table).Some? <==> DecodeTable(b).Some?
      invariant DecodeTable(b).Some? ==> DecodeTable(table).value == ss + DecodeTable(b).value
      decreases |b|
    {
      var s := DecodeStream(b[..STREAM_SIZE]);
      ghost var later := DecodeTable(b[STREAM_SIZE..]);
      if later.Some? {
        assert ss + ([s] + later.value) == ss + [s] + later.value;
      }
      ss := ss + [s];
      b := b[STREAM_SIZE..];
    }
    assert ss + [] == ss;
    r := if b == [] then Some(ss) else None;
  }

  const COMPRESSED_BIT := 4

  /** The bytes of a table, inflated if it is compressed. */
  function TableBytes(c: seq<Byte>, r: Resource, inflate: seq<Byte> -> Option<seq<Byte>>): Option<seq<Byte>> {
    if Flags(r) / COMPRESSED_BIT % 2 == 1 then inflate(At(c, r)) else Some(At(c, r))
  }

  /** The descriptors in the table that a file's header points at, in its order. */
  function SourceTable(c: seq<Byte>, h: Header, inflate: seq<Byte> -> Option<seq<Byte>>): Option<seq<Stream>> {
    var bytes := TableBytes(c, h.table, inflate);
    if bytes.None? then None else DecodeTable(bytes.value)
  }

  method ReadAllStreams(src: Source, h: Header, inflate: seq<Byte> -> Option<seq<Byte>>)
    returns (r: Option<seq<Stream>>)
    requires Within(h.table, |src.content|)
    modifies src.world
    ensures src.world.Faults() >= old(src.world.Faults())
    ensures r.Some? ==> src.world.Faults() == old(src.world.Faults())
    ensures r.Some? ==> SourceTable(src.content, h, inflate).Some?
    ensures r.Some? ==>
      multiset(r.value) == multiset(SourceTable(src.content, h, inflate).value) && Sorted(r.value)
    ensures r.None? && src.world.Faults() == old(src.world.Faults()) ==> SourceTable(src.content, h, inflate).None?
  {
    hide DecodeTable, Slice, Size, Flags;
    InsideFile(h.table, src.content);
    var data, ok := src.ReadAt(Size(h.table), h.table.offset);
    if !ok {
      return None;
    }
    var bytes := if Flags(h.table) / COMPRESSED_BIT % 2 == 1 then inflate(data) else Some(data);
    if bytes.None? {
      return None;
    }
    var ss := ParseStreams(bytes.value);
    if ss.None? {
      return None;
    }
    SortSorts(ss.value);
    r := Some(SortByOffset(ss.value));
  }

  // ---- the whole split

  /** Every part written as its own file. */
  ghost predicate Written(c: seq<Byte>, h: Header, guid: nat, parts: seq<Part>, files: seq<seq<Byte>>, n: nat) {
    |files| <= |parts| == n && forall k | 0 <= k < |files| ::
      files[k] == PartFile(c, h, guid, Streams(parts[k].blobs), k + 1, n)
  }

  /** What was read from the source, and how it was packed. */
  ghost predicate Planned(c: seq<Byte>, h: Header, table: seq<Stream>, parts: seq<Part>, max: int) {
    && |c| >= HEADER_SIZE && h == DecodeHeader(c[..HEADER_SIZE])
    && (forall s | s in table :: ValidStream(s) && Within(s.res, |c|))
    && Within(h.xml, |c|)
    && Packed(parts, max, |Metadata(table)|)
    && multiset(Flatten(parts)) == multiset(table)
  }

  lemma {:induction false} InFlatten(parts: seq<Part>, k: nat, s: Stream)
    requires k < |parts| && s in Streams(parts[k].blobs)
    ensures s in Flatten(parts)
  {
    if k < |parts| - 1 {
      InFlatten(parts[..|parts| - 1], k, s);
    }
  }

  lemma PartWithin(c: seq<Byte>, h: Header, table: seq<Stream>, parts: seq<Part>, max: int, k: nat)
    requires Planned(c, h, table, parts, max) && k < |parts|
    ensures AllWithin(c, h, Streams(parts[k].blobs))
    ensures forall s | s in Streams(parts[k].blobs) :: ValidStream(s)
  {
    hide ValidStream, Within, Packed, Flatten, DecodeHeader, Metadata;
    forall s | s in Streams(parts[k].blobs)
      ensures s in table
    {
      InFlatten(parts, k, s);
      assert s in multiset(Flatten(parts));
    }
  }

  lemma SameMetadata(a: seq<Stream>, b: seq<Stream>)
    requires multiset(a) == multiset(b)
    ensures |Metadata(a)| == |Metadata(b)|
  {
    MetadataCounts(a);
    MetadataCounts(b);
    PassesPartition(a);
    PassesPartition(b);
    hide IsMetadata, Metadata, Regular;
    MetadataOf(multiset(Metadata(a)), multiset(Regular(a)), multiset(Metadata(b)), multiset(Regular(b)));
  }

  lemma MetadataCounts(a: seq<Stream>)
    ensures multiset(Metadata(a) + Regular(a)) == multiset(Metadata(a)) + multiset(Regular(a))
    ensures |multiset(Metadata(a))| == |Metadata(a)|
  {
  }

  lemma MetadataOf(m: multiset<Stream>, r: multiset<Stream>, n: multiset<Stream>, q: multiset<Stream>)
    requires m + r == n + q
    requires forall s | s in m || s in n :: IsMetadata(s.res)
    requires forall s | s in r || s in q :: !IsMetadata(s.res)
    ensures m == n
  {
    hide IsMetadata;
    forall s
      ensures m[s] == n[s]
    {
      assert (m + r)[s] == m[s] + r[s] && (n + q)[s] == n[s] + q[s];
    }
  }

  /** The source's header, if it is a whole WIM whose table and XML lie inside the file. */
  function SourceHeader(c: seq<Byte>): Option<Header> {
    if |c| < HEADER_SIZE then None
    else
      var h := DecodeHeader(c[..HEADER_SIZE]);
      if h.tag == IMAGE_TAG && h.totalParts == 1 && Within(h.table, |c|) && Within(h.xml, |c|) then Some(h) else None
  }

  /** A WIM that can be split: its table decodes and every resource lies inside the file. */
  predicate Sound(c: seq<Byte>, inflate: seq<Byte> -> Option<seq<Byte>>) {
    var h := SourceHeader(c);
    && h.Some?
    && SourceTable(c, h.value, inflate).Some?
    && forall s | s in SourceTable(c, h.value, inflate).value :: Within(s.res, |c|)
  }

  /** A table is inflated exactly if bit 58 of its descriptor is set. */
  lemma TableBytesAre(c: seq<Byte>, r: Resource, inflate: seq<Byte> -> Option<seq<Byte>>)
    requires Within(r, |c|)
    ensures var raw := c[r.offset..r.offset + r.packed % 0x100_0000_0000_0000];
            TableBytes(c, r, inflate) == if r.packed / 0x400_0000_0000_0000 % 2 == 1 then inflate(raw) else Some(raw)
  {
    hide At;
    InsideFile(r, c);
    FlagBit(r.packed);
  }

  lemma FlagBit(packed: nat)
    ensures packed / 0x100_0000_0000_0000 / 4 == packed / 0x400_0000_0000_0000
  {
  }

  /** A file can be split exactly if it starts as a WIM of one part, its table and XML data
      lie inside it, its table is whole descriptors and each of them lies inside it. */
  lemma SoundIs(c: seq<Byte>, inflate: seq<Byte> -> Option<seq<Byte>>)
    ensures Sound(c, inflate) <==>
            && |c| >= 212
            && Number(c[0..8]) == 0x4D_4957_534D && Number(c[42..44]) == 1
            && var table, xml := DecodeResource(c[48..72]), DecodeResource(c[72..96]);
            && 0 <= table.offset && table.offset + table.packed % 0x100_0000_0000_0000 <= |c|
            && 0 <= xml.offset && xml.offset + xml.packed % 0x100_0000_0000_0000 <= |c|
            && var raw := c[table.offset..table.offset + table.packed % 0x100_0000_0000_0000];
            var bytes := if table.packed / 0x400_0000_0000_0000 % 2 == 1 then inflate(raw) else Some(raw);
            && bytes.Some? && |bytes.value| % 50 == 0
            && forall i | 0 <= i < |bytes.value| / 50 ::
              var r := DecodeStream(bytes.value[50 * i..50 * i + 50]).res;
              0 <= r.offset && r.offset + r.packed % 0x100_0000_0000_0000 <= |c|
  {
    hide DecodeHeader, DecodeTable, DecodeResource, DecodeStream, Number, TableBytes, At;
    if |c| >= 212 {
      var b := c[..212];
      HeaderLayout(b);
      assert b[0..8] == c[0..8] && b[42..44] == c[42..44] && b[48..72] == c[48..72] && b[72..96] == c[72..96];
      var h := DecodeHeader(b);
      if Within(h.table, |c|) {
        TableBytesAre(c, h.table, inflate);
        var bytes := TableBytes(c, h.table, inflate);
        if bytes.Some? {
          AllInTable(bytes.value, |c|);
        }
      }
    }
  }

  lemma AllInTable(b: seq<Byte>, size: nat)
    ensures DecodeTable(b).Some? <==> |b| % 50 == 0
    ensures DecodeTable(b).Some? ==>
      ((forall s | s in DecodeTable(b).value :: Within(s.res, size)) <==>
       forall i | 0 <= i < |b| / 50 :: Within(DecodeStream(b[50 * i..50 * i + 50]).res, size))
  {
    hide DecodeTable, DecodeStream, Within;
    TableIs(b);
    if DecodeTable(b).Some? {
      var ss := DecodeTable(b).value;
      assert |b| / 50 == |ss|;
      assert forall s | s in ss :: exists i :: 0 <= i < |ss| && ss[i] == s;
      forall i | (forall s | s in ss :: Within(s.res, size)) && 0 <= i < |ss|
        ensures Within(DecodeStream(b[50 * i..50 * i + 50]).res, size)
      {
        assert ss[i] in ss;
      }
    }
  }

  /** The limit in bytes; the multiplication may wrap. */
  function PartLimit(partSizeMiB: int): (max: int)
    ensures 0 < partSizeMiB * 1048576 < TWO_63 ==> max == partSizeMiB * 1048576
    ensures partSizeMiB <= 0 ==> max == 3800 * 1048576
  {
    Wrap64((if partSizeMiB <= 0 then DEFAULT_PART_MIB else partSizeMiB) * 1048576)
  }

  /** Reads the source, packs its blobs and writes every part. It succeeds exactly on a
      sound WIM, unless something outside goes wrong. */
  method SplitWim(src: Source, partSizeMiB: int, guid: nat, inflate: seq<Byte> -> Option<seq<Byte>>)
    returns (files: seq<seq<Byte>>, parts: seq<Part>, ok: bool)
    modifies src.world
    ensures ok ==> Sound(src.content, inflate)
    ensures ok ==>
      && Planned(src.content, SourceHeader(src.content).value,
                 SourceTable(src.content, SourceHeader(src.content).value, inflate).value,
                 parts, PartLimit(partSizeMiB))
      && Written(src.content, SourceHeader(src.content).value, guid, parts, files, |parts|) && |files| == |parts|
    ensures !ok && Sound(src.content, inflate) ==> src.world.FaultSince(old(src.world.asked))
  {
    hide DecodeHeader, DecodeTable, Packed, Flatten, Within, Slice, Size, PartFile, ValidStream, SourceTable;
    hide Metadata, Regular;
    files, parts := [], [];
    var stops := src.world.Fails();
    src.world.Blame(old(src.world.asked));
    if stops {
      return files, parts, false;
    }
    var header := SourceHeader(src.content);
    if header.None? {
      return files, parts, false;
    }
    var h := header.value;
    var streams := ReadAllStreams(src, h, inflate);
    src.world.Blame(old(src.world.asked));
    if streams.None? {
      return files, parts, false;
    }
    var inside := AllInside(streams.value, |src.content|);
    ghost var table := SourceTable(src.content, h, inflate).value;
    SameMembers(streams.value, table);
    if !inside {
      return files, parts, false;
    }
    parts := AssignBlobsToParts(streams.value, PartLimit(partSizeMiB));
    PlanHolds(src.content, h, inflate, streams.value, parts, PartLimit(partSizeMiB));
    files, ok := WriteParts(src, h, guid, parts, table, PartLimit(partSizeMiB));
    src.world.Blame(old(src.world.asked));
  }

  lemma SameMembers(a: seq<Stream>, b: seq<Stream>)
    requires multiset(a) == multiset(b)
    ensures forall s :: s in a <==> s in b
  {
    assert forall s :: s in a <==> s in multiset(a);
    assert forall s :: s in b <==> s in multiset(b);
  }

  method WriteParts(src: Source, h: Header, guid: nat, parts: seq<Part>, ghost table: seq<Stream>, ghost max: int)
    returns (files: seq<seq<Byte>>, ok: bool)
    requires Planned(src.content, h, table, parts, max)
    modifies src.world
    ensures Unless(ok, old(src.world.Faults()), src.world.Faults())
    ensures ok ==> Written(src.content, h, guid, parts, files, |parts|) && |files| == |parts|
  {
    hide Planned, PartFile, AllWithin;
    files, ok := [], true;
    for k := 0 to |parts|
      invariant ok && src.world.Faults() == old(src.world.Faults())
      invariant |files| == k && Written(src.content, h, guid, parts, files, |parts|)
    {
      var stopped := src.world.Fails();
      if stopped {
        return files, false;
      }
      PartWithin(src.content, h, table, parts, max, k);
      var file;
      file, ok := WriteSWMPart(src, h, guid, parts[k], k + 1, |parts|);
      if !ok {
        return;
      }
      files := files + [file];
    }
  }

  method AllInside(ss: seq<Stream>, size: nat) returns (inside: bool)
    ensures inside <==> forall s | s in ss :: Within(s.res, size)
  {
    for i := 0 to |ss|
      invariant forall j | 0 <= j < i :: Within(ss[j].res, size)
    {
      if !Within(ss[i].res, size) {
        assert ss[i] in ss;
        return false;
      }
    }
    return true;
  }

  lemma PlanHolds(
    c: seq<Byte>, h: Header, inflate: seq<Byte> -> Option<seq<Byte>>, ss: seq<Stream>, parts: seq<Part>, max: int)
    requires SourceHeader(c) == Some(h) && SourceTable(c, h, inflate).Some?
    requires multiset(ss) == multiset(SourceTable(c, h, inflate).value)
    requires forall s | s in ss :: Within(s.res, |c|)
    requires Assigned(ss, parts, max)
    ensures Planned(c, h, SourceTable(c, h, inflate).value, parts, max)
  {
    hide DecodeHeader, Within, Packed, Flatten, ValidStream, Metadata, Regular;
    var table := SourceTable(c, h, inflate).value;
    TableDecodedValid(TableBytes(c, h.table, inflate).value);
    SameMetadata(ss, table);
    SameMembers(ss, table);
    PassesPartition(ss);
  }

  // ---- the parts together are the source

  function ReadBack(files: seq<seq<Byte>>): seq<Payload> {
    if files == [] then [] else
      var file := files[|files| - 1];
      ReadBack(files[..|files| - 1]) + if TableOf(file).Some? then Payloads(file, TableOf(file).value) else []
  }

  lemma {:induction false} PayloadsConcat(c: seq<Byte>, a: seq<Stream>, b: seq<Stream>)
    ensures Payloads(c, a + b) == Payloads(c, a) + Payloads(c, b)
  {
    hide PayloadOf;
    if b == [] {
      assert a + b == a;
    } else {
      var rest := b[..|b| - 1];
      assert (a + b)[..|a + b| - 1] == a + rest;
      PayloadsConcat(c, a, rest);
    }
  }

  lemma TakeOut<T>(rest: seq<T>, x: T, p: seq<T>, q: seq<T>)
    requires multiset(rest + [x]) == multiset(p + [x] + q)
    ensures multiset(rest) == multiset(p + q)
  {
    var a, b := multiset(rest), multiset(p + q);
    assert a + multiset{x} == b + multiset{x};
    forall t
      ensures a[t] == b[t]
    {
      assert (a + multiset{x})[t] == (b + multiset{x})[t];
    }
  }

  lemma {:induction false} PayloadsPermute(c: seq<Byte>, a: seq<Stream>, b: seq<Stream>)
    requires multiset(a) == multiset(b)
    ensures multiset(Payloads(c, a)) == multiset(Payloads(c, b))
    decreases |a|
  {
    hide PayloadOf;
    if a == [] {
      assert |multiset(b)| == 0;
      assert b == [];
    } else {
      var x, rest := a[|a| - 1], a[..|a| - 1];
      assert a == rest + [x];
      assert x in multiset(b);
      var j :| 0 <= j < |b| && b[j] == x;
      var p, q := b[..j], b[j + 1..];
      assert b == p + [x] + q;
      TakeOut(rest, x, p, q);
      PayloadsPermute(c, rest, p + q);
      PayloadsTakeOut(c, p, x, q);
    }
  }

  lemma PayloadsTakeOut(c: seq<Byte>, p: seq<Stream>, x: Stream, q: seq<Stream>)
    ensures multiset(Payloads(c, p + [x] + q)) == multiset(Payloads(c, p + q)) + multiset{PayloadOf(c, x)}
  {
    hide PayloadOf;
    PayloadsConcat(c, p + [x], q);
    PayloadsConcat(c, p, [x]);
    PayloadsConcat(c, p, q);
    assert [x][..0] == [];
    assert Payloads(c, [x]) == [PayloadOf(c, x)];
  }

  lemma {:induction false} ReadBackUpTo(
    c: seq<Byte>, h: Header, guid: nat, table: seq<Stream>, parts: seq<Part>, max: int, files: seq<seq<Byte>>, j: nat)
    requires Planned(c, h, table, parts, max) && Written(c, h, guid, parts, files, |parts|) && guid < Pow256(16)
    requires j <= |files| && forall k | 0 <= k < |files| :: |files[k]| < TWO_56
    ensures ReadBack(files[..j]) == Payloads(c, Flatten(parts[..j]))
  {
    hide Payloads, PartFile, TableOf, ValidStream, AllWithin, Within, Packed, DecodeHeader, Metadata, Pow256;
    hide ValidHeader;
    if j == 0 {
      assert files[..0] == [] && parts[..0] == [];
      assert Payloads(c, []) == [] by { NoPayloads(c); }
    } else {
      var k := j - 1;
      var ss := Streams(parts[k].blobs);
      ReadBackUpTo(c, h, guid, table, parts, max, files, k);
      PartWithin(c, h, table, parts, max, k);
      HeaderDecodedValid(c[..HEADER_SIZE]);
      PartReadsBack(c, h, guid, ss, k + 1, |parts|);
      assert files[..j][..k] == files[..k] && parts[..j][..k] == parts[..k];
      PayloadsConcat(c, Flatten(parts[..k]), ss);
    }
  }

  lemma NoPayloads(c: seq<Byte>)
    ensures Payloads(c, []) == []
  {
  }

  /** Splitting preserves the WIM: the streams that the parts' own tables describe, with
      hash, flags, sizes, reference count and bytes, are the source's streams. */
  lemma SplitPreserves(
    c: seq<Byte>, h: Header, guid: nat, table: seq<Stream>, parts: seq<Part>, max: int, files: seq<seq<Byte>>)
    requires Planned(c, h, table, parts, max) && Written(c, h, guid, parts, files, |parts|) && guid < Pow256(16)
    requires |files| == |parts| && forall k | 0 <= k < |files| :: |files[k]| < TWO_56
    ensures multiset(ReadBack(files)) == multiset(Payloads(c, table))
  {
    hide Payloads, PartFile, TableOf, ValidStream, AllWithin, Within, Packed, DecodeHeader, Metadata, Pow256, Flatten;
    hide ReadBack;
    ReadBackUpTo(c, h, guid, table, parts, max, files, |files|);
    assert files[..|files|] == files && parts[..|parts|] == parts;
    PayloadsPermute(c, Flatten(parts), table);
  }

  // ---- what a reader accepts

  /** Whether readOffsetTable takes this table. */
  predicate Accepts(ss: seq<Stream>, imageCount: nat) {
    AllSupported(ss) && |Images(ss)| == imageCount
  }

  lemma {:induction false} ImagesCount(ss: seq<Stream>)
    ensures |Images(ss)| == |Metadata(ss)|
  {
    hide IsMetadata;
    if ss != [] {
      ImagesCount(ss[..|ss| - 1]);
    }
  }

  lemma {:induction false} MetadataFirst(ss: seq<Stream>, m: nat)
    requires m <= |ss| && forall i | 0 <= i < |ss| :: IsMetadata(ss[i].res) <==> i < m
    ensures |Metadata(ss)| == m
  {
    hide IsMetadata;
    if ss != [] {
      MetadataFirst(ss[..|ss| - 1], if m < |ss| then m else m - 1);
    }
  }

  lemma MoveKeepsFlags(s: Stream, k: nat, offset: nat)
    ensures Supported(Move(s, k, offset).res) <==> Supported(s.res)
    ensures IsMetadata(Move(s, k, offset).res) <==> IsMetadata(s.res)
  {
  }

  lemma {:induction false} RelocationKeepsFlags(ss: seq<Stream>, k: nat)
    ensures AllSupported(Relocated(ss, k)) <==> AllSupported(ss)
    ensures |Images(Relocated(ss, k))| == |Images(ss)|
  {
    hide Supported, IsMetadata, AllSupported, Images, Bytes, Move;
    if ss != [] {
      var rest, s := ss[..|ss| - 1], ss[|ss| - 1];
      RelocationKeepsFlags(rest, k);
      MoveKeepsFlags(s, k, HEADER_SIZE + Bytes(rest));
      assert ss == rest + [s];
      SupportedAppend(rest, s);
      SupportedAppend(Relocated(rest, k), Move(s, k, HEADER_SIZE + Bytes(rest)));
    }
  }

  lemma SupportedAppend(ss: seq<Stream>, s: Stream)
    ensures AllSupported(ss + [s]) <==> AllSupported(ss) && Supported(s.res)
    ensures |Images(ss + [s])| == |Images(ss)| + if IsMetadata(s.res) then 1 else 0
  {
    hide Supported, IsMetadata;
    assert (ss + [s])[..|ss|] == ss;
    assert s in ss + [s];
    assert forall x | x in ss :: x in ss + [s];
  }

  /** Part 1's table is accepted if its flags are supported and the source's image count
      matched; every later one if its flags are, and it has no images. */
  lemma RelocatedAccepted(
    c: seq<Byte>, h: Header, guid: nat, table: seq<Stream>, parts: seq<Part>, max: int, k: nat)
    requires Planned(c, h, table, parts, max) && k < |parts|
    ensures var ss := Streams(parts[k].blobs);
            var header := PartHeader(h, guid, ss, k + 1, |parts|);
            && (Accepts(Relocated(ss, k + 1), header.imageCount) <==>
                AllSupported(ss) && (k == 0 ==> |Images(table)| == h.imageCount))
            && (k > 0 ==> header.imageCount == 0 && Images(Relocated(ss, k + 1)) == [])
  {
    var ss := Streams(parts[k].blobs);
    assert PartHeader(h, guid, ss, k + 1, |parts|).imageCount == if k > 0 then 0 else h.imageCount;
    hide PartHeader;
    ImagesCount(ss);
    ImagesCount(table);
    RelocationKeepsFlags(ss, k + 1);
    assert PartOk(parts[k], k, max, |Metadata(table)|);
    hide AllSupported, IsMetadata, Images, Relocated, Within, ValidStream, DecodeHeader, Flatten, Bytes, Size, Seam;
    hide Metadata;
    MetadataFirst(ss, if k == 0 then |Metadata(table)| else 0);
  }

  /** Whether a reader takes the offset table that a file's own header points at. */
  ghost predicate ReaderTakes(file: seq<Byte>, inflate: seq<Byte> -> Option<seq<Byte>>) {
    |file| >= HEADER_SIZE &&
    var h := DecodeHeader(file[..HEADER_SIZE]);
    SourceTable(file, h, inflate).Some? && Accepts(SourceTable(file, h, inflate).value, h.imageCount)
  }

  /** Reading the offset table of a file, from its bytes. */
  method OpenTable(file: seq<Byte>, inflate: seq<Byte> -> Option<seq<Byte>>) returns (r: Option<Tables>)
    requires |file| >= HEADER_SIZE
    ensures r.Some? <==> ReaderTakes(file, inflate)
    ensures r.Some? ==>
      var ss := SourceTable(file, DecodeHeader(file[..HEADER_SIZE]), inflate).value;
      r.value.images == Images(ss) && Indexes(r.value.data, ss)
  {
    hide DecodeHeader, DecodeTable, AllSupported, Images, Indexes, Size, Slice;
    var h := DecodeHeader(file[..HEADER_SIZE]);
    var bytes := TableBytes(file, h.table, inflate);
    if bytes.None? {
      return None;
    }
    r := ReadOffsetTable(bytes.value, h.imageCount);
  }

  /** What a reader makes of a part's bytes: it takes part 1 exactly if the flags there are
      supported and the source's image count matched, every later part exactly if the flags
      are supported, and finds no images in it. */
  lemma PartAccepted(
    c: seq<Byte>, h: Header, guid: nat, table: seq<Stream>, parts: seq<Part>, max: int, k: nat, file: seq<Byte>,
    inflate: seq<Byte> -> Option<seq<Byte>>)
    requires Planned(c, h, table, parts, max) && k < |parts| && guid < Pow256(16) && |file| < TWO_56
    requires file == PartFile(c, h, guid, Streams(parts[k].blobs), k + 1, |parts|)
    ensures ReaderTakes(file, inflate) <==>
            AllSupported(Streams(parts[k].blobs)) && (k == 0 ==> |Images(table)| == h.imageCount)
    ensures |file| >= HEADER_SIZE && TableOf(file).Some?
    ensures k > 0 ==>
              DecodeHeader(file[..HEADER_SIZE]).imageCount == 0 && Images(TableOf(file).value) == []
  {
    hide PartFile, PartHeader, Relocated, Planned, TableOf, ValidStream, ValidHeader, DecodeHeader, Payloads;
    hide AllWithin, Accepts, AllSupported, Images, Pow256, SourceTable;
    var ss := Streams(parts[k].blobs);
    PlannedHeader(c, h, table, parts, max);
    PartWithin(c, h, table, parts, max, k);
    PartReadsBack(c, h, guid, ss, k + 1, |parts|);
    RelocatedAccepted(c, h, guid, table, parts, max, k);
    PartTableRead(c, h, guid, ss, k + 1, |parts|, inflate);
  }

  /** A part's table is not compressed, so a reader sees its bytes as they are. */
  lemma PartTableRead(
    c: seq<Byte>, h: Header, guid: nat, ss: seq<Stream>, k: nat, n: nat, inflate: seq<Byte> -> Option<seq<Byte>>)
    requires AllWithin(c, h, ss) && |PartFile(c, h, guid, ss, k, n)| < TWO_56
    ensures var file, header := PartFile(c, h, guid, ss, k, n), PartHeader(h, guid, ss, k, n);
            |file| >= HEADER_SIZE && DecodeHeader(file[..HEADER_SIZE]) == header ==>
              SourceTable(file, header, inflate) == TableOf(file)
  {
    hide PartFile, DecodeHeader, DecodeTable, At, PartTable, Bytes, FinalHeader;
    PartLength(c, h, guid, ss, k, n);
    TableInFile(c, h, guid, ss, k, n);
  }

  lemma PlannedHeader(c: seq<Byte>, h: Header, table: seq<Stream>, parts: seq<Part>, max: int)
    requires Planned(c, h, table, parts, max)
    ensures ValidHeader(h)
  {
    hide DecodeHeader, ValidHeader, Within, Packed, Flatten, Metadata;
    HeaderDecodedValid(c[..HEADER_SIZE]);
  }

  /** A reader takes every part of the set exactly when it takes the source's own table. */
  lemma AllPartsAccepted(
    c: seq<Byte>, h: Header, guid: nat, table: seq<Stream>, parts: seq<Part>, max: int, files: seq<seq<Byte>>,
    inflate: seq<Byte> -> Option<seq<Byte>>)
    requires Planned(c, h, table, parts, max) && Written(c, h, guid, parts, files, |parts|) && guid < Pow256(16)
    requires |files| == |parts| && forall k | 0 <= k < |files| :: |files[k]| < TWO_56
    ensures (forall k | 0 <= k < |files| :: ReaderTakes(files[k], inflate)) <==> Accepts(table, h.imageCount)
  {
    hide Accepts, Planned, PartFile, AllSupported, Images, ReaderTakes, TableOf, DecodeHeader, Pow256;
    forall k | 0 <= k < |parts|
      ensures ReaderTakes(files[k], inflate) <==>
              AllSupported(Streams(parts[k].blobs)) && (k == 0 ==> |Images(table)| == h.imageCount)
    {
      PartAccepted(c, h, guid, table, parts, max, k, files[k], inflate);
    }
    AcceptsMeans(table, h.imageCount);
    SupportedEverywhere(parts);
    SupportedAlike(c, h, table, parts, max);
    assert ReaderTakes(files[0], inflate) ==> |Images(table)| == h.imageCount;
  }

  lemma SupportedAlike(c: seq<Byte>, h: Header, table: seq<Stream>, parts: seq<Part>, max: int)
    requires Planned(c, h, table, parts, max)
    ensures AllSupported(Flatten(parts)) <==> AllSupported(table)
    ensures parts != []
  {
    hide Within, ValidStream, DecodeHeader, Flatten, Supported, Metadata;
    SameMembers(Flatten(parts), table);
  }

  /** Part 1 keeps the source's boot metadata resource. It is that of the boot image's own
      blob there exactly if the blob has not moved, and then has the source's bytes; past
      the part's end it has none. */
  lemma BootMetadataKept(c: seq<Byte>, h: Header, guid: nat, ss: seq<Stream>, n: nat, i: nat)
    requires AllWithin(c, h, ss) && i < |ss| && ss[i].res == h.bootMetadata
    ensures var file, r := PartFile(c, h, guid, ss, 1, n), PartHeader(h, guid, ss, 1, n).bootMetadata;
            && (r == Relocated(ss, 1)[i].res <==> h.bootMetadata.offset == HEADER_SIZE + Bytes(ss[..i]))
            && (r == Relocated(ss, 1)[i].res ==> At(file, r) == At(c, h.bootMetadata))
            && (r.offset >= |file| && Size(r) > 0 ==> At(file, r) == [] != At(c, h.bootMetadata))
  {
    hide PartFile, Bytes, Relocated, EncodeHeader, Slice, Size, Within, Payloads;
    RelocatedAt(ss, 1, i);
    DataInFile(c, h, guid, ss, 1, n, i);
    assert Within(ss[i].res, |c|);
    InsideFile(ss[i].res, c);
    PastTheEnd(PartFile(c, h, guid, ss, 1, n), h.bootMetadata);
    assert PartHeader(h, guid, ss, 1, n).bootMetadata == h.bootMetadata;
  }

  /** A WIM with a regular blob of one byte, and after it one image, from which it boots. */
  function RegularThenBoot(): (ss: seq<Stream>)
    ensures |ss| == 2
  {
    var boot := Sized(1, true);
    [Sized(1, false), boot.(res := boot.res.(offset := 1))]
  }

  const REGULAR_BYTE: Byte := 7
  const BOOT_BYTE: Byte := 9

  function BootHeader(): Header {
    Header(IMAGE_TAG, 0, 0, 0, 0, 0, 1, 1, 1, NO_RESOURCE, NO_RESOURCE,
           Move(RegularThenBoot()[1], 1, HEADER_SIZE + 1).res, 1, 0, NO_RESOURCE, 0)
  }

  function BootFile(): seq<Byte> {
    PartFile([REGULAR_BYTE, BOOT_BYTE], BootHeader(), 0, RegularThenBoot(), 1, 1)
  }

  lemma BootBlobs()
    ensures var ss := RegularThenBoot();
            && Bytes(ss[..0]) == 0 && Bytes(ss[..1]) == 1 && Bytes(ss) == 2
            && Relocated(ss, 1) == [Move(ss[0], 1, HEADER_SIZE), Move(ss[1], 1, HEADER_SIZE + 1)]
  {
    hide Move;
    var ss := RegularThenBoot();
    assert ss[..0] == [] && ss[..1] == [ss[0]] && ss == [ss[0]] + [ss[1]];
    NoBytes();
    BytesAppend([], ss[0]);
    BytesAppend([ss[0]], ss[1]);
    assert [] + [ss[0]] == [ss[0]];
    RelocatedAt(ss, 1, 0);
    RelocatedAt(ss, 1, 1);
  }

  lemma BootHeaderValid()
    ensures ValidHeader(BootHeader()) && forall s | s in RegularThenBoot() :: ValidStream(s)
  {
    hide Pow256;
    Pow256Values();
    SmallFits(HEADER_HEAD[1..], HeadValues(BootHeader())[1..]);
    SmallFits(HEADER_BOOT, [1, 0]);
    SmallFits(STREAM_TAIL, [1, 1, 0]);
    Pow256AtLeast(60);
  }

  lemma SmallFits(widths: seq<nat>, values: seq<nat>)
    requires |widths| == |values| && forall i | 0 <= i < |widths| :: widths[i] > 0 && values[i] <= 1
    ensures Fits(widths, values)
  {
    forall i | 0 <= i < |widths|
      ensures values[i] < Pow256(widths[i])
    {
      Pow256AtLeast(widths[i]);
    }
  }

  lemma {:induction false} Pow256AtLeast(n: nat)
    requires n > 0
    ensures Pow256(n) >= 256
  {
    if n > 1 {
      Pow256AtLeast(n - 1);
    }
  }

  lemma BootBytes()
    ensures At([REGULAR_BYTE, BOOT_BYTE], RegularThenBoot()[0].res) == [REGULAR_BYTE]
    ensures At([REGULAR_BYTE, BOOT_BYTE], RegularThenBoot()[1].res) == [BOOT_BYTE]
    ensures AllWithin([REGULAR_BYTE, BOOT_BYTE], BootHeader(), RegularThenBoot())
  {
    var raw: seq<Byte> := [REGULAR_BYTE, BOOT_BYTE];
    assert raw[0..1] == [REGULAR_BYTE] && raw[1..2] == [BOOT_BYTE];
  }

  lemma BootFileLength()
    ensures |BootFile()| == HEADER_SIZE + 2 + 2 * STREAM_SIZE
  {
    hide EncodeHeader, PartHeader, Bytes, AllWithin, BlobData;
    BootBlobs();
    BootBytes();
    BlobsFill([REGULAR_BYTE, BOOT_BYTE], BootHeader(), RegularThenBoot());
  }

  lemma BlobsFill(c: seq<Byte>, h: Header, ss: seq<Stream>)
    requires AllWithin(c, h, ss)
    ensures |BlobData(c, ss)| == Bytes(ss)
  {
    BlobDataLength(c, ss);
  }

  /** The file reads back, so it can be split. */
  lemma BootFileReads(inflate: seq<Byte> -> Option<seq<Byte>>)
    ensures var c, ss := BootFile(), Relocated(RegularThenBoot(), 1);
            && |c| == HEADER_SIZE + 2 + 2 * STREAM_SIZE
            && SourceHeader(c).Some? && SourceHeader(c).value.bootMetadata == ss[1].res
            && SourceTable(c, SourceHeader(c).value, inflate) == Some(ss)
            && At(c, ss[0].res) == [REGULAR_BYTE] && At(c, ss[1].res) == [BOOT_BYTE]
  {
    hide EncodeHeader, DecodeHeader, EncodeTable, DecodeTable, ValidHeader, ValidStream, Pow256, Relocated;
    hide PartFile, AllWithin, SourceTable, At, Bytes, Payloads, TableOf, Within, RegularThenBoot;
    var raw, h, ss := [REGULAR_BYTE, BOOT_BYTE], BootHeader(), RegularThenBoot();
    BootBlobs();
    BootBytes();
    BootHeaderValid();
    BootFileLength();
    Pow256AtLeast(16);
    PartReadsBack(raw, h, 0, ss, 1, 1);
    PartTableRead(raw, h, 0, ss, 1, 1, inflate);
    BootHeaderReads();
    PayloadMoves(raw, h, 0, ss, 1, 1, 0);
    PayloadMoves(raw, h, 0, ss, 1, 1, 1);
  }

  lemma BootHeaderReads()
    ensures var h, n := PartHeader(BootHeader(), 0, RegularThenBoot(), 1, 1), HEADER_SIZE + 2 + 2 * STREAM_SIZE;
            && h.tag == IMAGE_TAG && h.totalParts == 1 && Within(h.table, n) && Within(h.xml, n)
            && h.bootMetadata == Relocated(RegularThenBoot(), 1)[1].res
  {
    hide Relocated, Bytes, RegularThenBoot;
    BootBlobs();
  }

  lemma {:induction false} FlattenCounts(parts: seq<Part>, k: nat)
    requires k < |parts|
    ensures |Flatten(parts)| >= |parts[k].blobs| + (if k > 0 then |parts[k - 1].blobs| else 0)
    decreases |parts|
  {
    var rest := parts[..|parts| - 1];
    if k < |rest| {
      FlattenCounts(rest, k);
    } else if k > 0 {
      FlattenCounts(rest, k - 1);
    }
  }

  lemma {:induction false} MorePartsHoldMore(parts: seq<Part>, max: int, meta: nat)
    requires Packed(parts, max, meta)
    ensures |parts| > 1 ==> |Flatten(parts)| >= meta + 2
  {
    hide IsMetadata, Bytes, Size, Flatten;
    if |parts| > 1 {
      assert Seam(parts[0], parts[0 + 1], max, meta);
      FlattenCounts(parts, 1);
    }
  }

  /** Of two blobs the metadata comes first, and both are in part 1, whatever the limit. */
  lemma {:induction false} BothInPartOne(a: Stream, b: Stream, parts: seq<Part>, max: int)
    requires !IsMetadata(a.res) && IsMetadata(b.res)
    requires Packed(parts, max, 1) && multiset(Flatten(parts)) == multiset{a, b}
    ensures |parts| == 1 && Streams(parts[0].blobs) == [b, a]
  {
    hide IsMetadata, Bytes, Size;
    assert |Flatten(parts)| == |multiset(Flatten(parts))| == 2;
    MorePartsHoldMore(parts, max, 1);
    var ss := Streams(parts[0].blobs);
    assert parts == [parts[0]] && parts[..0] == [];
    assert Flatten(parts) == Flatten([]) + ss;
    assert Flatten(parts) == ss;
    assert ss[0] in multiset(ss) && ss[1] in multiset(ss);
    assert PartOk(parts[0], 0, max, 1);
    assert IsMetadata(ss[0].res) && !IsMetadata(ss[1].res);
  }

  lemma BootIsSound(inflate: seq<Byte> -> Option<seq<Byte>>)
    ensures Sound(BootFile(), inflate)
  {
    hide BootFile, SourceTable, Relocated, DecodeHeader;
    BootFileReads(inflate);
    BootBlobs();
  }

  /** Part 1 of that file, with its blobs in the order of the passes. */
  lemma BootPart(c: seq<Byte>, h: Header, guid: nat, a: Stream, b: Stream, n: nat)
    requires AllWithin(c, h, [b, a]) && Size(a.res) == Size(b.res) == 1
    requires h.bootMetadata == b.res && b.res.offset == HEADER_SIZE + 1
    ensures At(PartFile(c, h, guid, [b, a], 1, n), PartHeader(h, guid, [b, a], 1, n).bootMetadata) == At(c, a.res)
  {
    hide PartFile, Size, AllWithin, Bytes, Slice;
    assert [b, a][..1] == [] + [b];
    NoBytes();
    BytesAppend([], b);
    DataInFile(c, h, guid, [b, a], 1, n, 1);
  }

  /** A sound WIM whose boot metadata part 1 misplaces, whatever the limit: it moves before
      the regular blob, whose byte is then found at the offset that the header keeps. */
  lemma BootMetadataMisplaced(
    inflate: seq<Byte> -> Option<seq<Byte>>, guid: nat, parts: seq<Part>, max: int)
    ensures Sound(BootFile(), inflate)
    ensures var c := BootFile();
            var h := SourceHeader(c).value;
            Planned(c, h, SourceTable(c, h, inflate).value, parts, max) ==>
              var ss := Streams(parts[0].blobs);
              && |parts| == 1
              && At(c, h.bootMetadata) == [BOOT_BYTE]
              && At(PartFile(c, h, guid, ss, 1, 1), PartHeader(h, guid, ss, 1, 1).bootMetadata) == [REGULAR_BYTE]
  {
    hide BootFile, SourceTable, Relocated, PartFile, PartHeader, ValidStream, DecodeHeader, Packed, Flatten, Metadata;
    BootFileReads(inflate);
    BootIsSound(inflate);
    BootBlobs();
    var c := BootFile();
    var h := SourceHeader(c).value;
    var table := SourceTable(c, h, inflate).value;
    if Planned(c, h, table, parts, max) {
      var a, b := table[0], table[1];
      assert table == [a, b];
      MetadataFirst([b, a], 1);
      SameMetadata([b, a], table);
      BothInPartOne(a, b, parts, max);
      BootPart(c, h, guid, a, b, 1);
    }
  }

  lemma PastTheEnd(c: seq<Byte>, r: Resource)
    ensures r.offset >= |c| ==> At(c, r) == []
  {
  }

  lemma AcceptsMeans(ss: seq<Stream>, imageCount: nat)
    ensures Accepts(ss, imageCount) <==> AllSupported(ss) && |Images(ss)| == imageCount
  {
  }

  lemma SupportedConcat(a: seq<Stream>, b: seq<Stream>)
    ensures AllSupported(a + b) <==> AllSupported(a) && AllSupported(b)
  {
    hide Supported;
    assert forall s :: s in a + b <==> s in a || s in b;
  }

  lemma {:induction false} SupportedEverywhere(parts: seq<Part>)
    ensures AllSupported(Flatten(parts)) <==>
            forall k | 0 <= k < |parts| :: AllSupported(Streams(parts[k].blobs))
  {
    if parts == [] {
      assert Flatten(parts) == [];
    } else {
      var rest, last := parts[..|parts| - 1], parts[|parts| - 1];
      SupportedEverywhere(rest);
      SupportedConcat(Flatten(rest), Streams(last.blobs));
      hide AllSupported;
      forall k | 0 <= k < |parts|
        ensures parts[k] == if k < |rest| then rest[k] else last
      {
      }
    }
  }
}
