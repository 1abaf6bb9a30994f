/** The on-disk layouts of a WIM file (internal/wim/reader.go:87-175) and reading its
    offset table (internal/wim/reader.go:492-550). */
module WimFormat {
  import opened Arith

  // ---- little-endian records

  function Pow256(n: nat): nat {
    if n == 0 then 1 else 256 * Pow256(n - 1)
  }

  function LittleEndian(n: nat, v: nat): (b: seq<Byte>)
    ensures |b| == n
  {
    if n == 0 then [] else [v % 256] + LittleEndian(n - 1, v / 256)
  }

  function Number(b: seq<Byte>): nat {
    if b == [] then 0 else b[0] as int + 256 * Number(b[1..])
  }

  lemma {:induction false} NumberOfLittleEndian(n: nat, v: nat)
    requires v < Pow256(n)
    ensures Number(LittleEndian(n, v)) == v
  {
    if n > 0 {
      NumberOfLittleEndian(n - 1, v / 256);
      assert LittleEndian(n, v)[1..] == LittleEndian(n - 1, v / 256);
    }
  }

  function Total(widths: seq<nat>): nat {
    if widths == [] then 0 else widths[0] + Total(widths[1..])
  }

  predicate Fits(widths: seq<nat>, values: seq<nat>) {
    |widths| == |values| && forall i | 0 <= i < |widths| :: values[i] < Pow256(widths[i])
  }

  /** A record: each value in its width, one after another. */
  function Encode(widths: seq<nat>, values: seq<nat>): (b: seq<Byte>)
    requires |widths| == |values|
    ensures |b| == Total(widths)
  {
    if widths == [] then [] else LittleEndian(widths[0], values[0]) + Encode(widths[1..], values[1..])
  }

  function Decode(widths: seq<nat>, b: seq<Byte>): (values: seq<nat>)
    requires |b| == Total(widths)
    ensures |values| == |widths|
  {
    if widths == [] then [] else [Number(b[..widths[0]])] + Decode(widths[1..], b[widths[0]..])
  }

  lemma {:induction false} DecodeOfEncode(widths: seq<nat>, values: seq<nat>)
    requires Fits(widths, values)
    ensures Decode(widths, Encode(widths, values)) == values
  {
    if widths != [] {
      var first, rest := LittleEndian(widths[0], values[0]), Encode(widths[1..], values[1..]);
      NumberOfLittleEndian(widths[0], values[0]);
      DecodeOfEncode(widths[1..], values[1..]);
      assert (first + rest)[..widths[0]] == first && (first + rest)[widths[0]..] == rest;
      assert [values[0]] + values[1..] == values;
    }
  }

  // ---- resources, streams and the header

  const TWO_56: nat := 0x100_0000_0000_0000
  const TWO_64: nat := 0x1_0000_0000_0000_0000

  /** packed is FlagsAndCompressedSize. */
  datatype Resource = Resource(packed: nat, offset: int, original: int)

  datatype Stream = Stream(res: Resource, part: nat, refs: nat, hash: nat)

  datatype Header = Header(
    tag: nat, size: nat, version: nat, flags: nat, compressionSize: nat, guid: nat, part: nat,
    totalParts: nat, imageCount: nat,
    table: Resource, xml: Resource, bootMetadata: Resource,
    bootIndex: nat, padding: nat,
    integrity: Resource,
    unused: nat)

  const HEADER_SIZE := 212
  const STREAM_SIZE := 50
  const NO_RESOURCE := Resource(0, 0, 0)

  function Flags(r: Resource): nat {
    r.packed / TWO_56
  }

  function Size(r: Resource): (n: nat)
    ensures n < TWO_56
  {
    r.packed % TWO_56
  }

  const META_BIT := 2

  predicate IsMetadata(r: Resource) {
    Flags(r) / META_BIT % 2 == 1
  }

  /** No flag but the metadata and the compressed one. */
  predicate Supported(r: Resource) {
    Flags(r) % 2 == 0 && Flags(r) / 8 == 0
  }

  function Unsigned64(v: int): nat {
    v % TWO_64
  }

  function Signed64(v: nat): int {
    if v < TWO_63 then v else v - TWO_64
  }

  lemma Signed64OfUnsigned64(v: int)
    requires Int64(v)
    ensures Signed64(Unsigned64(v)) == v && Unsigned64(v) < TWO_64
  {
  }

  const RESOURCE_WIDTHS: seq<nat> := [8, 8, 8]
  const STREAM_TAIL: seq<nat> := [2, 4, 20]
  const HEADER_HEAD: seq<nat> := [8, 4, 4, 4, 4, 16, 2, 2, 4]
  const HEADER_BOOT: seq<nat> := [4, 4]

  lemma Widths()
    ensures Total(RESOURCE_WIDTHS) == 24 && Total(STREAM_TAIL) == 26
    ensures Total(HEADER_HEAD) == 48 && Total(HEADER_BOOT) == 8
  {
    assert Total([4, 16, 2, 2, 4]) == 28 by { assert Total([2, 2, 4]) == 8; }
    assert HEADER_HEAD[1..][1..][1..][1..] == [4, 16, 2, 2, 4];
  }

  predicate ValidResource(r: Resource) {
    r.packed < TWO_64 && Int64(r.offset) && Int64(r.original)
  }

  predicate ValidStream(s: Stream) {
    ValidResource(s.res) && Fits(STREAM_TAIL, [s.part, s.refs, s.hash])
  }

  function HeadValues(h: Header): seq<nat> {
    [h.tag, h.size, h.version, h.flags, h.compressionSize, h.guid, h.part, h.totalParts, h.imageCount]
  }

  predicate ValidHeader(h: Header) {
    && Fits(HEADER_HEAD, HeadValues(h))
    && ValidResource(h.table) && ValidResource(h.xml) && ValidResource(h.bootMetadata)
    && Fits(HEADER_BOOT, [h.bootIndex, h.padding])
    && ValidResource(h.integrity)
    && h.unused < Pow256(60)
  }

  function EncodeResource(r: Resource): (b: seq<Byte>)
    ensures |b| == 24
  {
    Widths();
    Encode(RESOURCE_WIDTHS, [r.packed, Unsigned64(r.offset), Unsigned64(r.original)])
  }

  function DecodeResource(b: seq<Byte>): Resource
    requires |b| == 24
  {
    Widths();
    var v := Decode(RESOURCE_WIDTHS, b);
    Resource(v[0], Signed64(v[1]), Signed64(v[2]))
  }

  lemma Pow256Values()
    ensures Pow256(1) == 256 && Pow256(2) == 65536 && Pow256(4) == 0x1_0000_0000 && Pow256(8) == TWO_64
  {
    assert Pow256(3) == 0x100_0000 && Pow256(5) == 0x100_0000_0000 && Pow256(6) == 0x1_0000_0000_0000;
    assert Pow256(7) == TWO_56;
  }

  lemma ResourceRoundTrip(r: Resource)
    requires ValidResource(r)
    ensures DecodeResource(EncodeResource(r)) == r
  {
    Widths();
    Pow256Values();
    Signed64OfUnsigned64(r.offset);
    Signed64OfUnsigned64(r.original);
    DecodeOfEncode(RESOURCE_WIDTHS, [r.packed, Unsigned64(r.offset), Unsigned64(r.original)]);
  }

  function EncodeStream(s: Stream): (b: seq<Byte>)
    ensures |b| == STREAM_SIZE
  {
    Widths();
    EncodeResource(s.res) + Encode(STREAM_TAIL, [s.part, s.refs, s.hash])
  }

  function DecodeStream(b: seq<Byte>): Stream
    requires |b| == STREAM_SIZE
  {
    Widths();
    var v := Decode(STREAM_TAIL, b[24..]);
    Stream(DecodeResource(b[..24]), v[0], v[1], v[2])
  }

  lemma StreamRoundTrip(s: Stream)
    requires ValidStream(s)
    ensures DecodeStream(EncodeStream(s)) == s
  {
    Widths();
    ResourceRoundTrip(s.res);
    DecodeOfEncode(STREAM_TAIL, [s.part, s.refs, s.hash]);
    assert EncodeStream(s)[..24] == EncodeResource(s.res);
    assert EncodeStream(s)[24..] == Encode(STREAM_TAIL, [s.part, s.refs, s.hash]);
  }

  function EncodeHeader(h: Header): (b: seq<Byte>)
    ensures |b| == HEADER_SIZE
  {
    Widths();
    Encode(HEADER_HEAD, HeadValues(h)) + EncodeResource(h.table) + EncodeResource(h.xml)
    + EncodeResource(h.bootMetadata) + Encode(HEADER_BOOT, [h.bootIndex, h.padding])
    + EncodeResource(h.integrity) + LittleEndian(60, h.unused)
  }

  function DecodeHeader(b: seq<Byte>): Header
    requires |b| == HEADER_SIZE
  {
    Widths();
    var v, w := Decode(HEADER_HEAD, b[..48]), Decode(HEADER_BOOT, b[120..128]);
    Header(v[0], v[1], v[2], v[3], v[4], v[5], v[6], v[7], v[8],
           DecodeResource(b[48..72]), DecodeResource(b[72..96]), DecodeResource(b[96..120]),
           w[0], w[1],
           DecodeResource(b[128..152]),
           Number(b[152..]))
  }

  lemma HeaderRoundTrip(h: Header)
    requires ValidHeader(h)
    ensures DecodeHeader(EncodeHeader(h)) == h
  {
    Widths();
    HeaderSlices(h);
    DecodeOfEncode(HEADER_HEAD, HeadValues(h));
    DecodeOfEncode(HEADER_BOOT, [h.bootIndex, h.padding]);
    ResourceRoundTrip(h.table);
    ResourceRoundTrip(h.xml);
    ResourceRoundTrip(h.bootMetadata);
    ResourceRoundTrip(h.integrity);
    NumberOfLittleEndian(60, h.unused);
  }

  lemma HeaderSlices(h: Header)
    ensures Total(HEADER_HEAD) == 48 && Total(HEADER_BOOT) == 8
    ensures var b := EncodeHeader(h);
            && b[..48] == Encode(HEADER_HEAD, HeadValues(h))
            && b[48..72] == EncodeResource(h.table)
            && b[72..96] == EncodeResource(h.xml)
            && b[96..120] == EncodeResource(h.bootMetadata)
            && b[120..128] == Encode(HEADER_BOOT, [h.bootIndex, h.padding])
            && b[128..152] == EncodeResource(h.integrity)
            && b[152..] == LittleEndian(60, h.unused)
  {
    hide Encode, EncodeResource, LittleEndian;
    Widths();
  }

  // ---- which bytes and bits are what

  /** Numbers of two, four and eight bytes have their low byte first. */
  lemma NumberIs(b: seq<Byte>)
    ensures |b| == 2 ==> Number(b) == (b[0] as int) + 0x100 * (b[1] as int)
    ensures |b| == 4 ==>
              Number(b) == (b[0] as int) + 0x100 * (b[1] as int) + 0x1_0000 * (b[2] as int)
                           + 0x100_0000 * (b[3] as int)
    ensures |b| == 8 ==>
              Number(b) == Number(b[0..4]) + 0x1_0000_0000 * Number(b[4..8])
  {
    if |b| == 2 {
      NumberTwice(b);
    } else if |b| == 4 {
      NumberFour(b);
    } else if |b| == 8 {
      NumberFour(b[0..4]);
      NumberFour(b[4..8]);
      NumberEight(b);
    }
  }

  lemma NumberTwice(b: seq<Byte>)
    requires |b| >= 2
    ensures Number(b) == (b[0] as int) + 0x100 * (b[1] as int) + 0x1_0000 * Number(b[2..])
  {
    assert b[1..][1..] == b[2..];
  }

  lemma NumberFour(b: seq<Byte>)
    requires |b| >= 4
    ensures Number(b) == (b[0] as int) + 0x100 * (b[1] as int) + 0x1_0000 * (b[2] as int)
                         + 0x100_0000 * (b[3] as int) + 0x1_0000_0000 * Number(b[4..])
  {
    hide Number;
    NumberTwice(b);
    NumberTwice(b[2..]);
    assert b[2..][2..] == b[4..];
  }

  lemma NumberEight(b: seq<Byte>)
    requires |b| == 8
    ensures Number(b) == Number(b[0..4]) + 0x1_0000_0000 * Number(b[4..8])
  {
    NumberFour(b);
    NumberFour(b[0..4]);
    assert b[0..4][4..] == [] && b[4..] == b[4..8];
    assert Number([]) == 0;
  }

  /** Where value i of a record starts. */
  function Start(widths: seq<nat>, i: nat): nat
    requires i <= |widths|
  {
    if i == 0 then 0 else widths[0] + Start(widths[1..], i - 1)
  }

  lemma {:induction false} StartNext(widths: seq<nat>, i: nat)
    requires i < |widths|
    ensures Start(widths, i + 1) == Start(widths, i) + widths[i]
  {
    if i > 0 {
      StartNext(widths[1..], i - 1);
    }
  }

  lemma {:induction false} StartInside(widths: seq<nat>, i: nat)
    requires i < |widths|
    ensures Start(widths, i) + widths[i] <= Total(widths)
  {
    if i > 0 {
      StartInside(widths[1..], i - 1);
    }
  }

  lemma DecodeFirst(widths: seq<nat>, b: seq<Byte>)
    requires widths != [] && |b| == Total(widths)
    ensures widths[0] <= |b| && |b[widths[0]..]| == Total(widths[1..])
    ensures Decode(widths, b) == [Number(b[..widths[0]])] + Decode(widths[1..], b[widths[0]..])
  {
    hide Number;
  }

  lemma {:induction false} DecodeAt(widths: seq<nat>, b: seq<Byte>, i: nat)
    requires i < |widths| && |b| == Total(widths)
    ensures var k := Start(widths, i); k + widths[i] <= |b| && Decode(widths, b)[i] == Number(b[k..k + widths[i]])
    decreases i
  {
    hide Number, Decode, Total;
    StartInside(widths, i);
    DecodeFirst(widths, b);
    if i > 0 {
      var n, k := widths[0], Start(widths[1..], i - 1);
      DecodeAt(widths[1..], b[n..], i - 1);
      SliceFurther(b, n, k, widths[i]);
    } else {
      assert b[..widths[0]] == b[0..widths[0]];
    }
  }

  lemma SliceFurther(b: seq<Byte>, n: nat, k: nat, m: nat)
    requires n + k + m <= |b|
    ensures b[n..][k..k + m] == b[n + k..n + k + m]
  {
  }

  /** A resource descriptor: flags and size, offset, original size. */
  lemma ResourceLayout(b: seq<Byte>)
    requires |b| == 24
    ensures var r := DecodeResource(b);
            && r.packed == Number(b[0..8])
            && r.offset == Signed64(Number(b[8..16])) && r.original == Signed64(Number(b[16..24]))
  {
    hide Number, Decode, Signed64;
    Widths();
    StartNext(RESOURCE_WIDTHS, 0);
    StartNext(RESOURCE_WIDTHS, 1);
    DecodeAt(RESOURCE_WIDTHS, b, 0);
    DecodeAt(RESOURCE_WIDTHS, b, 1);
    DecodeAt(RESOURCE_WIDTHS, b, 2);
  }

  /** A stream descriptor: resource, part number, reference count, hash. */
  lemma StreamLayout(b: seq<Byte>)
    requires |b| == 50
    ensures var s := DecodeStream(b);
            && s.res == DecodeResource(b[0..24])
            && s.part == Number(b[24..26]) && s.refs == Number(b[26..30]) && s.hash == Number(b[30..50])
  {
    hide Number, Decode, DecodeResource;
    Widths();
    StartNext(STREAM_TAIL, 0);
    StartNext(STREAM_TAIL, 1);
    DecodeAt(STREAM_TAIL, b[24..], 0);
    DecodeAt(STREAM_TAIL, b[24..], 1);
    DecodeAt(STREAM_TAIL, b[24..], 2);
    assert b[24..][0..2] == b[24..26] && b[24..][2..6] == b[26..30] && b[24..][6..26] == b[30..50];
  }

  lemma HeadStarts()
    ensures Start(HEADER_HEAD, 0) == 0 && Start(HEADER_HEAD, 1) == 8 && Start(HEADER_HEAD, 2) == 12
    ensures Start(HEADER_HEAD, 3) == 16 && Start(HEADER_HEAD, 4) == 20 && Start(HEADER_HEAD, 5) == 24
    ensures Start(HEADER_HEAD, 6) == 40 && Start(HEADER_HEAD, 7) == 42 && Start(HEADER_HEAD, 8) == 44
  {
    StartNext(HEADER_HEAD, 0);
    StartNext(HEADER_HEAD, 1);
    StartNext(HEADER_HEAD, 2);
    StartNext(HEADER_HEAD, 3);
    StartNext(HEADER_HEAD, 4);
    StartNext(HEADER_HEAD, 5);
    StartNext(HEADER_HEAD, 6);
    StartNext(HEADER_HEAD, 7);
  }

  lemma HeadValue(b: seq<Byte>, i: nat, k: nat)
    requires |b| == 212 && i < |HEADER_HEAD| && k == Start(HEADER_HEAD, i)
    ensures |b[..48]| == Total(HEADER_HEAD) && k + HEADER_HEAD[i] <= 48
    ensures Decode(HEADER_HEAD, b[..48])[i] == Number(b[k..k + HEADER_HEAD[i]])
  {
    hide Number, Decode, Start, Total;
    Widths();
    DecodeAt(HEADER_HEAD, b[..48], i);
    assert b[..48][k..k + HEADER_HEAD[i]] == b[k..k + HEADER_HEAD[i]];
  }

  /** The header. */
  lemma HeaderLayout(b: seq<Byte>)
    requires |b| == 212
    ensures var h := DecodeHeader(b);
            && h.tag == Number(b[0..8]) && h.size == Number(b[8..12]) && h.version == Number(b[12..16])
            && h.flags == Number(b[16..20]) && h.compressionSize == Number(b[20..24]) && h.guid == Number(b[24..40])
            && h.part == Number(b[40..42]) && h.totalParts == Number(b[42..44]) && h.imageCount == Number(b[44..48])
    ensures var h := DecodeHeader(b);
            && h.table == DecodeResource(b[48..72]) && h.xml == DecodeResource(b[72..96])
            && h.bootMetadata == DecodeResource(b[96..120])
            && h.bootIndex == Number(b[120..124]) && h.padding == Number(b[124..128])
            && h.integrity == DecodeResource(b[128..152]) && h.unused == Number(b[152..212])
  {
    hide Number, Decode, DecodeResource, Start, Total;
    Widths();
    HeadStarts();
    HeadValue(b, 0, 0);
    HeadValue(b, 1, 8);
    HeadValue(b, 2, 12);
    HeadValue(b, 3, 16);
    HeadValue(b, 4, 20);
    HeadValue(b, 5, 24);
    HeadValue(b, 6, 40);
    HeadValue(b, 7, 42);
    HeadValue(b, 8, 44);
    BootValues(b[120..128]);
    assert b[120..128][0..4] == b[120..124] && b[120..128][4..8] == b[124..128];
    assert b[152..] == b[152..212];
  }

  lemma BootStarts()
    ensures Start(HEADER_BOOT, 0) == 0 && Start(HEADER_BOOT, 1) == 4
  {
  }

  lemma BootValues(b: seq<Byte>)
    requires |b| == 8
    ensures Total(HEADER_BOOT) == 8 && Decode(HEADER_BOOT, b) == [Number(b[0..4]), Number(b[4..8])]
  {
    hide Number, Decode, Total, Start;
    Widths();
    BootStarts();
    DecodeAt(HEADER_BOOT, b, 0);
    DecodeAt(HEADER_BOOT, b, 1);
  }

  /** The flags are the top byte, with metadata in the second bit and compression in the third;
      the rest is the size. Offsets are signed. */
  lemma FlagBits(r: Resource)
    ensures Flags(r) == r.packed / 0x100_0000_0000_0000 && Size(r) == r.packed % 0x100_0000_0000_0000
    ensures IsMetadata(r) <==> Flags(r) / 2 % 2 == 1
    ensures Supported(r) <==> Flags(r) in {0, 2, 4, 6}
  {
  }

  lemma SignedIs(v: nat)
    requires v < 0x1_0000_0000_0000_0000
    ensures Signed64(v) == if v < 0x8000_0000_0000_0000 then v else v - 0x1_0000_0000_0000_0000
  {
  }

  // ---- the offset table

  function EncodeTable(ss: seq<Stream>): (b: seq<Byte>)
    ensures |b| == STREAM_SIZE * |ss|
  {
    if ss == [] then [] else EncodeStream(ss[0]) + EncodeTable(ss[1..])
  }

  /** A table that ends inside a descriptor is an error. */
  function DecodeTable(b: seq<Byte>): Option<seq<Stream>>
    decreases |b|
  {
    if b == [] then Some([])
    else if |b| < STREAM_SIZE then None
    else
      var rest := DecodeTable(b[STREAM_SIZE..]);
      if rest.None? then None else Some([DecodeStream(b[..STREAM_SIZE])] + rest.value)
  }

  /** A table is whole descriptors of fifty bytes, in order. */
  lemma {:induction false} TableIs(b: seq<Byte>)
    ensures DecodeTable(b).Some? <==> |b| % 50 == 0
    ensures DecodeTable(b).Some? ==>
      var ss := DecodeTable(b).value;
      |b| == 50 * |ss| && forall i | 0 <= i < |ss| :: ss[i] == DecodeStream(b[50 * i..50 * i + 50])
    decreases |b|
  {
    hide DecodeStream;
    if |b| >= 50 {
      var rest := b[50..];
      TableIs(rest);
      if DecodeTable(b).Some? {
        var ss := DecodeTable(b).value;
        assert b[..50] == b[0..50];
        forall i | 1 <= i < |ss|
          ensures ss[i] == DecodeStream(b[50 * i..50 * i + 50])
        {
          assert rest[50 * (i - 1)..50 * (i - 1) + 50] == b[50 * i..50 * i + 50];
          assert ss[i] == DecodeTable(rest).value[i - 1];
        }
      }
    }
  }

  lemma {:induction false} TableRoundTrip(ss: seq<Stream>)
    requires forall s | s in ss :: ValidStream(s)
    ensures DecodeTable(EncodeTable(ss)) == Some(ss)
  {
    hide ValidStream, EncodeStream, DecodeStream;
    if ss != [] {
      var first, rest := EncodeStream(ss[0]), EncodeTable(ss[1..]);
      StreamRoundTrip(ss[0]);
      TableRoundTrip(ss[1..]);
      assert (first + rest)[..STREAM_SIZE] == first && (first + rest)[STREAM_SIZE..] == rest;
      assert [ss[0]] + ss[1..] == ss;
    }
  }

  function Images(ss: seq<Stream>): seq<Resource> {
    if ss == [] then [] else
      var s := ss[|ss| - 1];
      Images(ss[..|ss| - 1]) + if IsMetadata(s.res) then [s.res] else []
  }

  predicate AllSupported(ss: seq<Stream>) {
    forall s | s in ss :: Supported(s.res)
  }

  /** Stream i is the last one with file data of hash h. */
  predicate LastWith(ss: seq<Stream>, i: nat, h: nat) {
    && i < |ss| && !IsMetadata(ss[i].res) && ss[i].hash == h
    && forall j | i < j < |ss| && !IsMetadata(ss[j].res) :: ss[j].hash != h
  }

  /** What a reader knows of a table's file data: for each hash in it the resource of the
      last stream with that hash. */
  ghost predicate Indexes(data: map<nat, Resource>, ss: seq<Stream>) {
    && (forall s | s in ss && !IsMetadata(s.res) :: s.hash in data)
    && (forall h | h in data :: exists i: nat :: LastWith(ss, i, h) && ss[i].res == data[h])
  }

  lemma IndexesStep(data: map<nat, Resource>, ss: seq<Stream>, s: Stream)
    requires Indexes(data, ss)
    ensures Indexes(if IsMetadata(s.res) then data else data[s.hash := s.res], ss + [s])
    ensures Images(ss + [s]) == Images(ss) + if IsMetadata(s.res) then [s.res] else []
  {
    hide IsMetadata;
    var more, t := if IsMetadata(s.res) then data else data[s.hash := s.res], ss + [s];
    assert t[..|ss|] == ss;
    forall h | h in more
      ensures exists i: nat :: LastWith(t, i, h) && t[i].res == more[h]
    {
      if !IsMetadata(s.res) && h == s.hash {
        assert LastWith(t, |ss|, h);
      } else {
        var i: nat :| LastWith(ss, i, h) && ss[i].res == data[h];
        assert LastWith(t, i, h);
      }
    }
  }

  lemma NothingRead()
    ensures Images([]) == [] && Indexes(map[], [])
  {
  }

  datatype Tables = Tables(data: map<nat, Resource>, images: seq<Resource>)

  /** Reading succeeds exactly when the table decodes, no stream has an unsupported flag
      and there are as many images as the header says. */
  method ReadOffsetTable(table: seq<Byte>, imageCount: nat) returns (r: Option<Tables>)
    ensures r.Some? <==>
      var ss := DecodeTable(table); ss.Some? && AllSupported(ss.value) && |Images(ss.value)| == imageCount
    ensures r.Some? ==>
      r.value.images == Images(DecodeTable(table).value) && Indexes(r.value.data, DecodeTable(table).value)
  {
    hide DecodeStream, IsMetadata, Supported, Indexes, Images;
    var data: map<nat, Resource>, images := map[], [];
    NothingRead();
    var b := table;
    ghost var done: seq<Stream> := [];
    while |b| >= STREAM_SIZE
      invariant DecodeTable(table).Some? <==> DecodeTable(b).Some?
      invariant DecodeTable(b).Some? ==> DecodeTable(table).value == done + DecodeTable(b).value
      invariant AllSupported(done) && images == Images(done) && Indexes(data, done)
      decreases |b|
    {
      var s := DecodeStream(b[..STREAM_SIZE]);
      ghost var later := DecodeTable(b[STREAM_SIZE..]);
      if later.Some? {
        assert done + ([s] + later.value) == done + [s] + later.value;
        assert s in DecodeTable(table).value;
      }
      if !Supported(s.res) {
        return None;
      }
      IndexesStep(data, done, s);
      if IsMetadata(s.res) {
        images := images + [s.res];
      } else {
        data := data[s.hash := s.res];
      }
      done := done + [s];
      b := b[STREAM_SIZE..];
    }
    assert done + [] == done;
    if b != [] || |images| != imageCount {
      return None;
    }
    r := Some(Tables(data, images));
  }
}
