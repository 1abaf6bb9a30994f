/** Writing one part of a split set (internal/wim/split.go:299-466). */
module Swm {
  import opened Arith
  import opened WimFormat
  import opened Outside
  import opened Packing

  const BUFFER := 2097152
  const SPANNED := 8

  /** The bytes of c from offset on, n of them or as many as there are. */
  function Slice(c: seq<Byte>, offset: nat, n: nat): (s: seq<Byte>)
    ensures |s| <= n && (offset + n <= |c| ==> |s| == n)
  {
    if offset >= |c| then [] else if offset + n <= |c| then c[offset..offset + n] else c[offset..]
  }

  /** within: overflow cannot make a resource look as if it lay inside the file. */
  function Within(r: Resource, size: int): (inside: bool)
    ensures inside <==> 0 <= r.offset && r.offset + Size(r) <= size
  {
    r.offset >= 0 && r.offset <= size && Size(r) <= size - r.offset
  }

  /** The bytes a resource stands for. */
  function At(c: seq<Byte>, r: Resource): seq<Byte> {
    if r.offset < 0 then [] else Slice(c, r.offset, Size(r))
  }

  /** A source file; any read may fail. */
  class Source {
    const content: seq<Byte>
    const world: World

    constructor (c: seq<Byte>, w: World)
      ensures content == c && world == w
    {
      content, world := c, w;
    }

    method ReadAt(n: nat, offset: nat) returns (data: seq<Byte>, ok: bool)
      modifies world
      ensures data == Slice(content, offset, n)
      ensures world.Faults() == old(world.Faults()) + if ok then 0 else 1
    {
      var fails := world.Fails();
      ok := !fails;
      data := Slice(content, offset, n);
    }
  }

  /** An output file; any write may fail. */
  class OutFile {
    const world: World
    var bytes: seq<Byte>
    var pos: nat

    constructor (w: World)
      ensures bytes == [] && pos == 0 && world == w
    {
      world, bytes, pos := w, [], 0;
    }

    method Write(b: seq<Byte>) returns (ok: bool)
      requires pos <= |bytes|
      modifies this, world
      ensures world.Faults() == old(world.Faults()) + if ok then 0 else 1
      ensures ok ==> pos == old(pos) + |b| && pos <= |bytes|
      ensures ok ==> bytes == old(bytes)[..old(pos)] + b + Slice(old(bytes), old(pos) + |b|, |old(bytes)|)
    {
      var fails := world.Fails();
      ok := !fails;
      bytes := bytes[..pos] + b + Slice(bytes, pos + |b|, |bytes|);
      pos := pos + |b|;
    }

    method SeekStart()
      modifies `pos
      ensures pos == 0
    {
      pos := 0;
    }
  }

  /** Appending at the end of the file. */
  method Append(dst: OutFile, b: seq<Byte>) returns (ok: bool)
    requires dst.pos == |dst.bytes|
    modifies dst, dst.world
    ensures dst.world.Faults() == old(dst.world.Faults()) + if ok then 0 else 1
    ensures ok ==> dst.bytes == old(dst.bytes) + b && dst.pos == |dst.bytes|
  {
    ok := dst.Write(b);
    assert old(dst.bytes)[..|old(dst.bytes)|] == old(dst.bytes);
  }

  /** Copies what the source has of size bytes at offset, at most a buffer at a time; a
      source that ends early is not an error here. */
  method CopyBlobData(src: Source, dst: OutFile, offset: nat, size: nat) returns (copied: nat, ok: bool)
    requires dst.pos == |dst.bytes| && src.world == dst.world
    modifies dst, dst.world
    ensures Unless(ok, old(dst.world.Faults()), dst.world.Faults())
    ensures ok ==> dst.bytes == old(dst.bytes) + Slice(src.content, offset, size) && dst.pos == |dst.bytes|
    ensures ok ==> copied == |Slice(src.content, offset, size)|
  {
    hide Slice;
    copied, ok := 0, true;
    NothingYet(src.content, offset);
    assert old(dst.bytes) + [] == old(dst.bytes);
    while copied < size
      invariant dst.world.Faults() == old(dst.world.Faults())
      invariant copied <= size && copied == |Slice(src.content, offset, copied)|
      invariant dst.bytes == old(dst.bytes) + Slice(src.content, offset, copied) && dst.pos == |dst.bytes|
    {
      var stopped := dst.world.Fails();
      if stopped {
        return copied, false;
      }
      var toRead := if size - copied < BUFFER then size - copied else BUFFER;
      var data;
      data, ok := src.ReadAt(toRead, offset + copied);
      if !ok {
        return;
      }
      if data == [] {
        Exhausted(src.content, offset, copied, toRead, size);
        return;
      }
      var done := Slice(src.content, offset, copied);
      ok := Append(dst, data);
      if !ok {
        return;
      }
      assert old(dst.bytes) + done + data == old(dst.bytes) + (done + data);
      CopiedSoFar(src.content, offset, copied, toRead);
      copied := copied + |data|;
      var stops := dst.world.Fails();
      if stops {
        return copied, false;
      }
    }
  }

  lemma {:induction false} NothingYet(c: seq<Byte>, offset: nat)
    ensures Slice(c, offset, 0) == []
  {
  }

  lemma {:induction false} CopiedSoFar(c: seq<Byte>, offset: nat, copied: nat, n: nat)
    requires |Slice(c, offset, copied)| == copied
    ensures var m := |Slice(c, offset + copied, n)|;
            && Slice(c, offset, copied + m) == Slice(c, offset, copied) + Slice(c, offset + copied, n)
            && |Slice(c, offset, copied + m)| == copied + m
  {
  }

  lemma {:induction false} Exhausted(c: seq<Byte>, offset: nat, copied: nat, n: nat, size: nat)
    requires copied < size && 0 < n && |Slice(c, offset, copied)| == copied
    requires Slice(c, offset + copied, n) == []
    ensures Slice(c, offset, size) == Slice(c, offset, copied)
  {
  }

  // ---- one part

  function Move(s: Stream, k: nat, offset: nat): Stream {
    s.(res := s.res.(offset := offset), part := k % 65536)
  }

  /** The descriptors as part k carries them: blobs follow the header back to back. */
  function Relocated(ss: seq<Stream>, k: nat): (rs: seq<Stream>)
    ensures |rs| == |ss|
  {
    if ss == [] then [] else
      var rest := ss[..|ss| - 1];
      Relocated(rest, k) + [Move(ss[|ss| - 1], k, HEADER_SIZE + Bytes(rest))]
  }

  function BlobData(c: seq<Byte>, ss: seq<Stream>): seq<Byte> {
    if ss == [] then [] else BlobData(c, ss[..|ss| - 1]) + At(c, ss[|ss| - 1].res)
  }

  lemma {:induction false} BlobDataAppend(c: seq<Byte>, ss: seq<Stream>, s: Stream, k: nat)
    ensures BlobData(c, ss + [s]) == BlobData(c, ss) + At(c, s.res)
    ensures Relocated(ss + [s], k) == Relocated(ss, k) + [Move(s, k, HEADER_SIZE + Bytes(ss))]
    ensures Bytes(ss + [s]) == Bytes(ss) + Size(s.res)
  {
    assert (ss + [s])[..|ss|] == ss;
  }

  lemma {:induction false} BlobDataLength(c: seq<Byte>, ss: seq<Stream>)
    requires forall s | s in ss :: Within(s.res, |c|)
    ensures |BlobData(c, ss)| == Bytes(ss)
  {
    hide Size, At, Within;
    if ss != [] {
      var s := ss[|ss| - 1];
      BlobDataLength(c, ss[..|ss| - 1]);
      InsideFile(s.res, c);
    }
  }

  function WithSpanned(flags: nat): nat {
    if flags / SPANNED % 2 == 1 then flags else flags + SPANNED
  }

  /** The header a part starts out with: only part 1 describes images; it keeps the
      source's boot metadata as it is. */
  function FirstHeader(h: Header, guid: nat, k: nat, n: nat): Header {
    var p := h.(guid := guid, part := k % 65536, totalParts := n % 65536, flags := WithSpanned(h.flags));
    if k > 1 then p.(imageCount := 0, bootIndex := 0, bootMetadata := NO_RESOURCE) else p
  }

  function FinalHeader(h: Header, guid: nat, k: nat, n: nat, tableStart: nat, tableSize: nat): Header {
    var p := FirstHeader(h, guid, k, n).(
      table := Resource(tableSize, tableStart, tableSize), integrity := NO_RESOURCE);
    if Size(h.xml) > 0 then p.(xml := h.xml.(offset := tableStart + tableSize)) else p
  }

  predicate AllWithin(c: seq<Byte>, h: Header, ss: seq<Stream>) {
    Within(h.xml, |c|) && forall s | s in ss :: Within(s.res, |c|)
  }

  function PartTable(ss: seq<Stream>, k: nat): (table: seq<Byte>)
    ensures |table| == STREAM_SIZE * |ss|
  {
    EncodeTable(Relocated(ss, k))
  }

  function PartHeader(h: Header, guid: nat, ss: seq<Stream>, k: nat, n: nat): Header {
    FinalHeader(h, guid, k, n, HEADER_SIZE + Bytes(ss), STREAM_SIZE * |ss|)
  }

  /** The whole file of part k. */
  function PartFile(c: seq<Byte>, h: Header, guid: nat, ss: seq<Stream>, k: nat, n: nat): seq<Byte> {
    EncodeHeader(PartHeader(h, guid, ss, k, n)) + BlobData(c, ss) + PartTable(ss, k) + At(c, h.xml)
  }

  lemma InsideFile(r: Resource, c: seq<Byte>)
    requires Within(r, |c|)
    ensures r.offset >= 0 && At(c, r) == Slice(c, r.offset, Size(r)) && |At(c, r)| == Size(r)
    ensures At(c, r) == c[r.offset..r.offset + Size(r)]
  {
  }

  method CopyBlob(src: Source, dst: OutFile, s: Stream) returns (copied: nat, ok: bool)
    requires Within(s.res, |src.content|) && dst.pos == |dst.bytes| && src.world == dst.world
    modifies dst, dst.world
    ensures Unless(ok, old(dst.world.Faults()), dst.world.Faults())
    ensures ok ==> dst.pos == |dst.bytes| && dst.bytes == old(dst.bytes) + At(src.content, s.res)
    ensures ok ==> copied == Size(s.res)
  {
    hide Slice, Size, Within, At;
    InsideFile(s.res, src.content);
    copied, ok := CopyBlobData(src, dst, s.res.offset, Size(s.res));
  }

  lemma NothingCopied(c: seq<Byte>, start: seq<Byte>, k: nat)
    ensures start + BlobData(c, []) == start && Relocated([], k) == [] && Bytes([]) == 0
  {
  }

  method CopyBlobs(src: Source, dst: OutFile, part: Part, k: nat) returns (table: seq<Stream>, offset: nat, ok: bool)
    requires dst.pos == |dst.bytes| == HEADER_SIZE && src.world == dst.world
    requires forall s | s in Streams(part.blobs) :: Within(s.res, |src.content|)
    modifies dst, dst.world
    ensures Unless(ok, old(dst.world.Faults()), dst.world.Faults())
    ensures ok ==> dst.bytes == old(dst.bytes) + BlobData(src.content, Streams(part.blobs)) && dst.pos == |dst.bytes|
    ensures ok ==> table == Relocated(Streams(part.blobs), k) && offset == HEADER_SIZE + Bytes(Streams(part.blobs))
  {
    hide Slice, Size, Within, At, BlobData, Relocated, Bytes;
    ghost var ss, start := Streams(part.blobs), dst.bytes;
    table, offset, ok := [], HEADER_SIZE, true;
    NothingCopied(src.content, start, k);
    assert ss[..0] == [];
    for i := 0 to |part.blobs|
      invariant ok && dst.world.Faults() == old(dst.world.Faults())
      invariant dst.bytes == start + BlobData(src.content, ss[..i]) && dst.pos == |dst.bytes|
      invariant table == Relocated(ss[..i], k) && offset == HEADER_SIZE + Bytes(ss[..i])
    {
      var stopped := dst.world.Fails();
      if stopped {
        return table, offset, false;
      }
      var s := part.blobs[i].stream;
      assert s == ss[i] && s in ss;
      assert ss[..i + 1] == ss[..i] + [s];
      BlobDataAppend(src.content, ss[..i], s, k);
      var copied;
      Regroup(start, BlobData(src.content, ss[..i]), At(src.content, s.res));
      copied, ok := CopyBlob(src, dst, s);
      if !ok {
        return;
      }
      table := table + [Move(s, k, offset)];
      offset := offset + copied;
    }
    assert ss[..|ss|] == ss;
  }

  /** A part that was written has the header, the blobs, the table and the XML in place. */
  method WriteSWMPart(src: Source, h: Header, guid: nat, part: Part, k: nat, n: nat)
    returns (file: seq<Byte>, ok: bool)
    requires AllWithin(src.content, h, Streams(part.blobs))
    modifies src.world
    ensures Unless(ok, old(src.world.Faults()), src.world.Faults())
    ensures ok ==> file == PartFile(src.content, h, guid, Streams(part.blobs), k, n)
  {
    hide Slice, Size, EncodeHeader, EncodeTable, BlobData, FinalHeader, FirstHeader, Within;
    var dst := new OutFile(src.world);
    file := [];
    var ss := Streams(part.blobs);
    var placeholder := EncodeHeader(FirstHeader(h, guid, k, n));
    ok := Append(dst, placeholder);
    if !ok {
      return;
    }
    assert [] + placeholder == placeholder;
    assert dst.bytes == placeholder;
    var moved, tableStart;
    moved, tableStart, ok := CopyBlobs(src, dst, part, k);
    if !ok {
      return;
    }
    var table := EncodeTable(moved);
    ok := Append(dst, table);
    if !ok {
      return;
    }
    ok := CopyXml(src, dst, h);
    if !ok {
      return;
    }
    ghost var header := EncodeHeader(FinalHeader(h, guid, k, n, tableStart, |table|));
    Regroup4(placeholder, BlobData(src.content, ss), table, At(src.content, h.xml));
    Regroup4(header, BlobData(src.content, ss), table, At(src.content, h.xml));
    ghost var body := BlobData(src.content, ss) + table + At(src.content, h.xml);
    ok := Rewrite(dst, placeholder, body, FinalHeader(h, guid, k, n, tableStart, |table|));
    file := dst.bytes;
  }

  lemma Regroup4(a: seq<Byte>, b: seq<Byte>, c: seq<Byte>, d: seq<Byte>)
    ensures a + b + c + d == a + (b + c + d)
  {
  }

  method CopyXml(src: Source, dst: OutFile, h: Header) returns (ok: bool)
    requires dst.pos == |dst.bytes| && Within(h.xml, |src.content|) && src.world == dst.world
    modifies dst, dst.world
    ensures Unless(ok, old(dst.world.Faults()), dst.world.Faults())
    ensures ok ==> dst.bytes == old(dst.bytes) + At(src.content, h.xml) && dst.pos == |dst.bytes|
  {
    InsideFile(h.xml, src.content);
    ok := true;
    if Size(h.xml) > 0 {
      var copied;
      copied, ok := CopyBlobData(src, dst, h.xml.offset, Size(h.xml));
    } else {
      assert At(src.content, h.xml) == [];
    }
  }

  method Rewrite(dst: OutFile, placeholder: seq<Byte>, ghost body: seq<Byte>, h: Header) returns (ok: bool)
    requires dst.bytes == placeholder + body && |placeholder| == HEADER_SIZE
    modifies dst, dst.world
    ensures Unless(ok, old(dst.world.Faults()), dst.world.Faults())
    ensures ok ==> dst.bytes == EncodeHeader(h) + body
  {
    hide EncodeHeader;
    dst.SeekStart();
    ok := dst.Write(EncodeHeader(h));
    if ok {
      var fails := dst.world.Fails();
      ok := !fails;
    }
    assert Slice(placeholder + body, HEADER_SIZE, |placeholder + body|) == body;
    assert (placeholder + body)[..0] == [];
    assert [] + EncodeHeader(h) + body == EncodeHeader(h) + body;
  }
}
