/** Assigning the blobs of a WIM to the parts of a split set
    (internal/wim/split.go:253-297), and how full the parts get. */
module Packing {
  import opened Arith
  import opened WimFormat

  datatype Blob = Blob(stream: Stream, partNumber: nat)

  datatype Part = Part(blobs: seq<Blob>, dataSize: nat)

  // ---- the two passes over the blobs

  function Metadata(ss: seq<Stream>): seq<Stream> {
    if ss == [] then [] else
      var s := ss[|ss| - 1];
      Metadata(ss[..|ss| - 1]) + if IsMetadata(s.res) then [s] else []
  }

  function Regular(ss: seq<Stream>): seq<Stream> {
    if ss == [] then [] else
      var s := ss[|ss| - 1];
      Regular(ss[..|ss| - 1]) + if IsMetadata(s.res) then [] else [s]
  }

  lemma {:induction false} PassesKinds(ss: seq<Stream>)
    ensures forall s | s in Metadata(ss) :: IsMetadata(s.res)
    ensures forall s | s in Regular(ss) :: !IsMetadata(s.res)
  {
    hide IsMetadata;
    if ss != [] {
      PassesKinds(ss[..|ss| - 1]);
    }
  }

  lemma {:induction false} PassesKeepAll(ss: seq<Stream>)
    ensures multiset(Metadata(ss)) + multiset(Regular(ss)) == multiset(ss)
  {
    hide IsMetadata;
    if ss != [] {
      var rest, s := ss[..|ss| - 1], ss[|ss| - 1];
      PassesKeepAll(rest);
      assert ss == rest + [s];
      hide Metadata, Regular;
      if IsMetadata(s.res) {
        OnePass(ss, s);
      } else {
        OtherPass(ss, s);
      }
    }
  }

  lemma OnePass(ss: seq<Stream>, s: Stream)
    requires ss != [] && s == ss[|ss| - 1] && IsMetadata(s.res)
    ensures multiset(Metadata(ss)) == multiset(Metadata(ss[..|ss| - 1])) + multiset{s}
    ensures Regular(ss) == Regular(ss[..|ss| - 1])
  {
    hide IsMetadata;
  }

  lemma OtherPass(ss: seq<Stream>, s: Stream)
    requires ss != [] && s == ss[|ss| - 1] && !IsMetadata(s.res)
    ensures Metadata(ss) == Metadata(ss[..|ss| - 1])
    ensures multiset(Regular(ss)) == multiset(Regular(ss[..|ss| - 1])) + multiset{s}
  {
    hide IsMetadata;
  }

  lemma PassesPartition(ss: seq<Stream>)
    ensures multiset(Metadata(ss) + Regular(ss)) == multiset(ss)
    ensures forall s | s in Metadata(ss) :: IsMetadata(s.res)
    ensures forall s | s in Regular(ss) :: !IsMetadata(s.res)
  {
    hide IsMetadata, Metadata, Regular;
    PassesKinds(ss);
    PassesKeepAll(ss);
  }

  /** Both passes keep the order: what comes of two lists one after the other is what comes of
      each, one after the other. */
  lemma {:induction false} PassesInOrder(a: seq<Stream>, b: seq<Stream>)
    ensures Metadata(a + b) == Metadata(a) + Metadata(b) && Regular(a + b) == Regular(a) + Regular(b)
  {
    hide Metadata, Regular, IsMetadata;
    if b == [] {
      assert a + b == a;
      PassOfNone();
      assert Metadata(a) + [] == Metadata(a) && Regular(a) + [] == Regular(a);
    } else {
      var rest, s := b[..|b| - 1], b[|b| - 1];
      PassesInOrder(a, rest);
      assert (a + b)[..|a + b| - 1] == a + rest && (a + b)[|a + b| - 1] == s;
      PassOfLast(a + b);
      PassOfLast(b);
      Regroup(Metadata(a), Metadata(rest), if IsMetadata(s.res) then [s] else []);
      Regroup(Regular(a), Regular(rest), if IsMetadata(s.res) then [] else [s]);
    }
  }

  lemma PassOfNone()
    ensures Metadata([]) == [] && Regular([]) == []
  {
  }

  lemma PassOfLast(ss: seq<Stream>)
    requires ss != []
    ensures var rest, s := ss[..|ss| - 1], ss[|ss| - 1];
            && Metadata(ss) == Metadata(rest) + (if IsMetadata(s.res) then [s] else [])
            && Regular(ss) == Regular(rest) + (if IsMetadata(s.res) then [] else [s])
  {
    hide IsMetadata;
  }

  lemma PassOfOne(s: Stream)
    ensures Metadata([s]) == if IsMetadata(s.res) then [s] else []
    ensures Regular([s]) == if IsMetadata(s.res) then [] else [s]
  {
    hide IsMetadata;
    assert [s][..0] == [];
  }

  function Streams(blobs: seq<Blob>): (ss: seq<Stream>)
    ensures |ss| == |blobs|
    ensures forall i | 0 <= i < |blobs| :: ss[i] == blobs[i].stream
  {
    seq(|blobs|, i requires 0 <= i < |blobs| => blobs[i].stream)
  }

  function Flatten(parts: seq<Part>): seq<Stream> {
    if parts == [] then [] else Flatten(parts[..|parts| - 1]) + Streams(parts[|parts| - 1].blobs)
  }

  function Bytes(ss: seq<Stream>): nat {
    if ss == [] then 0 else Bytes(ss[..|ss| - 1]) + Size(ss[|ss| - 1].res)
  }

  // ---- what a packing is

  /** Part k: its first meta + 1 blobs are taken whatever their size, each later one only
      while the part stays within the limit. */
  predicate PartOk(p: Part, k: nat, max: int, meta: nat) {
    && p.dataSize == Bytes(Streams(p.blobs))
    && (forall b | b in p.blobs :: b.partNumber == k + 1)
    && (forall i | 0 <= i < |p.blobs| :: IsMetadata(p.blobs[i].stream.res) <==> k == 0 && i < meta)
    && (k > 0 ==> p.blobs != [])
    && (forall j | meta + 1 < j <= |p.blobs| :: Bytes(Streams(p.blobs)[..j]) <= max)
  }

  /** A part is closed only when its next blob would have exceeded the limit. */
  predicate Seam(p: Part, q: Part, max: int, meta: nat) {
    q.blobs != [] && |p.blobs| > meta && p.dataSize + Size(q.blobs[0].stream.res) > max
  }

  predicate Packed(parts: seq<Part>, max: int, meta: nat) {
    && parts != []
    && |parts[0].blobs| >= meta
    && (forall k | 0 <= k < |parts| :: PartOk(parts[k], k, max, meta))
    && (forall k | 0 <= k < |parts| - 1 :: Seam(parts[k], parts[k + 1], max, meta))
  }

  /** The outcomes of assignBlobsToParts. */
  predicate Assigned(blobs: seq<Stream>, parts: seq<Part>, max: int) {
    Packed(parts, max, |Metadata(blobs)|) && Flatten(parts) == Metadata(blobs) + Regular(blobs)
  }

  function Add(p: Part, s: Stream, number: nat): Part {
    Part(p.blobs + [Blob(s, number)], p.dataSize + Size(s.res))
  }

  lemma BytesAppend(ss: seq<Stream>, s: Stream)
    ensures Bytes(ss + [s]) == Bytes(ss) + Size(s.res)
  {
    assert (ss + [s])[..|ss|] == ss;
  }

  /** The last part takes one more blob. */
  lemma AddKeepsPacked(parts: seq<Part>, s: Stream, max: int, meta: nat)
    requires Packed(parts, max, meta) && !IsMetadata(s.res)
    requires var p := parts[|parts| - 1]; p.dataSize + Size(s.res) <= max || |p.blobs| <= meta
    ensures var n := |parts| - 1;
            var t := parts[n := Add(parts[n], s, n + 1)];
            Packed(t, max, meta) && Flatten(t) == Flatten(parts) + [s]
  {
    hide IsMetadata, Size, Bytes, PartOk, Seam;
    var n := |parts| - 1;
    var p := parts[n];
    var q := Add(p, s, n + 1);
    GrownPartOk(p, n, s, max, meta);
    assert Streams(q.blobs) == Streams(p.blobs) + [s];
    assert parts[n := q][..n] == parts[..n];
    if n > 0 {
      assert Seam(parts[n - 1], parts[n - 1 + 1], max, meta);
      GrownSeam(parts[n - 1], p, n, s, max, meta);
    }
  }

  lemma GrownSeam(a: Part, p: Part, n: nat, s: Stream, max: int, meta: nat)
    requires Seam(a, p, max, meta)
    ensures Seam(a, Add(p, s, n + 1), max, meta)
  {
    hide Size;
  }

  lemma GrownPartOk(p: Part, n: nat, s: Stream, max: int, meta: nat)
    requires PartOk(p, n, max, meta) && !IsMetadata(s.res) && (n == 0 ==> |p.blobs| >= meta)
    requires p.dataSize + Size(s.res) <= max || |p.blobs| <= meta
    ensures PartOk(Add(p, s, n + 1), n, max, meta)
  {
    hide IsMetadata, Size, Bytes;
    var q := Add(p, s, n + 1);
    BytesAppend(Streams(p.blobs), s);
    assert Streams(q.blobs) == Streams(p.blobs) + [s];
    forall j | meta + 1 < j <= |q.blobs|
      ensures Bytes(Streams(q.blobs)[..j]) <= max
    {
      if j == |q.blobs| {
        assert Streams(q.blobs)[..j] == Streams(q.blobs);
      } else {
        assert Streams(q.blobs)[..j] == Streams(p.blobs)[..j];
      }
    }
  }

  lemma NewPartKeepsPacked(parts: seq<Part>, s: Stream, max: int, meta: nat)
    requires Packed(parts, max, meta) && !IsMetadata(s.res)
    requires var p := parts[|parts| - 1]; p.dataSize + Size(s.res) > max && |p.blobs| > meta
    ensures var t := parts + [Add(Part([], 0), s, |parts| + 1)];
            Packed(t, max, meta) && Flatten(t) == Flatten(parts) + [s]
  {
    hide IsMetadata, Size, Bytes;
    var n := |parts|;
    var q := Add(Part([], 0), s, n + 1);
    BytesAppend([], s);
    assert Bytes([]) == 0 by { NoBytes(); }
    assert Streams(q.blobs) == [] + [s];
    assert PartOk(q, n, max, meta);
    var t := parts + [q];
    assert t[..n] == parts;
    forall k | 0 <= k < |t| - 1
      ensures Seam(t[k], t[k + 1], max, meta)
    {
      if k < n - 1 {
        assert Seam(parts[k], parts[k + 1], max, meta);
      }
    }
  }

  lemma NoBytes()
    ensures Bytes([]) == 0
  {
  }

  method Separate(blobs: seq<Stream>) returns (metadata: seq<Stream>, regular: seq<Stream>)
    ensures metadata == Metadata(blobs) && regular == Regular(blobs)
  {
    metadata, regular := [], [];
    for i := 0 to |blobs|
      invariant metadata == Metadata(blobs[..i]) && regular == Regular(blobs[..i])
    {
      assert blobs[..i + 1][..i] == blobs[..i];
      if IsMetadata(blobs[i].res) {
        metadata := metadata + [blobs[i]];
      } else {
        regular := regular + [blobs[i]];
      }
    }
    assert blobs[..|blobs|] == blobs;
  }

  method FirstPart(metadata: seq<Stream>) returns (first: Part)
    ensures Streams(first.blobs) == metadata && first.dataSize == Bytes(metadata)
    ensures forall b | b in first.blobs :: b.partNumber == 1
  {
    hide IsMetadata, Size, Bytes;
    NoBytes();
    first := Part([], 0);
    for i := 0 to |metadata|
      invariant |first.blobs| == i && Streams(first.blobs) == metadata[..i]
      invariant first.dataSize == Bytes(metadata[..i])
      invariant forall b | b in first.blobs :: b.partNumber == 1
    {
      BytesAppend(metadata[..i], metadata[i]);
      assert metadata[..i + 1] == metadata[..i] + [metadata[i]];
      first := Add(first, metadata[i], 1);
    }
    assert metadata[..|metadata|] == metadata;
  }

  /** Every metadata blob goes to part 1; the other blobs follow in order. */
  method AssignBlobsToParts(blobs: seq<Stream>, maxPartSize: int) returns (parts: seq<Part>)
    ensures Assigned(blobs, parts, maxPartSize)
  {
    hide IsMetadata, Size, Bytes, Metadata, Regular, Packed, Flatten;
    var metadata, regular := Separate(blobs);
    PassesPartition(blobs);
    var first := FirstPart(metadata);
    parts := [first];
    FirstPartPacked(first, metadata, maxPartSize);
    for i := 0 to |regular|
      invariant Packed(parts, maxPartSize, |metadata|)
      invariant Flatten(parts) == metadata + regular[..i]
    {
      PackedSome(parts, maxPartSize, |metadata|);
      var s, n := regular[i], |parts| - 1;
      assert metadata + regular[..i] + [s] == metadata + regular[..i + 1];
      if parts[n].dataSize + Size(s.res) > maxPartSize && |parts[n].blobs| > |metadata| {
        NewPartKeepsPacked(parts, s, maxPartSize, |metadata|);
        parts := parts + [Add(Part([], 0), s, n + 2)];
      } else {
        AddKeepsPacked(parts, s, maxPartSize, |metadata|);
        parts := parts[n := Add(parts[n], s, n + 1)];
      }
    }
    assert regular[..|regular|] == regular;
  }

  /** What an assignment is, at each part. Every blob is in one part and has its number, and
      metadata leads part 1. A part takes its first metadata-and-one blobs as they come and
      another only within the limit; the next part is opened for a blob that would have
      exceeded it. */
  lemma AssignedMeans(blobs: seq<Stream>, parts: seq<Part>, max: int, k: nat)
    requires Assigned(blobs, parts, max) && k < |parts|
    ensures multiset(Flatten(parts)) == multiset(blobs) && Flatten(parts) == Metadata(blobs) + Regular(blobs)
    ensures forall i | 0 <= i < |parts[k].blobs| ::
      var b := parts[k].blobs[i];
      b.partNumber == k + 1 && (IsMetadata(b.stream.res) <==> k == 0 && i < |Metadata(blobs)|)
    ensures forall i | |Metadata(blobs)| + 1 < i <= |parts[k].blobs| :: Bytes(Streams(parts[k].blobs)[..i]) <= max
    ensures k + 1 < |parts| ==>
      && |Metadata(blobs)| < |parts[k].blobs| && parts[k + 1].blobs != []
      && Bytes(Streams(parts[k].blobs)) + Size(parts[k + 1].blobs[0].stream.res) > max
  {
    hide IsMetadata, Size, Bytes, Metadata, Regular, Flatten;
    PassesPartition(blobs);
    assert PartOk(parts[k], k, max, |Metadata(blobs)|);
    if k + 1 < |parts| {
      assert Seam(parts[k], parts[k + 1], max, |Metadata(blobs)|);
    }
  }

  lemma PackedSome(parts: seq<Part>, max: int, meta: nat)
    requires Packed(parts, max, meta)
    ensures parts != []
  {
  }

  lemma FirstPartPacked(first: Part, metadata: seq<Stream>, max: int)
    requires Streams(first.blobs) == metadata && first.dataSize == Bytes(metadata)
    requires forall b | b in first.blobs :: b.partNumber == 1
    requires forall s | s in metadata :: IsMetadata(s.res)
    ensures Packed([first], max, |metadata|) && Flatten([first]) == metadata + []
  {
    hide IsMetadata, Bytes, Size, Seam;
    forall i | 0 <= i < |first.blobs|
      ensures IsMetadata(first.blobs[i].stream.res)
    {
      assert Streams(first.blobs)[i] in metadata;
    }
    assert [first][..0] == [];
  }

  // ---- how full the parts are

  /** No blob is larger than largest. */
  predicate AtMost(ss: seq<Stream>, largest: nat) {
    forall s | s in ss :: Size(s.res) <= largest
  }

  lemma {:induction false} BytesAtMost(ss: seq<Stream>, largest: nat)
    requires AtMost(ss, largest)
    ensures Bytes(ss) <= |ss| * largest
  {
    hide Size;
    if ss != [] {
      var rest := ss[..|ss| - 1];
      assert forall s | s in rest :: s in ss;
      BytesAtMost(rest, largest);
      assert |ss| * largest == |rest| * largest + largest;
    }
  }

  lemma OverfullIsShort(p: Part, k: nat, max: int, meta: nat)
    requires PartOk(p, k, max, meta)
    ensures p.dataSize > max ==> |p.blobs| <= meta + 1
  {
    hide Bytes, IsMetadata;
    if |p.blobs| > meta + 1 {
      assert Bytes(Streams(p.blobs)[..|p.blobs|]) <= max;
      assert Streams(p.blobs)[..|p.blobs|] == Streams(p.blobs);
    }
  }

  /** A part is larger than the limit only if it holds at most one blob more than there
      are metadata blobs; so its size is bounded by the limit or by that many blobs. */
  lemma PartSizeBound(parts: seq<Part>, max: int, meta: nat, k: nat, largest: nat)
    requires Packed(parts, max, meta) && k < |parts|
    requires AtMost(Streams(parts[k].blobs), largest)
    ensures parts[k].dataSize > max ==> |parts[k].blobs| <= meta + 1
    ensures parts[k].dataSize <= max || parts[k].dataSize <= (meta + 1) * largest
  {
    hide Size, Seam, IsMetadata;
    assert PartOk(parts[k], k, max, meta);
    BytesAtMost(Streams(parts[k].blobs), largest);
    OverfullIsShort(parts[k], k, max, meta);
    if parts[k].dataSize > max {
      ProductGrows(largest, |parts[k].blobs|, meta + 1);
    }
  }

  predicate WithinLimit(parts: seq<Part>, max: int) {
    forall p | p in parts :: p.dataSize <= max
  }

  function Sized(n: nat, metadata: bool): (s: Stream)
    requires n < TWO_56
    ensures Size(s.res) == n && (IsMetadata(s.res) <==> metadata)
  {
    Stream(Resource((if metadata then META_BIT * TWO_56 else 0) + n, 0, n), 1, 1, 0)
  }

  /** As much as part 1 takes whatever the limit: every metadata blob and one more, all of
      the largest size. */
  function Heaviest(meta: nat, largest: nat): (ss: seq<Stream>)
    requires largest < TWO_56
    ensures |ss| == meta + 1
  {
    seq(meta, _ => Sized(largest, true)) + [Sized(largest, false)]
  }

  lemma {:induction false} BytesOfEqual(ss: seq<Stream>, n: nat)
    requires forall s | s in ss :: Size(s.res) == n
    ensures Bytes(ss) == |ss| * n
  {
    hide Size;
    if ss != [] {
      BytesOfEqual(ss[..|ss| - 1], n);
      assert |ss| * n == (|ss| - 1) * n + n;
    }
  }

  lemma {:induction false} OnlyMetadata(ss: seq<Stream>)
    requires forall s | s in ss :: IsMetadata(s.res)
    ensures Metadata(ss) == ss && Regular(ss) == []
  {
    hide IsMetadata;
    if ss != [] {
      OnlyMetadata(ss[..|ss| - 1]);
    }
  }

  lemma HeaviestPasses(meta: nat, largest: nat)
    requires largest < TWO_56
    ensures var ss := Heaviest(meta, largest);
            && Metadata(ss) == ss[..meta] && Regular(ss) == ss[meta..] && Bytes(ss) == (meta + 1) * largest
  {
    hide Size, IsMetadata, Bytes;
    var ss := Heaviest(meta, largest);
    assert ss[..meta] == seq(meta, _ => Sized(largest, true));
    OnlyMetadata(ss[..meta]);
    BytesOfEqual(ss, largest);
    assert Regular(ss) == [] + [ss[meta]];
    assert Metadata(ss) == ss[..meta] + [];
  }

  /** These blobs are always assigned to one part. */
  lemma HeaviestStaysTogether(parts: seq<Part>, max: int, meta: nat, largest: nat)
    requires largest < TWO_56 && Assigned(Heaviest(meta, largest), parts, max)
    ensures |parts| == 1 && parts[0].dataSize == (meta + 1) * largest
  {
    hide Size, IsMetadata, Bytes, Flatten, Heaviest, Metadata, Regular;
    var ss := Heaviest(meta, largest);
    HeaviestPasses(meta, largest);
    assert ss[..meta] + ss[meta..] == ss;
    FlattenFirst(parts);
    if |parts| > 1 {
      FlattenCounts(parts, 2);
    }
    assert PartOk(parts[0], 0, max, meta);
  }

  lemma HeaviestTogether(max: int, meta: nat, largest: nat) returns (parts: seq<Part>)
    requires largest < TWO_56
    ensures Assigned(Heaviest(meta, largest), parts, max)
  {
    hide Size, Bytes, Metadata, Regular, Flatten;
    var ss := Heaviest(meta, largest);
    HeaviestPasses(meta, largest);
    var p := Part(seq(meta + 1, i requires 0 <= i <= meta => Blob(ss[i], 1)), Bytes(ss));
    assert Streams(p.blobs) == ss;
    parts := [p];
    FlattenFirst(parts);
    assert parts[..1] == parts && ss[..meta] + ss[meta..] == ss;
    assert PartOk(p, 0, max, meta);
  }

  /** The limit holds for every assignment of blobs up to a size, with a given number of
      metadata blobs, if and only if that many and one more fit it together. */
  lemma LimitHoldsIff(max: int, meta: nat, largest: nat)
    requires largest < TWO_56
    ensures (forall blobs: seq<Stream>, parts: seq<Part> |
              |Metadata(blobs)| == meta && AtMost(blobs, largest) && Assigned(blobs, parts, max) ::
              WithinLimit(parts, max)) <==>
            (meta + 1) * largest <= max
  {
    hide Size, IsMetadata, Bytes, Flatten, Metadata, Regular, Packed;
    if (meta + 1) * largest <= max {
      forall blobs: seq<Stream>, parts: seq<Part> |
        |Metadata(blobs)| == meta && AtMost(blobs, largest) && Assigned(blobs, parts, max)
        ensures WithinLimit(parts, max)
      {
        forall k: nat | k < |parts|
          ensures parts[k].dataSize <= max
        {
          PartBlobs(blobs, parts, max, k);
          PartSizeBound(parts, max, meta, k, largest);
        }
      }
    } else {
      var parts := HeaviestTogether(max, meta, largest);
      HeaviestPasses(meta, largest);
      HeaviestStaysTogether(parts, max, meta, largest);
      assert parts[0] in parts;
      assert AtMost(Heaviest(meta, largest), largest);
      assert |Metadata(Heaviest(meta, largest))| == meta;
    }
  }

  /** What a part holds was among the blobs. */
  lemma PartBlobs(blobs: seq<Stream>, parts: seq<Part>, max: int, k: nat)
    requires Assigned(blobs, parts, max) && k < |parts|
    ensures forall s | s in Streams(parts[k].blobs) :: s in blobs
  {
    hide Size, IsMetadata, Bytes, Packed, Metadata, Regular;
    PassesPartition(blobs);
    var all := Metadata(blobs) + Regular(blobs);
    FlattenCounts(parts, k + 1);
    assert parts[..k + 1][..k] == parts[..k];
    forall s | s in Streams(parts[k].blobs)
      ensures s in blobs
    {
      assert s in Flatten(parts[..k + 1]);
      assert s in all;
      assert s in multiset(all);
      assert s in multiset(blobs);
    }
  }

  lemma {:induction false} FlattenCounts(parts: seq<Part>, n: nat)
    requires n <= |parts|
    ensures |Flatten(parts[..n])| <= |Flatten(parts)| && Flatten(parts[..n]) <= Flatten(parts)
    decreases |parts|
  {
    if n == |parts| {
      assert parts[..n] == parts;
    } else {
      FlattenCounts(parts[..|parts| - 1], n);
      assert parts[..|parts| - 1][..n] == parts[..n];
    }
  }

  lemma FlattenFirst(parts: seq<Part>)
    ensures |parts| >= 1 ==> Flatten(parts[..1]) == Streams(parts[0].blobs)
    ensures |parts| >= 2 ==> Flatten(parts[..2]) == Streams(parts[0].blobs) + Streams(parts[1].blobs)
    ensures |parts| >= 3 ==> |Flatten(parts[..3])| == |parts[0].blobs| + |parts[1].blobs| + |parts[2].blobs|
    ensures parts[..|parts|] == parts
  {
    if |parts| >= 1 {
      assert parts[..1][..0] == [] && Flatten([]) == [];
      assert Flatten(parts[..1]) == [] + Streams(parts[0].blobs);
    }
    if |parts| >= 2 {
      assert parts[..2][..1] == parts[..1];
    }
    if |parts| >= 3 {
      assert parts[..3][..2] == parts[..2];
    }
  }

  lemma FirstThree(b: seq<Stream>, m: Stream, s: Stream)
    requires b <= [m, s, s, s] && |b| >= 3
    ensures Bytes(b[..3]) == Bytes([m, s, s])
  {
    assert b[..3] == [m, s, s];
  }

  lemma ThreeBytes(m: Stream, s: Stream)
    ensures Bytes([m, s, s]) == Size(m.res) + 2 * Size(s.res)
    ensures Bytes([s, s]) == 2 * Size(s.res)
  {
    hide Size, Bytes;
    NoBytes();
    BytesAppend([], m);
    BytesAppend([], s);
    assert [] + [m] == [m] && [] + [s] == [s];
    BytesAppend([m], s);
    BytesAppend([s], s);
    assert [m] + [s] == [m, s] && [s] + [s] == [s, s];
    BytesAppend([m, s], s);
    assert [m, s] + [s] == [m, s, s];
  }

  /** The limit alone is no bound: the test for an empty part compares with the number of
      metadata blobs on every part, so with one of those and three blobs of the limit's
      size the second part is packed to twice the limit. */
  lemma {:induction false} SecondPartOverflows(parts: seq<Part>, max: nat, m: Stream, s: Stream)
    requires Packed(parts, max, 1) && Flatten(parts) == [m, s, s, s]
    requires max > 0 && Size(s.res) == max
    ensures |parts| == 2 && parts[1].dataSize == 2 * max
  {
    hide Size, IsMetadata, Flatten, Bytes;
    FlattenFirst(parts);
    FlattenCounts(parts, 1);
    ThreeBytes(m, s);
    var b := Streams(parts[0].blobs);
    assert PartOk(parts[0], 0, max, 1);
    assert |b| <= 2 by {
      if |b| >= 3 {
        FirstThree(b, m, s);
      }
    }
    assert |parts| > 1;
    assert Seam(parts[0], parts[0 + 1], max, 1);
    FlattenCounts(parts, 2);
    assert PartOk(parts[1], 1, max, 1);
    if |parts| > 2 {
      ThirdPart(parts, max);
    }
    var all := [m, s, s, s];
    assert |b| == 2 && all == b + Streams(parts[1].blobs);
    assert Streams(parts[1].blobs) == all[2..];
    assert all[2..] == [s, s];
  }

  lemma {:induction false} ThirdPart(parts: seq<Part>, max: nat)
    requires Packed(parts, max, 1) && |parts| > 2
    ensures |Flatten(parts)| >= 5
  {
    hide Size, IsMetadata, Bytes, Flatten;
    FlattenFirst(parts);
    FlattenCounts(parts, 3);
    assert Seam(parts[0], parts[0 + 1], max, 1);
    assert Seam(parts[1], parts[1 + 1], max, 1);
    assert PartOk(parts[2], 2, max, 1);
  }

  function SumOfSizes(parts: seq<Part>): nat {
    if parts == [] then 0 else SumOfSizes(parts[..|parts| - 1]) + parts[|parts| - 1].dataSize
  }

  lemma {:induction false} BytesSplit(a: seq<Stream>, b: seq<Stream>)
    ensures Bytes(a + b) == Bytes(a) + Bytes(b)
  {
    if b == [] {
      assert a + b == a;
    } else {
      var rest := b[..|b| - 1];
      assert (a + b)[..|a + b| - 1] == a + rest;
      BytesSplit(a, rest);
    }
  }

  /** The parts hold together exactly what was there. */
  lemma {:induction false} SizesAddUp(parts: seq<Part>)
    requires forall p | p in parts :: p.dataSize == Bytes(Streams(p.blobs))
    ensures SumOfSizes(parts) == Bytes(Flatten(parts))
  {
    if parts != [] {
      var rest := parts[..|parts| - 1];
      SizesAddUp(rest);
      BytesSplit(Flatten(rest), Streams(parts[|parts| - 1].blobs));
    }
  }

  lemma FirstBlobFits(p: Part)
    requires p.blobs != [] && p.dataSize == Bytes(Streams(p.blobs))
    ensures Size(p.blobs[0].stream.res) <= p.dataSize
  {
    hide Size;
    var ss := Streams(p.blobs);
    assert ss == [ss[0]] + ss[1..];
    BytesSplit([ss[0]], ss[1..]);
    assert [ss[0]] == [] + [ss[0]];
    BytesAppend([], ss[0]);
  }

  /** Twice the data up to part n, less the first and the last part once, exceeds the
      limit for each seam. */
  lemma {:induction false} SeamsAddUp(parts: seq<Part>, max: int, meta: nat, n: nat)
    requires Packed(parts, max, meta) && 2 <= n <= |parts|
    ensures (n - 1) * max < 2 * SumOfSizes(parts[..n]) - parts[n - 1].dataSize
  {
    hide Size, Bytes, IsMetadata;
    assert parts[..n][..n - 1] == parts[..n - 1];
    assert PartOk(parts[n - 1], n - 1, max, meta);
    assert Seam(parts[n - 2], parts[n - 2 + 1], max, meta);
    FirstBlobFits(parts[n - 1]);
    if n == 2 {
      assert parts[..1][..0] == [];
      assert SumOfSizes(parts[..1]) == SumOfSizes([]) + parts[0].dataSize;
    } else {
      SeamsAddUp(parts, max, meta, n - 1);
      assert (n - 1) * max == (n - 2) * max + max;
    }
  }

  /** The greedy packing is never worse than twice the number of full parts. */
  lemma FewParts(parts: seq<Part>, max: int, meta: nat)
    requires Packed(parts, max, meta) && |parts| > 1
    ensures (|parts| - 1) * max < 2 * Bytes(Flatten(parts))
  {
    hide Size, Bytes, IsMetadata;
    SeamsAddUp(parts, max, meta, |parts|);
    assert parts[..|parts|] == parts;
    forall p | p in parts
      ensures p.dataSize == Bytes(Streams(p.blobs))
    {
      var k :| 0 <= k < |parts| && parts[k] == p;
      assert PartOk(parts[k], k, max, meta);
    }
    SizesAddUp(parts);
  }
}
