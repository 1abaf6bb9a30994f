/** Streaming an image onto a raw disk (internal/helper/ops.go:274-329,
    internal/helper/disk_windows.go:312-376). */
module RawDisk {
  import opened Arith
  import opened Outside
  import opened SectorIO

  const RAW_BUFFER := 4194304

  /** What OpenRaw takes for a sector size: a power of two up to 4096. */
  predicate SectorSizeOk(sector: nat) {
    sector in {1, 2, 4, 8, 16, 32, 64, 128, 256, 512, 1024, 2048, 4096}
  }

  lemma BufferIsWhole(sector: nat)
    requires SectorSizeOk(sector)
    ensures Whole(RAW_BUFFER, sector)
  {
  }

  /** The disk behind a handle: sequential writes of whole sectors that stay on it. */
  class Handle {
    const sector: nat
    const size: nat
    const world: World
    var written: seq<Byte>

    constructor (s: nat, n: nat, w: World)
      ensures sector == s && size == n && written == [] && world == w
    {
      sector, size, written, world := s, n, [], w;
    }

    /** The device's count decides; anything short of all the bytes is an error. */
    method WriteFile(b: seq<Byte>) returns (done: int, failed: bool)
      requires Whole(|b|, sector) && |written| + |b| <= size
      modifies this, world
      ensures !failed && done == |b| ==> written == old(written) + b
      ensures world.Faults() == old(world.Faults()) + if !failed && done == |b| then 0 else 1
    {
      failed := world.Fails();
      done := |b|;
      if !failed {
        var less := world.Fails();
        if less {
          done := *;
          if done == |b| {
            done := -1;
          }
        }
      }
      written := written + b;
    }
  }

  lemma WholeZero(sector: int)
    requires sector > 0
    ensures Whole(0, sector)
  {
  }

  class RawDisk {
    const h: Handle
    const sector: nat
    const buf: array<Byte>
    var fill: nat

    constructor (handle: Handle, bufferSize: nat)
      requires handle.sector > 0 && Whole(bufferSize, handle.sector) && bufferSize > 0
      requires Whole(handle.size, handle.sector) && handle.written == []
      ensures h == handle && fresh(buf) && Valid() && Accepted() == [] && buf.Length == bufferSize
    {
      h, sector, fill := handle, handle.sector, 0;
      buf := new Byte[bufferSize](_ => 0);
    }

    ghost predicate Valid()
      reads this, h
    {
      Bounded() && fill < buf.Length
    }

    ghost predicate Bounded()
      reads this, h
    {
      && h.sector == sector && Whole(buf.Length, sector) && Whole(h.size, sector)
      && Whole(|h.written|, sector)
      && fill <= buf.Length && buf.Length > 0
      && |h.written| + fill <= h.size
    }

    /** Everything Write has taken so far. */
    ghost function Accepted(): seq<Byte>
      requires fill <= buf.Length
      reads this, h, buf
    {
      h.written + buf[..fill]
    }

    /** How many zeros it takes to fill the last sector. */
    function Padding(n: nat): (pad: nat)
      requires sector > 0
      ensures pad < sector && Whole(n + pad, sector)
      ensures Whole(n, sector) ==> pad == 0
    {
      RoundUpIs(n, sector);
      RoundUp(n, sector) - n
    }

    lemma SectorNotZero()
      requires Bounded()
      ensures sector > 0
    {
    }

    /** The buffered bytes reach the disk, padded with zeros to a whole sector. */
    method Flush() returns (ok: bool)
      requires Bounded() && sector > 0
      modifies `fill, h, h.world, buf
      ensures h.world.Faults() == old(h.world.Faults()) + if ok then 0 else 1
      ensures fill == 0
      ensures ok ==> Valid()
      ensures ok ==> h.written == old(Accepted()) + Zeros(Padding(old(fill)))
    {
      hide Whole, Zeros;
      if fill == 0 {
        NothingToPad();
        ok := true;
        return;
      }
      ghost var start, pad, was := buf[..fill], Padding(fill), fill;
      FlushFits(fill, |h.written|);
      Pad();
      Regroup(h.written, start, Zeros(pad));
      SumOfWholes(|h.written|, fill);
      var done, failed := h.WriteFile(buf[..fill]);
      ok := !failed && done == fill;
      fill := 0;
    }

    lemma NothingToPad()
      requires sector > 0 && fill == 0
      ensures h.written == Accepted() + Zeros(Padding(0))
    {
      WholeZero(sector);
      assert Zeros(0) == [];
    }

    method Pad()
      requires sector > 0 && fill + Padding(fill) <= buf.Length
      modifies buf, `fill
      ensures fill == old(fill) + Padding(old(fill))
      ensures buf[..fill] == old(buf[..fill]) + Zeros(Padding(old(fill)))
    {
      var rem := fill % sector;
      if rem != 0 {
        var to := fill + sector - rem;
        Clear(fill, to);
        fill := to;
      }
    }

    method Clear(from: nat, to: nat)
      requires from <= to <= buf.Length
      modifies buf
      ensures forall i | 0 <= i < buf.Length :: buf[i] == if from <= i < to then 0 else old(buf[i])
    {
      for j := from to to
        invariant forall i | 0 <= i < buf.Length :: buf[i] == if from <= i < j then 0 else old(buf[i])
      {
        buf[j] := 0;
      }
    }

    /** Rounding up leaves neither the buffer nor the disk. */
    lemma FlushFits(n: nat, before: nat)
      requires sector > 0 && Whole(buf.Length, sector) && Whole(h.size, sector) && Whole(before, sector)
      requires n <= buf.Length && before + n <= h.size
      ensures n + Padding(n) <= buf.Length && before + n + Padding(n) <= h.size
    {
      RoundUpBelow(n, buf.Length, sector);
      DifferenceOfMultiples(h.size, before, sector);
      RoundUpBelow(n, h.size - before, sector);
    }

    lemma SumOfWholes(a: nat, b: nat)
      requires Whole(a, sector) && Whole(b, sector)
      ensures Whole(a + b, sector)
    {
      var minus: int := 0 - b as int;
      WholeZero(sector);
      DifferenceOfMultiples(0, b, sector);
      DifferenceOfMultiples(a, minus, sector);
    }

    /** On success all of p has been taken; nothing is padded before the end. */
    method Write(p: seq<Byte>) returns (n: nat, ok: bool)
      requires Valid() && |Accepted()| + |p| <= h.size
      modifies this, h, h.world, buf
      ensures Unless(ok, old(h.world.Faults()), h.world.Faults())
      ensures n <= |p|
      ensures ok ==> Valid() && n == |p| && Accepted() == old(Accepted()) + p
    {
      hide Whole, Padding, Zeros;
      n, ok := 0, true;
      assert p[..0] == [] && Accepted() + [] == Accepted();
      while n < |p|
        invariant n <= |p| && ok && Valid() && h.world.Faults() == old(h.world.Faults())
        invariant Accepted() == old(Accepted()) + p[..n]
      {
        var c := if |p| - n < buf.Length - fill then |p| - n else buf.Length - fill;
        Copy(p, n, c);
        Regroup(old(Accepted()), p[..n], p[n..n + c]);
        assert p[..n + c] == p[..n] + p[n..n + c];
        if fill == buf.Length {
          ok := FlushFull();
          if !ok {
            return;
          }
        }
        n := n + c;
      }
      assert p[..|p|] == p;
    }

    /** A full buffer is whole sectors already. */
    method FlushFull() returns (ok: bool)
      requires Bounded() && fill == buf.Length
      modifies `fill, h, h.world, buf
      ensures Unless(ok, old(h.world.Faults()), h.world.Faults())
      ensures ok ==> Valid() && Accepted() == old(Accepted())
    {
      SectorNotZero();
      ghost var accepted := Accepted();
      ok := Flush();
      assert accepted + Zeros(0) == accepted;
      assert h.written + buf[..0] == h.written;
    }

    method Copy(p: seq<Byte>, n: nat, c: nat)
      requires Bounded() && n + c <= |p| && fill + c <= buf.Length && |h.written| + fill + c <= h.size
      modifies buf, `fill
      ensures Bounded() && fill == old(fill) + c
      ensures Accepted() == old(Accepted()) + p[n..n + c]
    {
      hide Whole;
      for j := 0 to c
        invariant fill == old(fill) && buf[..fill + j] == old(buf[..fill]) + p[n..n + j]
      {
        buf[fill + j] := p[n + j];
        assert buf[..fill + j + 1] == buf[..fill + j] + [p[n + j]];
        assert p[n..n + j + 1] == p[n..n + j] + [p[n + j]];
      }
      Regroup(h.written, old(buf[..fill]), p[n..n + c]);
      fill := fill + c;
    }

    /** What is left in the buffer is written, padded to a whole sector. */
    method Sync() returns (ok: bool)
      requires Valid()
      modifies this, h, h.world, buf
      ensures Unless(ok, old(h.world.Faults()), h.world.Faults())
      ensures ok ==> Valid() && fill == 0 && Whole(|h.written|, sector)
      ensures ok ==> exists pad: nat :: pad < sector && h.written == old(Accepted()) + Zeros(pad)
    {
      SectorNotZero();
      ghost var pad := Padding(fill);
      ok := Flush();
      if ok {
        assert pad < sector && h.written == old(Accepted()) + Zeros(pad);
        var fails := h.world.Fails();
        ok := !fails;
      }
    }
  }

  datatype StreamEnd =
    | Complete
    | Cancelled(written: nat)
    | WriteFailed(written: nat)
    | ReadFailed(written: nat)
    | SizeMismatch(written: nat)

  /** The image, as the helper sees it: it may be shorter than it was when it was
      checked, and a read may fail. */
  class Image {
    const content: seq<Byte>
    const world: World
    var pos: nat

    constructor (c: seq<Byte>, w: World)
      ensures content == c && pos == 0 && world == w
    {
      content, pos, world := c, 0, w;
    }

    /** io.ReadFull: n bytes, or as many as there are with an error. */
    method ReadFull(n: nat) returns (data: seq<Byte>, short: bool, broken: bool)
      requires pos <= |content|
      modifies `pos, world
      ensures world.Faults() == old(world.Faults()) + if broken then 1 else 0
      ensures pos == old(pos) + |data| <= |content| && data == content[old(pos)..pos] && |data| <= n
      ensures !broken ==> (short <==> |data| < n)
      ensures !broken && !short ==> |data| == n
      ensures short && !broken ==> pos == |content|
    {
      broken := world.Fails();
      var got: int := *;
      var there := if |content| - pos < n then |content| - pos else n;
      var take := if broken && 0 <= got < there then got else there;
      data := content[pos..pos + take];
      pos := pos + take;
      short := take < n;
    }
  }

  /** At each chunk boundary the disk has accepted exactly the first bytes of the image,
      and written plus remaining is the size. */
  method Stream(src: Image, dst: RawDisk, size: nat, bufferSize: nat) returns (end: StreamEnd)
    requires src.pos == 0 && bufferSize > 0
    requires dst.Valid() && dst.Accepted() == [] && size <= dst.h.size && src.world == dst.h.world
    modifies src, dst, dst.h, dst.h.world, dst.buf
    ensures Unless(end.Complete? || end.SizeMismatch?, old(src.world.Faults()), src.world.Faults())
    ensures end.Complete? ==> dst.Valid() && size <= |src.content| && dst.Accepted() == src.content[..size]
    ensures end.SizeMismatch? ==>
      end.written == |src.content| < size && dst.Valid() && dst.Accepted() == src.content
    ensures end.Cancelled? || end.ReadFailed? ==>
      end.written <= |src.content| && dst.Valid() && dst.Accepted() == src.content[..end.written]
  {
    var written, remaining := 0, size;
    while remaining > 0
      invariant src.world.Faults() == old(src.world.Faults())
      invariant 0 <= remaining && written + remaining == size && written == src.pos <= |src.content|
      invariant dst.Valid() && dst.Accepted() == src.content[..written]
    {
      var cancelled := src.world.Fails();
      if cancelled {
        return Cancelled(written);
      }
      var n := if bufferSize > remaining then remaining else bufferSize;
      var data, short, broken := src.ReadFull(n);
      if data != [] {
        assert src.content[..written] + data == src.content[..written + |data|];
        var wn, ok := dst.Write(data);
        written := written + wn;
        remaining := remaining - wn;
        if !ok {
          return WriteFailed(written);
        }
      }
      if broken {
        return ReadFailed(written);
      }
      if short {
        assert src.content[..|src.content|] == src.content;
        return SizeMismatch(written);
      }
    }
    end := Complete;
  }

  /** A write that succeeds has put the image, and zeros for less than a sector, at the
      start of the disk and nothing else. */
  method WriteAll(src: Image, h: Handle, size: nat, bufferSize: nat) returns (ok: bool)
    requires src.pos == 0 && bufferSize > 0 && size <= h.size
    requires SectorSizeOk(h.sector) && h.written == [] && Whole(h.size, h.sector)
    requires src.world == h.world
    modifies src, h, h.world
    ensures ok ==> h.world.Faults() == old(h.world.Faults())
    ensures !ok && size <= |src.content| ==> h.world.FaultSince(old(h.world.asked))
    ensures ok ==> size <= |src.content| && Whole(|h.written|, h.sector)
    ensures ok ==> exists pad: nat :: pad < h.sector && h.written == src.content[..size] + Zeros(pad)
  {
    BufferIsWhole(h.sector);
    hide SectorSizeOk;
    var disk := new RawDisk(h, RAW_BUFFER);
    var end := Stream(src, disk, size, bufferSize);
    h.world.Blame(old(h.world.asked));
    if !end.Complete? {
      return false;
    }
    ok := disk.Sync();
    h.world.Blame(old(h.world.asked));
  }
}
