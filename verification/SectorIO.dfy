/** Byte-addressed access to a disk that only takes whole sectors
    (internal/fatfmt/fatfmt.go:66-77, 165-286). */
module SectorIO {
  import opened Arith
  import opened Outside

  const WIPE_SIZE := 1048576
  const TWO_62: int := 0x4000_0000_0000_0000

  /** c with b in place of what is at offset. */
  function Overwrite(c: seq<Byte>, offset: nat, b: seq<Byte>): (d: seq<Byte>)
    requires offset + |b| <= |c|
    ensures |d| == |c|
    ensures forall i | 0 <= i < |c| :: d[i] == if offset <= i < offset + |b| then b[i - offset] else c[i]
  {
    c[..offset] + b + c[offset + |b|..]
  }

  function Zeros(n: nat): (z: seq<Byte>)
    ensures |z| == n && forall i | 0 <= i < n :: z[i] == 0
  {
    seq(n, _ => 0)
  }

  /** A whole number of sectors. */
  predicate Whole(v: int, sector: int) {
    sector > 0 && v % sector == 0
  }

  function RoundDown(v: int, sector: int): int
    requires sector > 0
  {
    v - v % sector
  }

  /** Go's remainder takes the sign of the dividend. */
  function Remainder(v: int, sector: int): int
    requires sector > 0
  {
    if v >= 0 then v % sector else -((-v) % sector)
  }

  function RoundUp(v: int, sector: int): int
    requires sector > 0
  {
    if Remainder(v, sector) == 0 then v else v + sector - Remainder(v, sector)
  }

  lemma RoundDownIs(v: int, sector: int)
    requires sector > 0
    ensures RoundDown(v, sector) % sector == 0 && RoundDown(v, sector) <= v < RoundDown(v, sector) + sector
  {
    assert RoundDown(v, sector) == sector * (v / sector);
    MultipleOf(sector, v / sector);
  }

  lemma MultipleOf(sector: nat, k: int)
    requires sector > 0
    ensures (sector * k) % sector == 0
  {
    var q := sector * k / sector;
    assert q * sector + (sector * k) % sector == k * sector + 0;
    UniqueRemainder(q, (sector * k) % sector, k, 0, sector);
  }

  lemma RoundUpIs(v: nat, sector: int)
    requires sector > 0
    ensures RoundUp(v, sector) % sector == 0 && v <= RoundUp(v, sector) < v + sector
  {
    if v % sector == 0 {
    } else {
      assert RoundUp(v, sector) == sector * (v / sector + 1);
      MultipleOf(sector, v / sector + 1);
    }
  }

  /** Rounding stays below a whole number of sectors. */
  lemma RoundUpBelow(v: nat, limit: int, sector: int)
    requires sector > 0 && v <= limit && limit % sector == 0
    ensures RoundUp(v, sector) <= limit
  {
    RoundUpIs(v, sector);
    if RoundUp(v, sector) > limit {
      assert limit == sector * (limit / sector);
      assert RoundUp(v, sector) == sector * (RoundUp(v, sector) / sector);
      StrictMultiples(sector, limit / sector, RoundUp(v, sector) / sector);
    }
  }

  lemma StrictMultiples(sector: nat, a: int, b: int)
    requires sector > 0 && sector * a < sector * b
    ensures sector * a + sector <= sector * b
  {
    if b <= a {
      ProductGrows(sector, b, a);
    } else {
      MulGrows(b - a, sector);
      assert (b - a) * sector == sector * b - sector * a;
    }
  }

  /** span: the whole sectors around n bytes at off; the sum wraps at 64 bits. */
  function Span(off: int, n: nat, size: nat, sector: int): Option<(int, int)>
    requires sector > 0
  {
    if off < 0 || Wrap64(off + n) > size then None
    else Some((RoundDown(off, sector), RoundUp(Wrap64(off + n), sector)))
  }

  /** As long as the end fits 64 bits, exactly the accesses inside the disk are accepted,
      and what they touch is whole sectors inside it. */
  lemma SpanIsInside(off: int, n: nat, size: nat, sector: int)
    requires sector > 0 && Whole(size, sector) && off + n < TWO_63
    ensures Span(off, n, size, sector).Some? <==> 0 <= off && off + n <= size
    ensures Span(off, n, size, sector).Some? ==>
      var (start, end) := Span(off, n, size, sector).value;
      && 0 <= start <= off && off + n <= end <= size
      && Whole(start, sector) && Whole(end, sector) && Whole(end - start, sector)
  {
    if Span(off, n, size, sector).Some? {
      RoundDownIs(off, sector);
      RoundUpIs(off + n, sector);
      RoundUpBelow(off + n, size, sector);
      DifferenceOfMultiples(RoundUp(off + n, sector), RoundDown(off, sector), sector);
      NotNegative(off, sector);
    }
  }

  /** They are the smallest such sectors. */
  lemma SpanIsTight(off: int, n: nat, size: nat, sector: int)
    requires sector > 0 && size % sector == 0 && off + n < TWO_63 && Span(off, n, size, sector).Some?
    ensures var (start, end) := Span(off, n, size, sector).value;
            && start % sector == 0 && off - sector < start <= off
            && end % sector == 0 && off + n <= end < off + n + sector
  {
    RoundDownIs(off, sector);
    RoundUpIs(off + n, sector);
  }

  lemma NotNegative(v: int, sector: int)
    requires sector > 0 && v >= 0
    ensures RoundDown(v, sector) >= 0
  {
  }

  lemma DifferenceOfMultiples(a: int, b: int, sector: int)
    requires sector > 0 && a % sector == 0 && b % sector == 0
    ensures (a - b) % sector == 0
  {
    assert a == sector * (a / sector) && b == sector * (b / sector);
    MultipleOf(sector, a / sector - b / sector);
    assert a - b == sector * (a / sector - b / sector);
  }

  /** Past 64 bits the check accepts everything: an access is refused exactly when it lies
      outside the disk if and only if its end fits. */
  lemma SpanAcceptsOverflow(off: int, n: nat, size: nat, sector: int)
    requires sector > 0 && Int64(off) && n < TWO_63 && size < TWO_63
    ensures (Span(off, n, size, sector).Some? <==> 0 <= off && off + n <= size) <==> off + n < TWO_63
  {
    if off + n >= TWO_63 {
      assert Wrap64(off + n) == off + n - 2 * TWO_63;
    }
  }

  /** A raw disk. It refuses accesses that are not whole sectors inside it, and remembers
      having been asked for one; any other may fail. A failed write leaves the sectors it
      was for in any state. */
  class Device {
    const sector: nat
    const world: World
    var content: seq<Byte>
    var strayed: bool

    ghost predicate Takes(off: int, n: int)
      reads `content
    {
      InDevice(off, n, |content|, sector)
    }

    constructor (s: nat, c: seq<Byte>, w: World)
      ensures sector == s && content == c && world == w && !strayed
    {
      sector, content, world, strayed := s, c, w, false;
    }

    method ReadAt(off: int, n: int) returns (data: seq<Byte>, ok: bool)
      modifies `strayed, world
      ensures strayed == (old(strayed) || !Takes(off, n))
      ensures ok ==> Takes(off, n) && data == content[off..off + n]
      ensures Takes(off, n) ==> world.Faults() == old(world.Faults()) + if ok then 0 else 1
      ensures !Takes(off, n) ==> world.Faults() == old(world.Faults())
    {
      if !InDevice(off, n, |content|, sector) {
        strayed := true;
        return [], false;
      }
      var fails := world.Fails();
      ok := !fails;
      data := content[off..off + n];
    }

    method WriteAt(b: seq<Byte>, off: int) returns (ok: bool)
      modifies this, world
      ensures strayed == (old(strayed) || !old(Takes(off, |b|)))
      ensures ok ==> old(Takes(off, |b|))
      ensures old(Takes(off, |b|)) ==> world.Faults() == old(world.Faults()) + if ok then 0 else 1
      ensures !old(Takes(off, |b|)) ==> world.Faults() == old(world.Faults()) && content == old(content)
      ensures |content| == |old(content)|
      ensures ok ==> content == Overwrite(old(content), off, b)
      ensures forall i | 0 <= i < |content| && !(off <= i < off + |b|) :: content[i] == old(content)[i]
    {
      if !InDevice(off, |b|, |content|, sector) {
        strayed := true;
        return false;
      }
      var fails := world.Fails();
      ok := !fails;
      var torn: seq<Byte> := *;
      var put := if !ok && |torn| == |b| then torn else b;
      content := Overwrite(content, off, put);
    }
  }

  /** Whole sectors inside a device of a size. */
  predicate InDevice(off: int, n: int, size: nat, sector: nat) {
    0 <= off && 0 <= n && off + n <= size && Whole(off, sector) && Whole(n, sector)
  }

  /** What the device is asked for when the end of an access wraps lies outside it. */
  lemma WrappedIsOutside(off: int, n: nat, size: nat, content: nat, sector: nat)
    requires 0 < sector && 4 * sector <= TWO_62 && content < TWO_63 && n <= TWO_62 && Int64(off)
    requires off >= 0 && off + n >= TWO_63
    ensures Span(off, n, size, sector).Some?
    ensures !InDevice(off, n, content, sector)
    ensures var (start, end) := Span(off, n, size, sector).value;
            !InDevice(start, Wrap64(end - start), content, sector) && Wrap64(end - start) >= n + (off - start)
  {
    hide Whole, RoundUp, RoundDown, Wrap64;
    WrappedEnd(off, n, sector);
  }

  /** The end wraps to a negative one, and the difference to the start wraps back. */
  lemma WrappedEnd(off: int, n: nat, sector: int)
    requires 0 < sector && 4 * sector <= TWO_62 && n <= TWO_62 && Int64(off) && off >= 0 && off + n >= TWO_63
    ensures Wrap64(off + n) == off + n - 2 * TWO_63 < 0
    ensures var start, end := RoundDown(off, sector), RoundUp(Wrap64(off + n), sector);
            Wrap64(end - start) == end - start + 2 * TWO_63 >= n + (off - start) && 0 <= start
            && start + Wrap64(end - start) >= TWO_63
  {
    var w := off + n - 2 * TWO_63;
    OnceWrapped(off + n);
    RoundDownIs(off, sector);
    NotNegative(off, sector);
    RoundUpNegative(w, sector);
    hide RoundUp, RoundDown;
    WrapsBack(RoundUp(w, sector) - RoundDown(off, sector));
  }

  lemma WrapsBack(v: int)
    requires -3 * TWO_63 <= v < -TWO_63
    ensures Wrap64(v) == v + 2 * TWO_63
  {
  }

  lemma RoundUpNegative(v: int, sector: int)
    requires sector > 0 && v < 0
    ensures v <= RoundUp(v, sector) <= v + 2 * sector
  {
  }

  lemma SliceOfSlice<T>(c: seq<T>, start: nat, end: nat, off: nat, n: nat, size: nat)
    requires start <= off && off + n <= end <= size <= |c|
    ensures c[start..end][off - start..off - start + n] == c[..size][off..off + n]
    ensures c[off..off + n] == c[..size][off..off + n]
  {
    var a, b := c[start..end][off - start..off - start + n], c[..size][off..off + n];
    assert |a| == n == |b|;
    forall i | 0 <= i < n
      ensures a[i] == c[off + i] == b[i]
    {
      assert a[i] == c[start..end][off - start + i];
      assert b[i] == c[..size][off + i];
    }
  }

  /** Putting whole sectors back with p among them changes p's bytes only. */
  lemma OverwriteSectors(c: seq<Byte>, start: nat, end: nat, off: nat, p: seq<Byte>)
    requires start <= off && off + |p| <= end <= |c|
    ensures Overwrite(c, start, Overwrite(c[start..end], off - start, p)) == Overwrite(c, off, p)
  {
  }

  lemma OverwriteBelow(c: seq<Byte>, off: nat, p: seq<Byte>, size: nat)
    requires off + |p| <= size <= |c|
    ensures Overwrite(c, off, p)[..size] == Overwrite(c[..size], off, p)
  {
  }

  class Disk {
    const dev: Device
    const sector: nat
    const size: nat

    constructor (d: Device, size: nat)
      requires Whole(size, d.sector) && 4 * d.sector <= TWO_62 && size <= |d.content| < TWO_63
      ensures dev == d && this.size == size && Valid()
    {
      dev, sector, this.size := d, d.sector, size;
    }

    ghost predicate Valid()
      reads dev
    {
      dev.sector == sector && 4 * sector <= TWO_62 && Whole(size, sector) && size <= |dev.content| < TWO_63
    }

    /** The byte store that this disk is. */
    ghost function Contents(): (c: seq<Byte>)
      requires Valid()
      reads dev
      ensures |c| == size
    {
      dev.content[..size]
    }

    /** The end of the access does not fit 64 bits, and passes the range check. */
    predicate Wraps(off: int, n: nat) {
      off >= 0 && off + n >= TWO_63
    }

    /** Only whole sectors inside the device are asked for, unless the end wraps. */
    method ReadAt(off: int, n: nat) returns (data: seq<Byte>, ok: bool)
      requires Valid() && Int64(off) && n <= TWO_62
      modifies dev`strayed, dev.world
      ensures dev.strayed == (old(dev.strayed) || Wraps(off, n))
      ensures ok ==> 0 <= off && off + n <= size && data == Contents()[off..off + n]
      ensures ok ==> dev.world.Faults() == old(dev.world.Faults())
      ensures !ok && 0 <= off && off + n <= size ==> dev.world.Faults() > old(dev.world.Faults())
    {
      SectorNotZero();
      hide Span, Whole, World.Faults, InDevice;
      if Wraps(off, n) {
        WrappedIsOutside(off, n, size, |dev.content|, sector);
      } else {
        Inside(off, n);
      }
      var span := Span(off, n, size, sector);
      if span.None? {
        return [], false;
      }
      var (start, end) := span.value;
      if start == off && end == Wrap64(off + n) {
        data, ok := dev.ReadAt(off, n);
        return;
      }
      var buf;
      buf, ok := dev.ReadAt(start, Wrap64(end - start));
      if !ok {
        return [], false;
      }
      data := buf[off - start..off - start + n];
    }

    /** An access that does not wrap becomes whole sectors around it. */
    lemma Inside(off: int, n: nat)
      requires Valid() && Int64(off) && off + n < TWO_63
      ensures Span(off, n, size, sector).Some? <==> 0 <= off && off + n <= size
      ensures Span(off, n, size, sector).Some? ==>
        var (start, end) := Span(off, n, size, sector).value;
        && 0 <= start <= off && off + n <= end <= size
        && Wrap64(off + n) == off + n && Wrap64(end - start) == end - start
        && InDevice(start, end - start, |dev.content|, sector)
        && (start == off && end == off + n ==> InDevice(off, n, |dev.content|, sector))
        && dev.content[start..end][off - start..off - start + n] == Contents()[off..off + n]
        && dev.content[off..off + n] == Contents()[off..off + n]
    {
      hide Span, Whole;
      SectorNotZero();
      SpanIsInside(off, n, size, sector);
      if Span(off, n, size, sector).Some? {
        var (start, end) := Span(off, n, size, sector).value;
        SliceOfSlice(dev.content, start, end, off, n, size);
      }
    }

    lemma SectorNotZero()
      requires Valid()
      ensures sector > 0
    {
    }

    /** A write changes the bytes it is for and, whatever happens, no byte of another
        sector. */
    method WriteAt(p: seq<Byte>, off: int) returns (ok: bool)
      requires Valid() && Int64(off) && |p| <= TWO_62
      modifies dev, dev.world
      ensures dev.strayed == (old(dev.strayed) || Wraps(off, |p|))
      ensures ok ==> dev.world.Faults() == old(dev.world.Faults())
      ensures !ok && 0 <= off && off + |p| <= size ==> dev.world.Faults() > old(dev.world.Faults())
      ensures Valid() && |dev.content| == |old(dev.content)|
      ensures ok ==> 0 <= off && off + |p| <= size
      ensures ok ==> Contents() == Overwrite(old(Contents()), off, p)
      ensures ok ==> dev.content == Overwrite(old(dev.content), off, p)
      ensures forall i | 0 <= i < |dev.content| && (Wraps(off, |p|) || !Covers(off, |p|, i)) ::
                dev.content[i] == old(dev.content)[i]
    {
      SectorNotZero();
      hide Span, Whole, Overwrite, Covers, World.Faults, InDevice;
      if Wraps(off, |p|) {
        WrappedIsOutside(off, |p|, size, |dev.content|, sector);
      } else {
        InsideWrite(p, off);
      }
      var span := Span(off, |p|, size, sector);
      if span.None? {
        return false;
      }
      var (start, end) := span.value;
      if start == off && end == Wrap64(off + |p|) {
        ok := dev.WriteAt(p, off);
        return;
      }
      ok := RewriteSectors(p, off, start, end);
    }

    /** Reads the sectors around an access, changes p's bytes and writes them back. */
    method RewriteSectors(p: seq<Byte>, off: int, start: int, end: int) returns (ok: bool)
      requires Valid() && Span(off, |p|, size, sector) == Some((start, end)) && Int64(off) && |p| <= TWO_62
      modifies dev, dev.world
      ensures dev.strayed == (old(dev.strayed) || Wraps(off, |p|))
      ensures Wraps(off, |p|) ==> !ok && dev.content == old(dev.content)
      ensures !Wraps(off, |p|) ==> Unless(ok, old(dev.world.Faults()), dev.world.Faults())
      ensures ok ==> 0 <= off && off + |p| <= size && dev.content == Overwrite(old(dev.content), off, p)
      ensures |dev.content| == |old(dev.content)|
      ensures forall i | 0 <= i < |dev.content| && !(start <= i < end) :: dev.content[i] == old(dev.content)[i]
    {
      SectorNotZero();
      hide Span, Whole, Overwrite, Covers, World.Faults, InDevice;
      if Wraps(off, |p|) {
        WrappedIsOutside(off, |p|, size, |dev.content|, sector);
      } else {
        InsideWrite(p, off);
      }
      var buf;
      buf, ok := dev.ReadAt(start, Wrap64(end - start));
      if !ok {
        return;
      }
      ok := dev.WriteAt(Overwrite(buf, off - start, p), start);
    }

    lemma InsideWrite(p: seq<Byte>, off: int)
      requires Valid() && Int64(off) && off + |p| < TWO_63
      ensures Span(off, |p|, size, sector).Some? <==> 0 <= off && off + |p| <= size
      ensures Span(off, |p|, size, sector).Some? ==>
        var (start, end) := Span(off, |p|, size, sector).value;
        && 0 <= start <= off && off + |p| <= end <= size
        && Wrap64(off + |p|) == off + |p| && Wrap64(end - start) == end - start
        && InDevice(start, end - start, |dev.content|, sector)
        && (start == off && end == off + |p| ==> InDevice(off, |p|, |dev.content|, sector))
        && (forall i :: Covers(off, |p|, i) <==> start <= i < end)
        && Overwrite(dev.content, off, p)[..size] == Overwrite(Contents(), off, p)
        && Overwrite(dev.content, start, Overwrite(dev.content[start..end], off - start, p)) ==
           Overwrite(dev.content, off, p)
    {
      hide Span, Whole, Overwrite, Covers;
      SectorNotZero();
      Inside(off, |p|);
      if Span(off, |p|, size, sector).Some? {
        var (start, end) := Span(off, |p|, size, sector).value;
        CoversSpan(off, |p|, start, end);
        OverwriteBelow(dev.content, off, p, size);
        OverwriteSectors(dev.content, start, end, off, p);
      }
    }

    /** Byte i is in a sector that the access touches, inside the disk. */
    ghost predicate Covers(off: int, n: nat, i: int)
      requires sector > 0
    {
      i < size && RoundDown(off, sector) <= i < RoundUp(off + n, sector)
    }

    /** It does so only if its sector holds some byte of the access. */
    lemma CoversOnly(off: int, n: nat, i: int)
      requires sector > 0 && 0 <= off && n > 0 && Covers(off, n, i)
      ensures off / sector <= i / sector <= (off + n - 1) / sector
    {
      RoundDownIs(off, sector);
      RoundUpIs(off + n, sector);
      SameSectors(off, i, sector);
      if i > off + n - 1 {
        var k := RoundUp(off + n, sector) / sector;
        assert RoundUp(off + n, sector) == sector * k;
        BelowMultiple(i, sector, k);
        AboveMultiple(off + n - 1, sector, k);
      } else {
        QuotientGrows(i, off + n - 1, sector);
      }
    }

    lemma CoversSpan(off: int, n: nat, start: int, end: int)
      requires sector > 0 && 0 <= off && off + n < TWO_63 && end <= size
      requires Span(off, n, size, sector) == Some((start, end))
      ensures forall i :: Covers(off, n, i) <==> start <= i < end
    {
    }

    /** zero: a negative offset only shortens the stretch. */
    method Zero(off: int, n: int) returns (ok: bool)
      requires Valid() && Int64(off) && 0 <= n <= TWO_62 && 0 <= n + off
      modifies dev, dev.world
      ensures ok ==> dev.world.Faults() == old(dev.world.Faults())
      ensures !ok && off + n <= size ==> dev.world.Faults() > old(dev.world.Faults())
      ensures dev.strayed == (old(dev.strayed) || Wraps(off, n))
      ensures Valid() && |dev.content| == |old(dev.content)|
      ensures ok ==>
        var from := if off < 0 then 0 else off;
        from <= off + n <= size && Contents() == Overwrite(old(Contents()), from, Zeros(off + n - from))
    {
      if off < 0 {
        ok := WriteAt(Zeros(n + off), 0);
      } else {
        ok := WriteAt(Zeros(n), off);
      }
    }

    /** What Format does before the partition table: both ends of the disk are cleared
        and the signature is in place; nothing else has changed. */
    method Prepare(signature: seq<Byte>) returns (ok: bool)
      requires Valid() && size >= 2 * WIPE_SIZE && |signature| == 4
      modifies dev, dev.world
      ensures ok ==> dev.world.Faults() == old(dev.world.Faults())
      ensures !ok ==> dev.world.FaultSince(old(dev.world.asked))
      ensures Valid() && dev.strayed == old(dev.strayed)
      ensures ok ==> forall i | 0 <= i < size ::
        Contents()[i] ==
        if 440 <= i < 444 then signature[i - 440]
        else if i < 1048576 || i >= size - 1048576 then 0
        else old(Contents())[i]
    {
      ok := Zero(0, WIPE_SIZE);
      dev.world.Blame(old(dev.world.asked));
      if !ok {
        return;
      }
      ok := Zero(size - WIPE_SIZE, WIPE_SIZE);
      dev.world.Blame(old(dev.world.asked));
      if !ok {
        return;
      }
      ok := WriteAt(signature, 440);
      dev.world.Blame(old(dev.world.asked));
    }
  }

  lemma QuotientGrows(a: int, b: int, sector: int)
    requires sector > 0 && a <= b
    ensures a / sector <= b / sector
  {
    if a / sector > b / sector {
      StrictQuotients(sector, b / sector, a / sector);
    }
  }

  lemma StrictQuotients(sector: int, p: int, q: int)
    requires sector > 0 && p < q
    ensures sector * p + sector <= sector * q
  {
    MulGrows(q - p, sector);
    assert (q - p) * sector == sector * q - sector * p;
  }

  lemma SameSectors(off: int, i: int, sector: int)
    requires sector > 0 && RoundDown(off, sector) <= i
    ensures off / sector <= i / sector
  {
    if i / sector < off / sector {
      StrictQuotients(sector, i / sector, off / sector);
    }
  }

  lemma BelowMultiple(i: int, sector: int, k: int)
    requires sector > 0 && i < sector * k
    ensures i / sector <= k - 1
  {
    if i / sector >= k {
      if i / sector > k {
        StrictQuotients(sector, k, i / sector);
      }
    }
  }

  lemma AboveMultiple(i: int, sector: int, k: int)
    requires sector > 0 && i + sector >= sector * k
    ensures i / sector >= k - 1
  {
    if i / sector < k - 1 {
      StrictQuotients(sector, i / sector, k - 1);
    }
  }

  datatype Whence = FromStart | FromCurrent | FromEnd | Other

  /** The file that the formatting library sees. */
  class Storage {
    const disk: Disk
    var pos: nat

    constructor (d: Disk)
      ensures disk == d && pos == 0
    {
      disk, pos := d, 0;
    }

    method Read(n: nat) returns (data: seq<Byte>, ok: bool)
      requires disk.Valid() && pos < TWO_63 && n <= TWO_62
      modifies `pos, disk.dev`strayed, disk.dev.world
      ensures disk.dev.strayed == (old(disk.dev.strayed) || disk.Wraps(old(pos), n))
      ensures !ok && old(pos) + n <= disk.size ==> disk.dev.world.Faults() > old(disk.dev.world.Faults())
      ensures ok ==> old(pos) + n <= disk.size && data == disk.Contents()[old(pos)..old(pos) + n]
      ensures pos == old(pos) + |data| < TWO_63 && (!ok ==> data == [])
    {
      data, ok := disk.ReadAt(pos, n);
      if !ok {
        data := [];
      }
      pos := pos + |data|;
    }

    /** A position that does not fit 64 bits wraps, and is refused as negative. */
    method Seek(offset: int, whence: Whence) returns (ok: bool)
      requires Int64(offset) && pos < TWO_63 && disk.size < TWO_63
      modifies `pos
      ensures pos < TWO_63
      ensures ok <==>
        match whence
        case FromStart => offset >= 0
        case FromCurrent => 0 <= offset + old(pos) < TWO_63
        case FromEnd => 0 <= offset + disk.size < TWO_63
        case Other => false
      ensures !ok ==> pos == old(pos)
      ensures ok ==>
        match whence
        case FromCurrent => pos == offset + old(pos)
        case FromEnd => pos == offset + disk.size
        case _ => pos == offset
    {
      var to := offset;
      match whence {
        case FromStart =>
        case FromCurrent => to := Wrap64(to + pos);
        case FromEnd => to := Wrap64(to + disk.size);
        case Other => return false;
      }
      if to < 0 {
        return false;
      }
      pos := to;
      ok := true;
    }
  }
}
