/** The x86 call translation undone after decompression
    (internal/wim/lzx/lzx.go:540-562), and its inverse. */
module E8 {
  import opened Arith

  const FILE_SIZE := 12000000
  const MAX_OFFSET := 0x3fffffff
  const OPCODE: Byte := 0xe8
  const TWO31 := 0x8000_0000
  const TWO32 := 0x1_0000_0000

  /** Two's-complement wrap-around to 32 bits. */
  function Wrap32(x: int): (r: int)
    ensures -TWO31 <= r < TWO31
    ensures -TWO31 <= x < TWO31 ==> r == x
  {
    (x + TWO31) % TWO32 - TWO31
  }

  /** binary.LittleEndian.Uint32. */
  function Unsigned(s: seq<Byte>): (u: nat)
    requires |s| == 4
    ensures u < TWO32
  {
    s[0] as int + 256 * (s[1] as int + 256 * (s[2] as int + 256 * (s[3] as int)))
  }

  /** binary.LittleEndian.PutUint32. */
  function Digits(u: nat): (s: seq<Byte>)
    requires u < TWO32
    ensures |s| == 4
  {
    [u % 256, u / 256 % 256, u / 256 / 256 % 256, u / 256 / 256 / 256]
  }

  lemma Digit(a: nat, rest: nat)
    requires a < 256
    ensures (a + 256 * rest) / 256 == rest && (a + 256 * rest) % 256 == a
  {
  }

  lemma DigitsUnsigned(s: seq<Byte>)
    requires |s| == 4
    ensures Digits(Unsigned(s)) == s
  {
    var c := s[2] as int + 256 * (s[3] as int);
    var b := s[1] as int + 256 * c;
    Digit(s[0], b);
    Digit(s[1], c);
    Digit(s[2], s[3]);
  }

  function Load(s: seq<Byte>): (v: int)
    requires |s| == 4
    ensures -TWO31 <= v < TWO31
  {
    Wrap32(Unsigned(s))
  }

  function Store(v: int): (s: seq<Byte>)
    ensures |s| == 4
  {
    Digits(v % TWO32)
  }

  lemma LoadStore(v: int)
    requires -TWO31 <= v < TWO31
    ensures Load(Store(v)) == v
  {
    var u := v % TWO32;
    assert u == 256 * (u / 256) + u % 256;
  }

  lemma StoreLoad(s: seq<Byte>)
    requires |s| == 4
    ensures Store(Load(s)) == s
  {
    DigitsUnsigned(s);
    assert Wrap32(Unsigned(s)) % TWO32 == Unsigned(s);
  }

  datatype Direction = Decode | Encode {
    function Inverse(): Direction {
      if Decode? then Encode else Decode
    }
  }

  /** What one call's operand becomes, at instruction address cp. */
  function Map(dir: Direction, cp: int, v: int): int {
    match dir
    case Decode =>
      if Wrap32(-cp) <= v < FILE_SIZE then Wrap32(if v >= 0 then v - cp else v + FILE_SIZE) else v
    case Encode =>
      if Wrap32(-cp) <= v < FILE_SIZE then Wrap32(if v < FILE_SIZE - cp then v + cp else v - FILE_SIZE) else v
  }

  /** Each operand map permutes the range from -cp to the file size, fixes every
      value outside it, and the other direction undoes it. */
  lemma MapPermutes(dir: Direction, cp: int, v: int)
    requires 0 <= cp < TWO31 && -TWO31 <= v < TWO31
    ensures -TWO31 <= Map(dir, cp, v) < TWO31
    ensures -cp <= v < FILE_SIZE <==> -cp <= Map(dir, cp, v) < FILE_SIZE
    ensures !(-cp <= v < FILE_SIZE) ==> Map(dir, cp, v) == v
    ensures Map(dir.Inverse(), cp, Map(dir, cp, v)) == v
  {
  }

  /** The rest of a buffer from address cp on: the four bytes after each opcode are
      translated and skipped, and the last ten bytes are left alone. */
  function Scan(dir: Direction, cp: int, s: seq<Byte>): (r: seq<Byte>)
    ensures |r| == |s|
    decreases |s|
  {
    if |s| <= 10 then s
    else if s[0] == OPCODE then [OPCODE] + Store(Map(dir, Wrap32(cp), Load(s[1..5]))) + Scan(dir, cp + 5, s[5..])
    else [s[0]] + Scan(dir, cp + 1, s[1..])
  }

  function Translate(dir: Direction, s: seq<Byte>, off: int): (r: seq<Byte>)
    ensures |r| == |s|
  {
    if off > MAX_OFFSET || |s| < 10 then s else Scan(dir, off, s)
  }

  lemma {:induction false} ScanInverse(dir: Direction, cp: int, s: seq<Byte>)
    requires 0 <= cp && cp + |s| <= TWO31 + 10
    ensures Scan(dir.Inverse(), cp, Scan(dir, cp, s)) == s
    decreases |s|
  {
    hide Load, Store, Map;
    if |s| > 10 {
      var r := Scan(dir, cp, s);
      if s[0] == OPCODE {
        var v := Load(s[1..5]);
        MapPermutes(dir, cp, v);
        LoadStore(Map(dir, cp, v));
        StoreLoad(s[1..5]);
        assert r[1..5] == Store(Map(dir, cp, v)) && r[5..] == Scan(dir, cp + 5, s[5..]);
        ScanInverse(dir, cp + 5, s[5..]);
        assert s == [OPCODE] + s[1..5] + s[5..];
      } else {
        assert r[1..] == Scan(dir, cp + 1, s[1..]);
        ScanInverse(dir, cp + 1, s[1..]);
      }
    }
  }

  function Zeros(n: nat): (s: seq<Byte>)
    ensures |s| == n
  {
    seq(n, _ => 0)
  }

  /** A buffer of length n whose only call stands at index k, with operand -1. */
  function OneCall(k: nat, n: nat): (s: seq<Byte>)
    requires k + 10 < n
    ensures |s| == n
  {
    Zeros(k) + ([OPCODE] + Store(-1) + Zeros(n - k - 5))
  }

  lemma {:induction false} ScanZeros(dir: Direction, cp: int, k: nat, rest: seq<Byte>)
    ensures |rest| > 10 ==> Scan(dir, cp, Zeros(k) + rest) == Zeros(k) + Scan(dir, cp + k, rest)
    ensures rest == [] ==> Scan(dir, cp, Zeros(k)) == Zeros(k)
    decreases k
  {
    hide Store, Load, Map;
    if k == 0 {
      assert Zeros(0) + rest == rest && Zeros(0) + Scan(dir, cp, rest) == Scan(dir, cp, rest);
    } else {
      ScanZeros(dir, cp + 1, k - 1, rest);
      assert (Zeros(k) + rest)[1..] == Zeros(k - 1) + rest && Zeros(k)[1..] == Zeros(k - 1);
      assert Zeros(k) == [0] + Zeros(k - 1);
      assert [0] + (Zeros(k - 1) + Scan(dir, cp + k, rest)) == Zeros(k) + Scan(dir, cp + k, rest);
    }
  }

  /** A call whose address is just too large for 31 bits does not come back. */
  lemma CallTooFar(dir: Direction, off: int, k: nat, n: nat)
    requires off + k == TWO31 && k + 10 < n
    ensures Scan(dir.Inverse(), off, Scan(dir, off, OneCall(k, n))) != OneCall(k, n)
  {
    hide Scan, Store, Load, Map;
    var cp, s := Wrap32(TWO31), OneCall(k, n);
    var call := [OPCODE] + Store(-1) + Zeros(n - k - 5);
    var once, twice := Map(dir, cp, -1), Map(dir.Inverse(), cp, Map(dir, cp, -1));
    assert -TWO31 <= once < TWO31 && -TWO31 <= twice < TWO31 && twice != -1 by {
      MapTooFar(dir);
    }
    ScanZeros(dir, off, k, call);
    OneCallScan(dir, TWO31, -1, n - k - 5);
    ScanZeros(dir.Inverse(), off, k, [OPCODE] + Store(once) + Zeros(n - k - 5));
    OneCallScan(dir.Inverse(), TWO31, once, n - k - 5);
    LoadStore(-1);
    LoadStore(twice);
    OperandAt(k, twice, n - k - 5);
    OperandAt(k, -1, n - k - 5);
  }

  lemma OperandAt(k: nat, v: int, m: nat)
    ensures (Zeros(k) + ([OPCODE] + Store(v) + Zeros(m)))[k + 1..k + 5] == Store(v)
  {
    hide Store, Zeros;
    var call := [OPCODE] + Store(v) + Zeros(m);
    assert call[1..5] == Store(v);
    assert (Zeros(k) + call)[k + 1..k + 5] == call[1..5];
  }

  lemma MapTooFar(dir: Direction)
    ensures var cp := Wrap32(TWO31);
            var once := Map(dir, cp, -1);
            var twice := Map(dir.Inverse(), cp, once);
            -TWO31 <= once < TWO31 && -TWO31 <= twice < TWO31 && twice != -1
  {
  }

  lemma OneCallScan(dir: Direction, cp: int, v: int, m: nat)
    requires -TWO31 <= v < TWO31 && m > 5
    ensures Scan(dir, cp, [OPCODE] + Store(v) + Zeros(m)) == [OPCODE] + Store(Map(dir, Wrap32(cp), v)) + Zeros(m)
  {
    hide Store, Load, Map, Wrap32;
    var s := [OPCODE] + Store(v) + Zeros(m);
    assert s[1..5] == Store(v) && s[5..] == Zeros(m);
    LoadStore(v);
    ScanZeros(dir, cp + 5, m, []);
  }

  /** Decoding and encoding undo each other on every buffer of a length, in both orders,
      if and only if no call in one can have an address of 31 bits or more. */
  lemma TranslateBijection(dir: Direction, n: nat, off: int)
    requires 0 <= off
    ensures (forall s: seq<Byte> | |s| == n :: Translate(dir.Inverse(), Translate(dir, s, off), off) == s) <==>
            off > MAX_OFFSET || off + n <= TWO31 + 10
  {
    hide Scan, OneCall;
    if off <= MAX_OFFSET && n >= 10 {
      if off + n <= TWO31 + 10 {
        forall s: seq<Byte> | |s| == n
          ensures Translate(dir.Inverse(), Translate(dir, s, off), off) == s
        {
          ScanInverse(dir, off, s);
        }
      } else {
        CallTooFar(dir, off, TWO31 - off, n);
        var s := OneCall(TWO31 - off, n);
        assert Translate(dir.Inverse(), Translate(dir, s, off), off) != s;
      }
    }
  }

  // ---- what decoding does to the bytes

  /** The four bytes at k as a little-endian two's-complement number. */
  function Signed32(s: seq<Byte>, k: nat): int
    requires k + 4 <= |s|
  {
    var u := s[k] as int + 256 * (s[k + 1] as int) + 65536 * (s[k + 2] as int) + 16777216 * (s[k + 3] as int);
    if u < 0x8000_0000 then u else u - 0x1_0000_0000
  }

  /** A scan that is at index k gets to index i: it goes on by one byte, or by five past
      an 0xe8, and stops ten bytes before the end. */
  predicate Reaches(s: seq<Byte>, k: nat, i: nat)
    decreases i - k
  {
    k == i || (k < i && k + 10 < |s| && Reaches(s, k + if s[k] == 0xe8 then 5 else 1, i))
  }

  /** A call that is translated stands at index i. */
  predicate CallAt(s: seq<Byte>, k: nat, i: nat) {
    i + 10 < |s| && s[i] == 0xe8 && Reaches(s, k, i)
  }

  /** At address p the absolute target v has become the displacement w from p; a target up
      to p below zero, which stands for one past the end of the file size, comes back there. */
  predicate Undone(p: int, v: int, w: int) {
    && (0 <= v < 12000000 ==> p + w == v)
    && (-p <= v < 0 ==> w == v + 12000000)
    && (v < -p || v >= 12000000 ==> w == v)
  }

  /** What becomes of a buffer s at offset off: each call's operand is undone, and no other
      byte changes. */
  ghost predicate CallsUndone(s: seq<Byte>, t: seq<Byte>, off: int) {
    && |t| == |s|
    && (forall i: nat | CallAt(s, 0, i) :: Undone(off + i, Signed32(s, i + 1), Signed32(t, i + 1)))
    && (forall j: nat | j < |s| && forall i: nat | CallAt(s, 0, i) :: !(i < j <= i + 4) :: t[j] == s[j])
  }

  lemma Signed32IsLoad(s: seq<Byte>, k: nat)
    requires k + 4 <= |s|
    ensures Signed32(s, k) == Load(s[k..k + 4])
  {
  }

  lemma MapUndoes(p: int, v: int)
    requires 0 <= p < TWO31 && -TWO31 <= v < TWO31
    ensures Undone(p, v, Map(Decode, p, v))
  {
  }

  /** The scan from k on, in terms of the whole buffer. */
  lemma ScanFrom(s: seq<Byte>, k: nat, off: int)
    requires k + 10 < |s|
    ensures var r := Scan(Decode, off + k, s[k..]);
            if s[k] == OPCODE then
              r == [OPCODE] + Store(Map(Decode, Wrap32(off + k), Load(s[k + 1..k + 5])))
                   + Scan(Decode, off + k + 5, s[k + 5..])
            else r == [s[k]] + Scan(Decode, off + k + 1, s[k + 1..])
  {
    hide Load, Store, Map, Wrap32;
    assert s[k..][1..] == s[k + 1..] && s[k..][5..] == s[k + 5..];
    assert s[k..][1..5] == s[k + 1..k + 5];
  }

  lemma {:induction false} ScanUndoesCall(s: seq<Byte>, k: nat, off: int, i: nat)
    requires 0 <= off && off + |s| <= TWO31 && CallAt(s, k, i)
    ensures Undone(off + i, Signed32(s, i + 1), Signed32(Scan(Decode, off + k, s[k..]), i + 1 - k))
    decreases i - k
  {
    hide Load, Store, Map, Scan, Undone, Signed32;
    ScanFrom(s, k, off);
    var r := Scan(Decode, off + k, s[k..]);
    if k == i {
      var v := Load(s[k + 1..k + 5]);
      var w := Map(Decode, off + k, v);
      MapPermutes(Decode, off + k, v);
      MapUndoes(off + k, v);
      LoadStore(w);
      assert r[1..5] == Store(w);
      Signed32IsLoad(r, 1);
      Signed32IsLoad(s, k + 1);
    } else {
      var n := if s[k] == OPCODE then 5 else 1;
      ScanUndoesCall(s, k + n, off, i);
      var rest := Scan(Decode, off + k + n, s[k + n..]);
      assert r[n..] == rest;
      Signed32Later(r, n, rest, i + 1 - k - n);
    }
  }

  lemma Signed32Later(r: seq<Byte>, n: nat, rest: seq<Byte>, k: nat)
    requires n <= |r| && r[n..] == rest && k + 4 <= |rest|
    ensures Signed32(r, n + k) == Signed32(rest, k)
  {
  }

  lemma {:induction false} ScanKeepsByte(s: seq<Byte>, k: nat, off: int, j: nat)
    requires k <= j < |s| && forall i: nat | CallAt(s, k, i) :: !(i < j <= i + 4)
    ensures Scan(Decode, off + k, s[k..])[j - k] == s[j]
    decreases j - k
  {
    hide Load, Store, Map, Scan;
    if k + 10 < |s| {
      ScanFrom(s, k, off);
      if s[k] == OPCODE {
        assert CallAt(s, k, k);
      }
      if j > k {
        var next := k + if s[k] == OPCODE then 5 else 1;
        forall i: nat | CallAt(s, next, i)
          ensures !(i < j <= i + 4)
        {
          ReachesForward(s, next, i);
          assert CallAt(s, k, i);
        }
        assert next <= j;
        ScanKeepsByte(s, next, off, j);
      }
    } else {
      ShortScan(off + k, s[k..]);
    }
  }

  lemma {:induction false} ReachesForward(s: seq<Byte>, k: nat, i: nat)
    requires Reaches(s, k, i)
    ensures k <= i
  {
  }

  lemma ShortScan(cp: int, s: seq<Byte>)
    requires |s| <= 10
    ensures Scan(Decode, cp, s) == s
  {
  }

  /** Decoding, at addresses of 31 bits, in terms of the bytes alone. */
  lemma TranslateUndoesCalls(s: seq<Byte>, off: int)
    requires 0 <= off <= 0x3fffffff && off + |s| <= TWO31
    ensures CallsUndone(s, Translate(Decode, s, off), off)
  {
    hide Scan, Undone, Signed32, Reaches;
    var t := Translate(Decode, s, off);
    assert s[0..] == s;
    if |s| < 10 {
      ShortScan(off, s);
    }
    forall i: nat | CallAt(s, 0, i)
      ensures Undone(off + i, Signed32(s, i + 1), Signed32(t, i + 1))
    {
      ScanUndoesCall(s, 0, off, i);
    }
    forall j: nat | j < |s| && forall i: nat | CallAt(s, 0, i) :: !(i < j <= i + 4)
      ensures t[j] == s[j]
    {
      ScanKeepsByte(s, 0, off, j);
    }
  }

  /** decodeE8 on the first n bytes of b. */
  method DecodeE8(b: array<Byte>, n: nat, off: int)
    requires n <= b.Length
    modifies b
    ensures b[..n] == Translate(Decode, old(b[..n]), off)
    ensures b[n..] == old(b[n..])
    ensures off > 0x3fffffff ==> b[..n] == old(b[..n])
    ensures 0 <= off <= 0x3fffffff && off + n <= TWO31 ==> CallsUndone(old(b[..n]), b[..n], off)
  {
    hide CallsUndone;
    if 0 <= off <= 0x3fffffff && off + n <= TWO31 {
      TranslateUndoesCalls(b[..n], off);
    }
    if off > MAX_OFFSET || n < 10 {
      return;
    }
    hide Scan;
    var i := 0;
    ScanNone(b[..], n, off);
    while i < n - 10
      invariant 0 <= i <= n
      invariant Scan(Decode, off, old(b[..n])) == b[..i] + Scan(Decode, off + i, b[i..n])
      invariant b[n..] == old(b[n..])
    {
      i := ScanStep(b, n, off, i);
    }
    ScanDone(b[..], i, n, off + i);
  }

  lemma ScanNone(s: seq<Byte>, n: nat, cp: int)
    requires n <= |s|
    ensures s[..0] + Scan(Decode, cp, s[0..n]) == Scan(Decode, cp, s[..n])
  {
    assert s[0..n] == s[..n];
  }

  /** The last ten bytes stay. */
  lemma ScanDone(s: seq<Byte>, i: nat, n: nat, cp: int)
    requires n - 10 <= i <= n <= |s|
    ensures s[..i] + Scan(Decode, cp, s[i..n]) == s[..n]
  {
    assert s[..n] == s[..i] + s[i..n];
  }

  /** One byte of the scan, or one call with its operand. */
  method ScanStep(b: array<Byte>, n: nat, off: int, i: nat) returns (next: nat)
    requires i < n - 10 && n <= b.Length
    modifies b
    ensures i < next <= n && b[n..] == old(b[n..])
    ensures b[..next] + Scan(Decode, off + next, b[next..n]) ==
            old(b[..i]) + Scan(Decode, off + i, old(b[i..n]))
  {
    hide Scan, Load, Store, Map, Wrap32;
    if b[i] == 0xe8 {
      TranslateCall(b, i, off);
      CallDone(old(b[..]), b[..], i, n, off + i);
      next := i + 5;
    } else {
      ByteDone(b[..], i, n, off + i);
      next := i + 1;
    }
  }

  lemma ByteDone(s: seq<Byte>, i: nat, n: nat, cp: int)
    requires i < n - 10 && n <= |s| && s[i] != OPCODE
    ensures s[..i + 1] + Scan(Decode, cp + 1, s[i + 1..n]) == s[..i] + Scan(Decode, cp, s[i..n])
  {
    assert s[i..n][1..] == s[i + 1..n];
    assert s[..i + 1] == s[..i] + [s[i]];
  }

  /** The buffer before and after one call was translated. */
  lemma CallDone(s: seq<Byte>, t: seq<Byte>, i: nat, n: nat, cp: int)
    requires i < n - 10 && n <= |s| == |t| && s[i] == OPCODE
    requires t[..i + 1] == s[..i + 1] && t[i + 5..] == s[i + 5..]
    requires t[i + 1..i + 5] == Store(Map(Decode, Wrap32(cp), Load(s[i + 1..i + 5])))
    ensures t[..i + 5] + Scan(Decode, cp + 5, t[i + 5..n]) == s[..i] + Scan(Decode, cp, s[i..n])
  {
    hide Load, Store, Map, Wrap32;
    Slices(s, i, n);
    Slices(t, i, n);
    ScanCall(cp, s[i..n]);
    hide Scan;
    assert t[..i + 5] == s[..i + 1] + t[i + 1..i + 5];
    assert s[..i + 1] == s[..i] + [OPCODE];
  }

  lemma Slices(s: seq<Byte>, i: nat, n: nat)
    requires i + 5 <= n <= |s|
    ensures s[i..n][1..5] == s[i + 1..i + 5]
    ensures s[i..n][5..] == s[i + 5..n] == s[i + 5..][..n - i - 5]
  {
    var r := s[i..n];
    assert r[1..5] == [r[1], r[2], r[3], r[4]];
    assert s[i + 1..i + 5] == [s[i + 1], s[i + 2], s[i + 3], s[i + 4]];
  }

  lemma ScanCall(cp: int, s: seq<Byte>)
    requires |s| > 10 && s[0] == OPCODE
    ensures Scan(Decode, cp, s) ==
            [OPCODE] + Store(Map(Decode, Wrap32(cp), Load(s[1..5]))) + Scan(Decode, cp + 5, s[5..])
  {
  }

  /** One call's operand, in place. */
  method TranslateCall(b: array<Byte>, i: nat, off: int)
    requires i + 5 <= b.Length
    modifies b
    ensures b[..i + 1] == old(b[..i + 1]) && b[i + 5..] == old(b[i + 5..])
    ensures b[..i] == old(b[..i])
    ensures b[i + 1..i + 5] == Store(Map(Decode, Wrap32(off + i), Load(old(b[i + 1..i + 5]))))
  {
    hide Load, Store;
    var currentPtr := Wrap32(Wrap32(off) + Wrap32(i));
    AddressWraps(off, i);
    var abs := Load(b[i + 1..i + 5]);
    if Wrap32(-currentPtr) <= abs < FILE_SIZE {
      var rel := Wrap32(if abs >= 0 then abs - currentPtr else abs + FILE_SIZE);
      var s := Store(rel);
      b[i + 1], b[i + 2], b[i + 3], b[i + 4] := s[0], s[1], s[2], s[3];
      assert b[i + 1..i + 5] == s;
    } else {
      StoreLoad(b[i + 1..i + 5]);
    }
  }

  lemma AddressWraps(off: int, i: int)
    ensures Wrap32(Wrap32(off) + Wrap32(i)) == Wrap32(off + i)
  {
  }
}
