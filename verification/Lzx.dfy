/** The LZX decompressor (internal/wim/lzx/lzx.go:258-600), proved against the
    parser of LzxSpec. */
module Lzx {
  import opened Arith
  import opened BitString
  import opened Canonical
  import opened Huffman
  import opened BitReader
  import opened LzxSpec
  import E8

  /** A Go error, or a Go panic. */
  datatype Status = Ok | Err(e: Error) | Panicked

  /** err carries no lost input: a corrupt verdict is then about the stream. */
  ghost predicate Clean(err: Option<Error>) {
    err.None? || err == Some(Corrupt)
  }

  /** Why the input may be too short for a parse that succeeds: bytes of it were lost, or an
      odd byte is left over, with fewer than sixteen bits before it. */
  ghost predicate Starved<T>(spec: Parsed<T>, f: Reader)
    reads f`lost
  {
    spec.Done? ==> f.lost || (|f.src.data| % 2 == 1 && spec.at <= |f.bits| < spec.at + 16)
  }

  /** What getCode reports when it runs out, in terms of the parse. */
  lemma CodeStarved(lens: seq<nat>, f: Reader, pos: nat)
    requires
      || f.lost
      || (|f.bits| < pos + 16 && (|f.src.data| % 2 == 1 || NoCodeWithin(lens, f.bits, pos, |f.bits|)))
    ensures Starved(Code(lens, f.bits, pos), f)
  {
    hide Peek, Codeword;
  }

  lemma ErrorKinds(err: Option<Error>)
    ensures Clean(err) || err == Some(UnexpectedEOF) || err == Some(ReadFailed)
  {
    if err.Some? {
      match err.value {
        case UnexpectedEOF =>
        case Corrupt =>
        case ReadFailed =>
      }
    }
  }

  lemma BitsLength(data: seq<Byte>)
    ensures |BitsOf(data)| == 16 * (|data| / 2)
  {
  }

  /** How a status and a parse of the same bits agree. Without an error from the source
      the parse fails the same way, or the input was too short to tell. */
  ghost predicate Agrees<T(!new)>(r: Status, err: Option<Error>, spec: Parsed<T>, f: Reader)
    reads f`lost
  {
    && (r.Ok? ==> err.None? && spec.Done?)
    && (r.Panicked? ==> err.None? && spec in {Bad(NilTree), Bad(Overrun)})
    && (r.Err? && Clean(err) ==> r == Err(Corrupt) && spec == Bad(CorruptData))
    && (err == Some(UnexpectedEOF) ==> Starved(spec, f))
  }

  class Decompressor {
    const f: Reader
    const mainlens: array<nat>
    const lenlens: array<nat>
    const window: array<Byte>
    const uncompressed: nat
    var lru: seq<nat>
    var unaligned: bool

    ghost predicate Apart() {
      && mainlens.Length == MAIN_CODES && lenlens.Length == LENGTH_CODES && window.Length == WINDOW
      && window != f.b
      && mainlens != lenlens
      && mainlens as object != f.b && lenlens as object != f.b
      && mainlens as object != window && lenlens as object != window
    }

    /** NewReader, for a chunk of at most 32 KB. */
    constructor (r: Source, uncompressedSize: nat)
      requires r.Valid() && r.at == 0 && uncompressedSize <= WINDOW
      ensures Apart() && f.Valid() && f.err.None? && f.Aligned() && f.pos == 0 && f.nbits == 0
      ensures f.src == r && uncompressed == uncompressedSize
      ensures !f.Spoilt() && f.Edge() == Least(BUFFER_SIZE, |r.data|)
      ensures lru == [1, 1, 1] && !unaligned
      ensures mainlens[..] == seq(MAIN_CODES, _ => 0) && lenlens[..] == seq(LENGTH_CODES, _ => 0)
      ensures window[..] == seq(WINDOW, _ => 0)
      ensures fresh(f) && fresh(f.b) && fresh(mainlens) && fresh(lenlens) && fresh(window)
    {
      f := new Reader(r);
      mainlens := new nat[MAIN_CODES](_ => 0);
      lenlens := new nat[LENGTH_CODES](_ => 0);
      window := new Byte[WINDOW](_ => 0);
      uncompressed := uncompressedSize;
      lru := [1, 1, 1];
      unaligned := false;
    }

    // ---- trees

    /** k fixed-width fields, as the pre-tree and the aligned tree are stored. */
    method ReadFields(w: nat, k: nat) returns (lens: seq<nat>)
      requires f.Valid() && 0 < w <= 4 && 0 < k && (f.err.None? ==> f.Aligned())
      modifies f, f.b, f.src
      ensures f.Valid() && |lens| == k && forall i | 0 <= i < k :: lens[i] < Pow2(w)
      ensures old(f.err).Some? ==> f.err == old(f.err) && f.lost == old(f.lost)
      ensures f.err == Some(Corrupt) ==> old(f.err) == Some(Corrupt)
      ensures old(f.err).None? && f.err == Some(UnexpectedEOF) ==> f.lost || |f.bits| < old(f.pos) + w * k
      ensures f.err.None? ==>
                && f.Aligned() && f.pos == old(f.pos) + w * k <= |f.bits|
                && lens == Fields(f.bits, old(f.pos), w, k)
      ensures f.src.fills && f.Spoilt() ==> old(f.Spoilt())
    {
      hide Reader.Spoilt, BitsOf, Reader.Cached, Peek, Pow2;
      lens := [];
      for j := 0 to k
        invariant f.Valid() && |lens| == j && forall i | 0 <= i < j :: lens[i] < Pow2(w)
        invariant old(f.err).Some? ==> f.err == old(f.err) && f.lost == old(f.lost)
        invariant f.err == Some(Corrupt) ==> old(f.err) == Some(Corrupt)
        invariant old(f.err).None? && f.err == Some(UnexpectedEOF) ==> f.lost || |f.bits| < old(f.pos) + w * j
        invariant f.err.None? ==> f.Aligned() && f.pos == old(f.pos) + w * j
        invariant f.src.fills && f.Spoilt() ==> old(f.Spoilt())
        invariant f.err.None? && j > 0 ==> f.pos <= |f.bits| && lens == Fields(f.bits, old(f.pos), w, j)
      {
        assert w * (j + 1) == w * j + w;
        var v := f.GetBits(w);
        lens := lens + [v];
      }
    }

    /** Writes v into lens[at..at+n], as the run codes do. */
    method FillRun(lens: array<nat>, lo: nat, hi: nat, at: nat, n: nat, v: nat)
      requires lo <= at && at + n <= hi <= lens.Length
      modifies lens
      ensures lens[lo..hi] == SetRun(old(lens[lo..hi]), at - lo, n, v)
      ensures Untouched(lens, lo, hi, old(lens[..]))
    {
      for j := 0 to n
        invariant forall k | 0 <= k < lens.Length :: lens[k] == if at <= k < at + j then v else old(lens[k])
      {
        lens[at + j] := v;
      }
      SetRunIs(old(lens[lo..hi]), lens[lo..hi], at - lo, n, v);
    }

    static ghost predicate Untouched(lens: array<nat>, lo: nat, hi: nat, before: seq<nat>)
      reads lens
    {
      |before| == lens.Length && forall k | 0 <= k < lens.Length && !(lo <= k < hi) :: lens[k] == before[k]
    }

    lemma UntouchedYet(lens: array<nat>, lo: nat, hi: nat)
      ensures Untouched(lens, lo, hi, lens[..])
    {
    }

    static ghost predicate Short(lens: seq<nat>) {
      forall i | 0 <= i < |lens| :: lens[i] <= MAX_LENGTH
    }

    /** How one step of readTree's loop carries on the parse spec: it goes on from
        the lengths and the position reached, or it is corrupt. */
    static ghost predicate Steps(spec: Parsed<seq<nat>>, pre: seq<nat>, f: Reader,
                                 r: Status, err: Option<Error>, pos: nat, cur: seq<nat>, i: nat)
      reads f`lost
    {
      && !r.Panicked?
      && (r.Ok? ==> i <= |cur| && err != Some(Corrupt))
      && (r.Ok? && err.None? ==> spec == TreeFrom(pre, f.bits, pos, cur, i))
      && (r.Err? && Clean(err) ==> r == Err(Corrupt) && spec == Bad(CorruptData))
      && (err == Some(UnexpectedEOF) ==> Starved(spec, f))
    }

    /** getCode, in terms of the parse. */
    method ReadSymbol(h: Table, ghost lens: seq<nat>) returns (v: nat)
      requires f.Valid() && (f.err.None? ==> f.Aligned()) && Decodes(h, lens)
      modifies f, f.b, f.src
      ensures f.Valid() && (f.err.None? ==> f.Aligned()) && v < TABLE_SIZE
      ensures old(f.err).Some? ==> f.err == old(f.err) && f.lost == old(f.lost)
      ensures f.err.None? ==> Code(lens, f.bits, old(f.pos)) == Done(v, f.pos) && v < |lens| && !AllZero(lens)
      ensures old(f.err).None? && f.err == Some(Corrupt) ==> AllZero(lens)
      ensures old(f.err).None? && f.err == Some(Corrupt) ==> Code(lens, f.bits, old(f.pos)) == Bad(CorruptData)
      ensures old(f.err).None? && f.err == Some(UnexpectedEOF) ==> Starved(Code(lens, f.bits, old(f.pos)), f)
      ensures f.src.fills && f.Spoilt() ==> old(f.Spoilt())
    {
      hide Reader.Spoilt, BitsOf, Reader.Cached, Reader.Buffered, Reader.Dry;
      hide Decodes, Peek, Codeword, Starved, NoCodeWithin;
      v := f.GetCode(h, lens);
      if f.err.None? {
        CodeIs(lens, f.bits, old(f.pos), v);
        HasCode(lens, f.bits, old(f.pos), v);
      } else if f.err == Some(UnexpectedEOF) && old(f.err).None? {
        CodeStarved(lens, f, old(f.pos));
      }
    }

    /** getBits, in terms of the parse. */
    method ReadNumber(w: nat) returns (v: nat)
      requires f.Valid() && w <= 16 && (f.err.None? ==> f.Aligned())
      modifies f, f.b, f.src
      ensures f.Valid() && (f.err.None? ==> f.Aligned())
      ensures old(f.err).Some? ==> f.err == old(f.err) && f.lost == old(f.lost)
      ensures f.err.None? ==> Bits(f.bits, old(f.pos), w) == Done(v, f.pos)
      ensures f.err == Some(Corrupt) ==> old(f.err) == Some(Corrupt)
      ensures old(f.err).None? && f.err == Some(UnexpectedEOF) ==> Starved(Bits(f.bits, old(f.pos), w), f)
      ensures f.src.fills && f.Spoilt() ==> old(f.Spoilt())
    {
      hide Reader.Spoilt, BitsOf, Reader.Cached, Reader.Buffered, Reader.Dry, Peek, Pow2;
      v := f.GetBits(w);
    }

    method ZeroRunStep(ghost pre: seq<nat>, lens: array<nat>, lo: nat, hi: nat, i: nat, w: nat, base: nat)
      returns (r: Status, next: nat)
      requires f.Valid() && f.err.None? && f.Aligned() && 0 < w <= 5 && base > 0
      requires lo <= i < hi <= lens.Length && lens as object != f.b && Short(lens[lo..hi])
      modifies f, f.b, f.src, lens
      ensures f.Valid() && (f.err.None? ==> f.Aligned())
      ensures Short(lens[lo..hi]) && Untouched(lens, lo, hi, old(lens[..]))
      ensures r.Ok? ==> i < next <= hi
      ensures next >= lo && Steps(ZeroRun(pre, f.bits, old(lens[lo..hi]), i - lo, Bits(f.bits, old(f.pos), w), base),
                                  pre, f, r, f.err, f.pos, lens[lo..hi], next - lo)
      ensures f.src.fills && f.Spoilt() ==> old(f.Spoilt())
    {
      hide Reader.Spoilt, BitsOf, Reader.Cached, Reader.Buffered, TreeFrom, Bits;
      var n := ReadNumber(w);
      RunStarved(pre, f, old(lens[lo..hi]), i - lo, Bits(f.bits, old(f.pos), w), base);
      if i + n + base > hi {
        return Err(Corrupt), i;
      }
      FillRun(lens, lo, hi, i, n + base, 0);
      return Ok, i + n + base;
    }

    /** The delta that n + 4 lengths share, and those lengths. */
    method SameValue(
      h: Table, ghost pre: seq<nat>, lens: array<nat>, lo: nat, hi: nat, i: nat, n: nat)
      returns (r: Status)
      requires f.Valid() && (f.err.None? ==> f.Aligned()) && f.err != Some(Corrupt)
      requires Decodes(h, pre) && |pre| == PRETREE && !AllZero(pre)
      requires lo <= i && i + n + 4 <= hi <= lens.Length && lens as object != f.b && Short(lens[lo..hi])
      modifies f, f.b, f.src, lens
      ensures f.Valid() && (f.err.None? ==> f.Aligned()) && (r == Ok || r == Err(Corrupt))
      ensures Short(lens[lo..hi]) && Untouched(lens, lo, hi, old(lens[..]))
      ensures old(f.err).Some? ==> f.err == old(f.err) && f.lost == old(f.lost)
      ensures old(f.err).None? ==>
                Steps(SameRun(pre, f.bits, old(lens[lo..hi]), i - lo, Done(n, old(f.pos))),
                      pre, f, r, f.err, f.pos, lens[lo..hi], i - lo + n + 4)
      ensures f.src.fills && f.Spoilt() ==> old(f.Spoilt())
    {
      hide Reader.Spoilt, BitsOf, Reader.Cached, Reader.Buffered, TreeFrom, Decodes, AllZero, Code;
      hide Untouched, SetRun, Short, SameRun, Starved, Steps, Delta;
      UntouchedYet(lens, lo, hi);
      var d := ReadSymbol(h, pre);
      assert lens[lo..hi] == old(lens[lo..hi]) && lens[..] == old(lens[..]);
      d := d % 256;
      if old(f.err).None? {
        SameRunSteps(pre, f, lens[lo..hi], i - lo, n, old(f.pos), d);
      }
      if d > 16 {
        return Err(Corrupt);
      }
      FillSame(lens, lo, hi, i, n + 4, d);
      r := Ok;
    }

    /** n lengths from i on become the length at i changed by the delta. */
    method FillSame(lens: array<nat>, lo: nat, hi: nat, i: nat, n: nat, d: nat)
      requires lo <= i < hi <= lens.Length && i + n <= hi && d <= 16 && Short(lens[lo..hi])
      modifies lens
      ensures lens[lo..hi] == SetRun(old(lens[lo..hi]), i - lo, n, Delta(old(lens[lo..hi])[i - lo], d))
      ensures Short(lens[lo..hi]) && Untouched(lens, lo, hi, old(lens[..]))
    {
      hide SetRun, Short, Untouched, Delta;
      var l := Delta(lens[i], d);
      DeltaBound(lens[i], d);
      ShortRun(lens[lo..hi], i - lo, n, l);
      FillRun(lens, lo, hi, i, n, l);
    }

    method SameRunStep(h: Table, ghost pre: seq<nat>, lens: array<nat>, lo: nat, hi: nat, i: nat)
      returns (r: Status, next: nat)
      requires f.Valid() && f.err.None? && f.Aligned()
      requires Decodes(h, pre) && |pre| == PRETREE && !AllZero(pre)
      requires lo <= i < hi <= lens.Length && lens as object != f.b && Short(lens[lo..hi])
      modifies f, f.b, f.src, lens
      ensures f.Valid() && (f.err.None? ==> f.Aligned())
      ensures Short(lens[lo..hi]) && Untouched(lens, lo, hi, old(lens[..]))
      ensures r.Ok? ==> i < next <= hi
      ensures next >= lo && Steps(SameRun(pre, f.bits, old(lens[lo..hi]), i - lo, Bits(f.bits, old(f.pos), 1)),
                                  pre, f, r, f.err, f.pos, lens[lo..hi], next - lo)
      ensures f.src.fills && f.Spoilt() ==> old(f.Spoilt())
    {
      hide Reader.Spoilt, BitsOf, Reader.Refines, TreeFrom, Decodes, AllZero, Code, Bits;
      var n := ReadNumber(1);
      RunStarved(pre, f, old(lens[lo..hi]), i - lo, Bits(f.bits, old(f.pos), 1), 4);
      hide Starved;
      if i + n + 4 > hi {
        return Err(Corrupt), i;
      }
      hide SameRun;
      r := SameValue(h, pre, lens, lo, hi, i, n);
      next := i + n + 4;
    }

    /** A length as the difference from the one before this block. */
    method DeltaStep(lens: array<nat>, lo: nat, hi: nat, i: nat, c: nat)
      requires lo <= i < hi <= lens.Length && c <= 16 && Short(lens[lo..hi])
      modifies lens
      ensures lens[lo..hi] == old(lens[lo..hi])[i - lo := Delta(old(lens[lo..hi])[i - lo], c)]
      ensures Short(lens[lo..hi]) && Untouched(lens, lo, hi, old(lens[..]))
    {
      var l := (lens[i] + 17 - c) % 17;
      assert l <= MAX_LENGTH;
      lens[i] := l;
    }

    /** One code of the pre-tree: one length, or a run of them. */
    method TreeStep(
      h: Table, ghost pre: seq<nat>, lens: array<nat>, lo: nat, hi: nat, i: nat)
      returns (r: Status, next: nat)
      requires f.Valid() && f.err.None? && f.Aligned()
      requires Decodes(h, pre) && |pre| == PRETREE
      requires lo <= i < hi <= lens.Length && lens as object != f.b && Short(lens[lo..hi])
      modifies f, f.b, f.src, lens
      ensures f.Valid() && (f.err.None? ==> f.Aligned())
      ensures Short(lens[lo..hi]) && Untouched(lens, lo, hi, old(lens[..]))
      ensures r.Ok? ==> i < next <= hi
      ensures next >= lo && Steps(TreeFrom(pre, f.bits, old(f.pos), old(lens[lo..hi]), i - lo),
                                  pre, f, r, f.err, f.pos, lens[lo..hi], next - lo)
      ensures f.src.fills && f.Spoilt() ==> old(f.Spoilt())
    {
      hide Reader.Spoilt, BitsOf, Reader.Refines, Decodes, ZeroRun, SameRun;
      hide TreeFrom, Code, AllZero, Starved, Bits, SetRun;
      hide Short, Untouched, Delta;
      UntouchedYet(lens, lo, hi);
      var c := ReadSymbol(h, pre);
      assert lens[lo..hi] == old(lens[lo..hi]) && lens[..] == old(lens[..]);
      TreeFails(pre, f, old(f.pos), old(lens[lo..hi]), i - lo);
      if f.err.Some? {
        ErrorKinds(f.err);
        return Err(f.err.value), i;
      }
      TreeGoesOn(pre, f.bits, old(f.pos), old(lens[lo..hi]), i - lo, c, f.pos);
      c := c % 256;
      if c <= 16 {
        DeltaStep(lens, lo, hi, i, c);
        return Ok, i + 1;
      }
      r, next := RunStep(h, pre, lens, lo, hi, i, c);
    }

    /** The codes for runs. */
    method RunStep(h: Table, ghost pre: seq<nat>, lens: array<nat>, lo: nat, hi: nat, i: nat, c: nat)
      returns (r: Status, next: nat)
      requires f.Valid() && f.err.None? && f.Aligned() && 16 < c < PRETREE
      requires Decodes(h, pre) && |pre| == PRETREE && !AllZero(pre)
      requires lo <= i < hi <= lens.Length && lens as object != f.b && Short(lens[lo..hi])
      modifies f, f.b, f.src, lens
      ensures f.Valid() && (f.err.None? ==> f.Aligned())
      ensures Short(lens[lo..hi]) && Untouched(lens, lo, hi, old(lens[..]))
      ensures r.Ok? ==> i < next <= hi
      ensures next >= lo
      ensures var spec :=
                if c == 17 then ZeroRun(pre, f.bits, old(lens[lo..hi]), i - lo, Bits(f.bits, old(f.pos), 4), 4)
                else if c == 18 then ZeroRun(pre, f.bits, old(lens[lo..hi]), i - lo, Bits(f.bits, old(f.pos), 5), 20)
                else SameRun(pre, f.bits, old(lens[lo..hi]), i - lo, Bits(f.bits, old(f.pos), 1));
              Steps(spec, pre, f, r, f.err, f.pos, lens[lo..hi], next - lo)
      ensures f.src.fills && f.Spoilt() ==> old(f.Spoilt())
    {
      hide Reader.Spoilt, BitsOf, Reader.Refines, Decodes, ZeroRun, SameRun;
      hide TreeFrom, Code, AllZero, Starved, Bits, Short, Untouched;
      if c == 17 {
        r, next := ZeroRunStep(pre, lens, lo, hi, i, 4, 4);
      } else if c == 18 {
        r, next := ZeroRunStep(pre, lens, lo, hi, i, 5, 20);
      } else {
        r, next := SameRunStep(h, pre, lens, lo, hi, i);
      }
    }

    /** readTree. A pre-tree that is neither empty nor complete is a nil dereference. */
    method ReadTree(lens: array<nat>, lo: nat, hi: nat) returns (r: Status)
      requires f.Valid() && (f.err.None? ==> f.Aligned())
      requires lo < hi <= lens.Length && lens as object != f.b && Short(lens[lo..hi])
      modifies f, f.b, f.src, lens
      ensures f.Valid() && (f.err.None? ==> f.Aligned())
      ensures Short(lens[lo..hi]) && Untouched(lens, lo, hi, old(lens[..]))
      ensures old(f.err).Some? ==> !r.Ok? && !r.Panicked? && f.err == old(f.err) && f.lost == old(f.lost)
      ensures old(f.err).None? ==> Agrees(r, f.err, Tree(f.bits, old(f.pos), old(lens[lo..hi])), f)
      ensures r.Ok? ==> Tree(f.bits, old(f.pos), old(lens[lo..hi])) == Done(lens[lo..hi], f.pos)
      ensures f.src.fills && f.Spoilt() ==> old(f.Spoilt())
    {
      hide Reader.Spoilt, BitsOf, Reader.Cached, Peek, Pow2, Decodes, TreeFrom, Fields;
      var pre := ReadFields(4, PRETREE);
      if f.err.Some? {
        return Err(f.err.value);
      }
      assert Lengths(pre) by { Pow2Values(); }
      var h := BuildTable(pre);
      if h.None? {
        return Panicked;
      }
      var i := lo;
      ghost var spec := TreeFrom(pre, f.bits, f.pos, lens[lo..hi], 0);
      while i < hi && f.err.None?
        invariant f.Valid() && (f.err.None? ==> f.Aligned()) && lo <= i <= hi
        invariant Short(lens[lo..hi]) && Untouched(lens, lo, hi, old(lens[..]))
        invariant f.err != Some(Corrupt) && (f.src.fills && f.Spoilt() ==> old(f.Spoilt()))
        invariant f.err == Some(UnexpectedEOF) ==> Starved(spec, f)
        invariant f.err.None? ==> spec == TreeFrom(pre, f.bits, f.pos, lens[lo..hi], i - lo)
        decreases hi - i
      {
        r, i := TreeStep(h.value, pre, lens, lo, hi, i);
        if !r.Ok? {
          return;
        }
      }
      if f.err.Some? {
        return Err(f.err.value);
      }
      TreeDone(pre, f.bits, f.pos, lens[lo..hi]);
      return Ok;
    }

    /** The two parts of the main tree and its table. */
    method ReadMainTree() returns (r: Status, h: Table)
      requires Apart() && f.Valid() && (f.err.None? ==> f.Aligned()) && Short(mainlens[..])
      modifies f, f.b, f.src, mainlens
      ensures f.Valid() && (f.err.None? ==> f.Aligned()) && Short(mainlens[..])
      ensures old(f.err).Some? ==> !r.Ok? && !r.Panicked? && f.err == old(f.err) && f.lost == old(f.lost)
      ensures old(f.err).None? ==> Agrees(r, f.err, MainTree(f.bits, old(f.pos), old(mainlens[..])), f)
      ensures r.Ok? ==> Decodes(h, mainlens[..]) &&
                        MainTree(f.bits, old(f.pos), old(mainlens[..])) == Done(mainlens[..], f.pos)
      ensures f.src.fills && f.Spoilt() ==> old(f.Spoilt())
    {
      hide Reader.Spoilt, BitsOf, Reader.Cached, Decodes, Tree;
      h := Table(0, [], []);
      ghost var before := mainlens[..];
      assert mainlens[0..MAIN_SPLIT] == before[..MAIN_SPLIT];
      r := ReadTree(mainlens, 0, MAIN_SPLIT);
      if !r.Ok? {
        return;
      }
      ghost var low := mainlens[0..MAIN_SPLIT];
      assert mainlens[MAIN_SPLIT..MAIN_CODES] == before[MAIN_SPLIT..];
      r := ReadTree(mainlens, MAIN_SPLIT, MAIN_CODES);
      if !r.Ok? {
        return;
      }
      assert mainlens[..] == low + mainlens[MAIN_SPLIT..MAIN_CODES];
      var t := BuildTable(mainlens[..]);
      if t.None? {
        return Err(Corrupt), h;
      }
      h := t.value;
    }

    method ReadLengthTree() returns (r: Status, h: Table)
      requires Apart() && f.Valid() && (f.err.None? ==> f.Aligned()) && Short(lenlens[..])
      modifies f, f.b, f.src, lenlens
      ensures f.Valid() && (f.err.None? ==> f.Aligned()) && Short(lenlens[..])
      ensures old(f.err).Some? ==> !r.Ok? && !r.Panicked? && f.err == old(f.err) && f.lost == old(f.lost)
      ensures old(f.err).None? ==> Agrees(r, f.err, LengthTree(f.bits, old(f.pos), old(lenlens[..])), f)
      ensures r.Ok? ==> Decodes(h, lenlens[..]) &&
                        LengthTree(f.bits, old(f.pos), old(lenlens[..])) == Done(lenlens[..], f.pos)
      ensures f.src.fills && f.Spoilt() ==> old(f.Spoilt())
    {
      hide Reader.Spoilt, BitsOf, Reader.Cached, Decodes, Tree;
      h := Table(0, [], []);
      assert lenlens[0..LENGTH_CODES] == lenlens[..];
      r := ReadTree(lenlens, 0, LENGTH_CODES);
      assert lenlens[0..LENGTH_CODES] == lenlens[..];
      if !r.Ok? {
        return;
      }
      var t := BuildTable(lenlens[..]);
      if t.None? {
        return Err(Corrupt), h;
      }
      h := t.value;
    }

    /** The eight aligned-offset code lengths; read errors surface later. */
    method ReadAlignedTree() returns (r: Status, h: Table, ghost lens: seq<nat>)
      requires f.Valid() && f.err.None? && f.Aligned()
      modifies f, f.b, f.src
      ensures f.Valid() && (f.err.None? ==> f.Aligned()) && f.err != Some(Corrupt)
      ensures r == Ok || r == Err(Corrupt)
      ensures r.Ok? ==> Decodes(h, lens) && |lens| == 8
      ensures f.err == Some(UnexpectedEOF) ==> Starved(AlignedTree(f.bits, old(f.pos)), f)
      ensures f.err.None? ==> AlignedTree(f.bits, old(f.pos)) == if r.Ok? then Done(lens, f.pos) else Bad(CorruptData)
      ensures f.src.fills && f.Spoilt() ==> old(f.Spoilt())
    {
      hide Reader.Spoilt, BitsOf, Reader.Cached, Decodes, Fields;
      var alignedLen := ReadFields(3, 8);
      assert Lengths(alignedLen) by { Pow2Values(); }
      var t := BuildTable(alignedLen);
      lens := alignedLen;
      if t.None? {
        return Err(Corrupt), Table(0, [], []), lens;
      }
      return Ok, t.value, lens;
    }

    /** Whether tables decode the trees of a block. */
    static ghost predicate TablesFor(main: Table, length: Table, aligned: Option<Table>, t: Trees) {
      && |t.main| == MAIN_CODES && |t.length| == LENGTH_CODES
      && Decodes(main, t.main) && Decodes(length, t.length)
      && (aligned.Some? <==> t.aligned.Some?)
      && (aligned.Some? ==> Decodes(aligned.value, t.aligned.value) && |t.aligned.value| == 8)
    }

    /** readTrees. */
    method ReadTrees(
      readAligned: bool)
      returns (r: Status, main: Table, length: Table, aligned: Option<Table>, ghost t: Trees)
      requires Apart() && f.Valid() && f.err.None? && f.Aligned() && Short(mainlens[..]) && Short(lenlens[..])
      modifies f, f.b, f.src, mainlens, lenlens
      ensures f.Valid() && (f.err.None? ==> f.Aligned()) && Short(mainlens[..]) && Short(lenlens[..])
      ensures Agrees(r, f.err, BlockTrees(f.bits, old(f.pos), readAligned, old(mainlens[..]), old(lenlens[..])), f)
      ensures r.Ok? ==>
                && TablesFor(main, length, aligned, t)
                && t.main == mainlens[..] && t.length == lenlens[..]
                && BlockTrees(f.bits, old(f.pos), readAligned, old(mainlens[..]), old(lenlens[..])) == Done(t, f.pos)
      ensures f.src.fills && f.Spoilt() ==> old(f.Spoilt())
    {
      hide Reader.Spoilt, BitsOf, Reader.Cached, Decodes, MainTree, LengthTree, AlignedTree;
      aligned, length, t := None, Table(0, [], []), Trees([], [], None);
      main := length;
      if readAligned {
        var h;
        ghost var lens;
        r, h, lens := ReadAlignedTree();
        if !r.Ok? {
          return;
        }
        aligned, t := Some(h), Trees([], [], Some(lens));
      }
      r, main := ReadMainTree();
      if !r.Ok? {
        return;
      }
      r, length := ReadLengthTree();
      t := Trees(mainlens[..], lenlens[..], t.aligned);
    }

    // ---- compressed blocks

    method ReadMatchLength(length: Table, ghost t: Trees, low: nat) returns (n: nat)
      requires f.Valid() && f.err.None? && f.Aligned() && Decodes(length, t.length)
      modifies f, f.b, f.src
      ensures f.Valid() && (f.err.None? ==> f.Aligned())
      ensures f.err.None? ==> MatchLength(t, f.bits, old(f.pos), low) == Done(n, f.pos)
      ensures f.err == Some(Corrupt) ==> MatchLength(t, f.bits, old(f.pos), low) == Bad(CorruptData)
      ensures f.err == Some(UnexpectedEOF) ==> Starved(MatchLength(t, f.bits, old(f.pos), low), f)
      ensures f.src.fills && f.Spoilt() ==> old(f.Spoilt())
    {
      hide Reader.Spoilt, BitsOf, Reader.Cached, Reader.Buffered, Decodes, Peek, Code, AllZero;
      n := low;
      if n == 7 {
        var v := ReadSymbol(length, t.length);
        n := n + v;
      }
      n := n + 2;
    }

    /** The offset an explicit slot encodes. */
    method ReadOffset(slot: nat, aligned: Option<Table>, ghost t: Trees) returns (o: nat)
      requires f.Valid() && (f.err.None? ==> f.Aligned()) && 3 <= slot < 30
      requires aligned.Some? <==> t.aligned.Some?
      requires aligned.Some? ==> Decodes(aligned.value, t.aligned.value)
      modifies f, f.b, f.src
      ensures f.Valid() && (f.err.None? ==> f.Aligned())
      ensures old(f.err).Some? ==> f.err == old(f.err) && f.lost == old(f.lost)
      ensures f.err.None? ==> MatchDistance(t, f.bits, old(f.pos), slot) == Done(Explicit(o), f.pos)
      ensures old(f.err).None? && f.err == Some(Corrupt) ==>
                MatchDistance(t, f.bits, old(f.pos), slot) == Bad(CorruptData)
      ensures old(f.err).None? && f.err == Some(UnexpectedEOF) ==>
                Starved(MatchDistance(t, f.bits, old(f.pos), slot), f)
      ensures f.src.fills && f.Spoilt() ==> old(f.Spoilt())
    {
      hide Reader.Spoilt, BitsOf, Reader.Cached, Reader.Buffered, Reader.Dry, Decodes, Peek, Code, Pow2;
      var offsetbits := FOOTER_BITS[slot];
      var verbatimbits, alignedbits := 0, 0;
      if aligned.Some? && offsetbits >= 3 {
        verbatimbits := f.GetBits(offsetbits - 3);
        verbatimbits := verbatimbits * 8;
        alignedbits := ReadSymbol(aligned.value, t.aligned.value);
      } else {
        verbatimbits := f.GetBits(offsetbits);
      }
      o := BASE_POSITION[slot] + verbatimbits + alignedbits - 2;
    }

    /** The offset of a match, and the repeat cache it leaves. */
    method MatchOffset(slot: nat, aligned: Option<Table>, ghost t: Trees) returns (o: nat, ghost d: Distance)
      requires f.Valid() && (f.err.None? ==> f.Aligned()) && slot < 30 && |lru| == 3
      requires aligned.Some? <==> t.aligned.Some?
      requires aligned.Some? ==> Decodes(aligned.value, t.aligned.value)
      modifies f, f.b, f.src, this`lru
      ensures f.Valid() && (f.err.None? ==> f.Aligned()) && |lru| == 3
      ensures old(f.err).Some? ==> f.err == old(f.err) && f.lost == old(f.lost)
      ensures d.Repeat? ==> d.slot < 3
      ensures o == Offset(old(lru), d) && lru == Touch(old(lru), d)
      ensures f.err.None? ==> MatchDistance(t, f.bits, old(f.pos), slot) == Done(d, f.pos)
      ensures old(f.err).None? && f.err == Some(Corrupt) ==>
                MatchDistance(t, f.bits, old(f.pos), slot) == Bad(CorruptData)
      ensures old(f.err).None? && f.err == Some(UnexpectedEOF) ==>
                Starved(MatchDistance(t, f.bits, old(f.pos), slot), f)
      ensures f.src.fills && f.Spoilt() ==> old(f.Spoilt())
    {
      hide Reader.Spoilt, BitsOf, Reader.Cached, Decodes, Peek;
      if slot < 3 {
        o, d := lru[slot], Repeat(slot);
        lru := lru[slot := lru[0]];
        lru := lru[0 := o];
      } else {
        o := ReadOffset(slot, aligned, t);
        d := Explicit(o);
        lru := lru[2 := lru[1]];
        lru := lru[1 := lru[0]];
        lru := lru[0 := o];
      }
    }

    /** The byte-by-byte copy, source and target overlapping. */
    method CopyMatch(i: nat, offset: nat, n: nat)
      requires offset <= i && i + n <= window.Length
      modifies window
      ensures window[..] == Extend(old(window[..]), i, offset, n)
    {
      hide CopiedByte;
      if offset == 0 {
        NothingCopied(window[..], i, n);
      }
      for j := 0 to n
        invariant forall k | 0 <= k < window.Length && !(i <= k < i + j) :: window[k] == old(window[k])
        invariant forall k: nat | k < j :: window[i + k] == CopiedByte(old(window[..]), i, offset, k)
      {
        if offset > 0 {
          CopiedPeriod(old(window[..]), i, offset, j);
        }
        window[i + j] := window[i + j - offset];
      }
    }

    /** readCompressedBlock. */
    method ReadCompressedBlock(start: nat, end: nat, main: Table, length: Table, aligned: Option<Table>, ghost t: Trees)
      returns (n: nat, r: Status)
      requires Apart() && f.Valid() && f.err.None? && f.Aligned() && TablesFor(main, length, aligned, t)
      requires start <= end <= WINDOW && |lru| == 3
      modifies f, f.b, f.src, window, this`lru
      ensures f.Valid() && (f.err.None? ==> f.Aligned()) && |lru| == 3
      ensures Agrees(r, f.err, BlockFrom(t, f.bits, old(f.pos), Decoded(old(window[..]), old(lru)), start, end), f)
      ensures r.Ok? ==>
                && n == end - start
                && BlockFrom(t, f.bits, old(f.pos), Decoded(old(window[..]), old(lru)), start, end) ==
                   Done(Decoded(window[..], lru), f.pos)
      ensures f.src.fills && f.Spoilt() ==> old(f.Spoilt())
    {
      hide Reader.Spoilt, BitsOf, Reader.Cached, Decodes, BlockFrom, NextToken;
      var i := start;
      ghost var spec := BlockFrom(t, f.bits, f.pos, Decoded(window[..], lru), start, end);
      while i < end && f.err.None?
        invariant f.Valid() && (f.err.None? ==> f.Aligned()) && |lru| == 3 && start <= i <= end
        invariant f.err.None? ==> spec == BlockFrom(t, f.bits, f.pos, Decoded(window[..], lru), i, end)
        invariant f.err == Some(Corrupt) ==> spec == Bad(CorruptData)
        invariant f.err == Some(UnexpectedEOF) ==> Starved(spec, f)
        invariant f.src.fills && f.Spoilt() ==> old(f.Spoilt())
        decreases end - i, f.err.None?
      {
        i := Step(i, end, main, length, aligned, t);
      }
      if f.err.None? {
        BlockDone(t, f.bits, f.pos, Decoded(window[..], lru), end);
      }
      n := i - start;
      r := if f.err.None? then Ok else Err(f.err.value);
    }

    /** One token: a literal byte, or a match backward in the window. */
    method Step(
      i: nat, end: nat, main: Table, length: Table, aligned: Option<Table>, ghost t: Trees)
      returns (next: nat)
      requires Apart() && f.Valid() && f.err.None? && f.Aligned() && TablesFor(main, length, aligned, t)
      requires i < end <= WINDOW && |lru| == 3
      modifies f, f.b, f.src, window, this`lru
      ensures f.Valid() && (f.err.None? ==> f.Aligned()) && |lru| == 3
      ensures i <= next <= end && (f.err.None? ==> i < next)
      ensures f.err.None? ==>
                BlockFrom(t, f.bits, old(f.pos), Decoded(old(window[..]), old(lru)), i, end) ==
                BlockFrom(t, f.bits, f.pos, Decoded(window[..], lru), next, end)
      ensures f.err == Some(Corrupt) ==>
                BlockFrom(t, f.bits, old(f.pos), Decoded(old(window[..]), old(lru)), i, end) == Bad(CorruptData)
      ensures f.err == Some(UnexpectedEOF) ==>
                Starved(BlockFrom(t, f.bits, old(f.pos), Decoded(old(window[..]), old(lru)), i, end), f)
      ensures f.src.fills && f.Spoilt() ==> old(f.Spoilt())
    {
      hide Reader.Spoilt, BitsOf, Reader.Cached, Reader.Buffered, Decodes, Peek, Code, Extend, BlockFrom, NextToken;
      hide Starved;
      var c := ReadSymbol(main, t.main);
      CodeFails(t, f, old(f.pos), Decoded(window[..], lru), i, end);
      if f.err.Some? {
        return i;
      }
      if c < 256 {
        LiteralStep(t, f.bits, old(f.pos), Decoded(window[..], lru), i, end, c, f.pos);
        window[i] := c;
        assert window[..] == old(window[..])[i := c];
        return i + 1;
      }
      next := MatchStep(i, end, c, length, aligned, t, old(f.pos));
    }

    /** A match, whose code has been read at p. */
    method MatchStep(
      i: nat, end: nat, c: nat, length: Table, aligned: Option<Table>, ghost t: Trees, ghost p: nat)
      returns (next: nat)
      requires Apart() && f.Valid() && f.err.None? && f.Aligned() && 256 <= c < MAIN_CODES
      requires |t.main| == MAIN_CODES && Decodes(length, t.length) && (aligned.Some? <==> t.aligned.Some?)
      requires aligned.Some? ==> Decodes(aligned.value, t.aligned.value)
      requires Code(t.main, f.bits, p) == Done(c, f.pos)
      requires i < end <= WINDOW && |lru| == 3
      modifies f, f.b, f.src, window, this`lru
      ensures f.Valid() && (f.err.None? ==> f.Aligned()) && |lru| == 3
      ensures i <= next <= end && (f.err.None? ==> i < next)
      ensures f.err.None? ==>
                BlockFrom(t, f.bits, p, Decoded(old(window[..]), old(lru)), i, end) ==
                BlockFrom(t, f.bits, f.pos, Decoded(window[..], lru), next, end)
      ensures f.err == Some(Corrupt) ==>
                BlockFrom(t, f.bits, p, Decoded(old(window[..]), old(lru)), i, end) == Bad(CorruptData)
      ensures f.err == Some(UnexpectedEOF) ==>
                Starved(BlockFrom(t, f.bits, p, Decoded(old(window[..]), old(lru)), i, end), f)
      ensures f.src.fills && f.Spoilt() ==> old(f.Spoilt())
    {
      hide Reader.Spoilt, BitsOf, Reader.Cached, Reader.Buffered, Decodes, Peek, Code, MatchLength, MatchDistance;
      hide Extend;
      next := i;
      var slot := (c - 256) / 8;
      var matchlen := ReadMatchLength(length, t, (c - 256) % 8);
      ghost var d;
      var matchoffset;
      matchoffset, d := MatchOffset(slot, aligned, t);
      if !(matchoffset <= i && matchlen <= end - i) {
        f.Fail(Corrupt);
        return;
      }
      CopyMatch(i, matchoffset, matchlen);
      next := i + matchlen;
    }

    // ---- blocks

    /** Between blocks, with no error so far. */
    ghost predicate Ready()
      reads this, f, f.b, f.src, mainlens, lenlens, window
    {
      && Apart() && f.Valid() && f.err.None? && |lru| == 3
      && Short(mainlens[..]) && Short(lenlens[..])
      && (if unaligned then f.nbits == 0 && !f.Aligned() else f.Aligned())
    }

    ghost function State(): Chunk
      reads this, mainlens, lenlens, window
    {
      Chunk(unaligned, mainlens[..], lenlens[..], Decoded(window[..], lru))
    }

    /** What readBlockHeader reads before it looks at the block type. */
    method ReadTypeAndSize() returns (r: Status, kind: nat, size: nat)
      requires f.Valid() && f.err.None? && f.Aligned()
      modifies f, f.b, f.src
      ensures f.Valid() && (f.err.None? ==> f.Aligned()) && f.err != Some(Corrupt) && !r.Panicked?
      ensures r.Ok? ==>
                && f.err.None? && size <= WINDOW && old(f.pos) + 4 <= f.pos <= |f.bits|
                && kind == Peek(f.bits, old(f.pos), 3)
                && if Peek(f.bits, old(f.pos) + 3, 1) != 0 then size == WINDOW && f.pos == old(f.pos) + 4
                   else f.pos == old(f.pos) + 20 && size == Peek(f.bits, old(f.pos) + 4, 16)
      ensures f.err == Some(UnexpectedEOF) ==>
                || f.lost || |f.bits| < old(f.pos) + 4
                || (|f.bits| < old(f.pos) + 20 && Peek(f.bits, old(f.pos) + 3, 1) == 0)
      ensures r.Ok? ==> (f.nbits > 16 <==> old(f.nbits) > 20 && Peek(f.bits, old(f.pos) + 3, 1) != 0)
      ensures old(f.nbits) > 20 ==>
                old(f.pos) + 4 <= |f.bits| && (Peek(f.bits, old(f.pos) + 3, 1) != 0 ==> r.Ok?)
      ensures r.Err? && Clean(f.err) ==> r == Err(Corrupt)
      ensures r == Err(Corrupt) && Clean(f.err) ==>
                && old(f.pos) + 20 <= |f.bits| && Peek(f.bits, old(f.pos) + 3, 1) == 0
                && Peek(f.bits, old(f.pos) + 4, 16) > WINDOW
      ensures f.src.fills && f.Spoilt() ==> old(f.Spoilt())
      ensures f.src.fills && r.Ok? && f.fed < old(f.Edge()) ==> f.Edge() == old(f.Edge())
    {
      hide Reader.Edge, Reader.Spoilt, BitsOf, Reader.Cached, Peek, Pow2;
      f.CachedBits();
      kind := f.GetBits(3);
      var full := f.GetBits(1);
      if full != 0 {
        size := WINDOW;
      } else {
        size := f.GetBits(16);
        if size > WINDOW {
          return Err(Corrupt), kind, size;
        }
      }
      r := if f.err.None? then Ok else Err(f.err.value);
    }

    /** Aligns to the byte stream and loads the repeat cache of an uncompressed
        block. More than sixteen buffered bits cannot be given back. */
    method ReadStoredHeader(ghost size: nat) returns (r: Status)
      requires Apart() && f.Valid() && f.err.None? && f.Aligned() && |lru| == 3
      modifies f, f.b, f.src, this`lru
      ensures |lru| == 3 && !r.Panicked?
      ensures r.Ok? ==>
                && f.Valid() && f.err.None? && f.nbits == 0 && f.pos == 8 * f.fed <= 8 * |f.src.data| && f.Aligned()
                && HeaderTail(f.src.data, f.bits, old(f.pos), UNCOMPRESSED, size, old(lru)) ==
                   Done(Header(UNCOMPRESSED, size, lru), f.pos)
      ensures r == Err(Corrupt) <==> old(f.nbits) > 16
      ensures r == Err(Corrupt) ==> f.nbits == old(f.nbits)
      ensures r.Err? && r != Err(Corrupt) ==>
                || f.src.Broke()
                || f.lost
                || HeaderTail(f.src.data, f.bits, old(f.pos), UNCOMPRESSED, size, old(lru)).Bad?
      ensures f.src.fills && f.Spoilt() ==>
                || old(f.Spoilt())
                || Late(f.src.data, HeaderTail(f.src.data, f.bits, old(f.pos), UNCOMPRESSED, size, old(lru)))
      ensures r.Ok? ==> f.fed >= old(f.fed)
      ensures f.src.fills && r.Ok? && f.fed < old(f.Edge()) ==> f.fed < f.src.at && f.Edge() == old(f.Edge())
      ensures f.src.fills &&
              CutHeader(f.src.data, HeaderTail(f.src.data, f.bits, old(f.pos), UNCOMPRESSED, size, old(lru)),
                        old(f.Edge())) ==>
                !r.Ok?
    {
      hide Reader.Edge, BitsOf, Peek, Pow2, Reader.Cached;
      hide Reader.Buffered, Reader.Dry, Source.Broke, LowHalf, HeaderTail;
      BitsLength(f.src.data);
      if f.nbits > 16 {
        return Err(Corrupt);
      }
      var n := f.nbits;
      if n == 0 {
        n := 16;
      }
      StoredTail(f.src.data, f.bits, f.pos, f.nbits, f.fed, size, lru);
      var _ := f.GetBits(n);
      ErrorKinds(f.err);
      var got, cache := f.ReadCache();
      if got != Filled {
        return Err(if got == OutOfBytes then UnexpectedEOF else ReadFailed);
      }
      lru := cache;
      r := Ok;
    }

    /** What follows type and size, by type. */
    method ReadTail(kind: nat, size: nat) returns (r: Status)
      requires Ready() && !unaligned
      modifies f, f.b, f.src, this`lru
      ensures |lru| == 3 && !r.Panicked?
      ensures r.Ok? ==>
                && Ready()
                && HeaderTail(f.src.data, f.bits, old(f.pos), kind, size, old(lru)) ==
                   Done(Header(kind, size, lru), f.pos)
                && (kind == UNCOMPRESSED ==> f.nbits == 0 && f.pos == 8 * f.fed <= 8 * |f.src.data|)
      ensures kind == UNCOMPRESSED && old(f.nbits) > 16 ==> r == Err(Corrupt)
      ensures r == Err(Corrupt) ==>
                || HeaderTail(f.src.data, f.bits, old(f.pos), kind, size, old(lru)) == Bad(CorruptData)
                || (kind == UNCOMPRESSED && old(f.nbits) > 16)
      ensures r.Err? ==>
                || f.src.Broke()
                || f.lost
                || HeaderTail(f.src.data, f.bits, old(f.pos), kind, size, old(lru)).Bad?
                || (kind == UNCOMPRESSED && old(f.nbits) > 16)
      ensures f.src.fills && f.Spoilt() ==>
                || old(f.Spoilt())
                || Late(f.src.data, HeaderTail(f.src.data, f.bits, old(f.pos), kind, size, old(lru)))
      ensures r.Ok? ==> f.fed >= old(f.fed)
      ensures f.src.fills && r.Ok? && kind == UNCOMPRESSED && f.fed < old(f.Edge()) ==>
                f.fed < f.src.at && f.Edge() == old(f.Edge())
      ensures f.src.fills &&
              CutHeader(f.src.data, HeaderTail(f.src.data, f.bits, old(f.pos), kind, size, old(lru)), old(f.Edge())) ==>
                !r.Ok?
    {
      hide BitsOf, Reader.Cached, Peek, Reader.Edge, Reader.Spoilt;
      BitsLength(f.src.data);
      if kind == VERBATIM || kind == ALIGNED {
        HeaderKinds(f.src.data, f.bits, f.pos, kind, size, lru);
        return Ok;
      }
      hide HeaderTail;
      if kind == UNCOMPRESSED {
        r := ReadStoredHeader(size);
        return;
      }
      HeaderKinds(f.src.data, f.bits, f.pos, kind, size, lru);
      r := Err(Corrupt);
    }

    /** A header that starts at the position reached. */
    method ReadHeaderHere() returns (r: Status, kind: nat, size: nat)
      requires Ready() && !unaligned
      modifies f, f.b, f.src, this`lru
      ensures |lru| == 3 && !r.Panicked?
      ensures r.Ok? ==>
                && Ready()
                && BlockHeader(f.src.data, f.bits, old(f.pos), false, old(lru)) == Done(Header(kind, size, lru), f.pos)
                && (kind == UNCOMPRESSED ==> f.nbits == 0 && f.pos == 8 * f.fed <= 8 * |f.src.data|)
      ensures old(f.nbits) > 20 && FullStored(f.bits, old(f.pos)) ==> r == Err(Corrupt)
      ensures r == Err(Corrupt) && Clean(f.err) ==>
                || BlockHeader(f.src.data, f.bits, old(f.pos), false, old(lru)) == Bad(CorruptData)
                || (old(f.nbits) > 20 && FullStored(f.bits, old(f.pos)))
      ensures r.Err? ==>
                || f.src.Broke()
                || f.lost
                || BlockHeader(f.src.data, f.bits, old(f.pos), false, old(lru)).Bad?
                || (old(f.nbits) > 20 && FullStored(f.bits, old(f.pos)))
      ensures f.src.fills && f.Spoilt() ==>
                || old(f.Spoilt())
                || Late(f.src.data, BlockHeader(f.src.data, f.bits, old(f.pos), false, old(lru)))
      ensures f.src.fills && r.Ok? && kind == UNCOMPRESSED && f.fed < old(f.Edge()) ==>
                f.fed < f.src.at && f.Edge() == old(f.Edge())
      ensures f.src.fills &&
              CutHeader(f.src.data, BlockHeader(f.src.data, f.bits, old(f.pos), false, old(lru)), old(f.Edge())) ==>
                !r.Ok?
    {
      hide BlockHeader, Reader.Edge, Reader.Spoilt, BitsOf, Reader.Cached, Peek, HeaderTail;
      hide CutHeader, Late;
      BitsLength(f.src.data);
      r, kind, size := ReadTypeAndSize();
      if !r.Ok? {
        ErrorKinds(f.err);
        HeaderFails(f.src.data, f.bits, old(f.pos), lru);
        return;
      }
      HeaderGoesOn(f.src.data, f.bits, old(f.pos), lru, f.pos, size);
      CacheIsAhead(f.src.data, f.bits, f.pos, f.nbits, f.fed, kind, size, lru, old(f.Edge()));
      r := ReadTail(kind, size);
    }

    /** readBlockHeader. */
    method ReadBlockHeader() returns (r: Status, kind: nat, size: nat)
      requires Ready()
      modifies f, f.b, f.src, this`lru, this`unaligned
      ensures |lru| == 3 && !r.Panicked?
      ensures r.Ok? ==>
                && Ready() && !unaligned
                && BlockHeader(f.src.data, f.bits, old(f.pos), old(unaligned), old(lru)) ==
                   Done(Header(kind, size, lru), f.pos)
                && (kind == UNCOMPRESSED ==> f.nbits == 0 && f.pos == 8 * f.fed <= 8 * |f.src.data|)
      ensures old(f.nbits) > 20 && FullStored(f.bits, old(f.pos)) ==> r == Err(Corrupt)
      ensures r == Err(Corrupt) && Clean(f.err) ==>
                || BlockHeader(f.src.data, f.bits, old(f.pos), old(unaligned), old(lru)) == Bad(CorruptData)
                || (old(f.nbits) > 20 && FullStored(f.bits, old(f.pos)))
      ensures r.Err? ==>
                || f.src.Broke()
                || f.lost
                || BlockHeader(f.src.data, f.bits, old(f.pos), old(unaligned), old(lru)).Bad?
                || (old(f.nbits) > 20 && FullStored(f.bits, old(f.pos)))
      ensures f.src.fills && f.Spoilt() ==>
                || old(f.Spoilt())
                || (old(unaligned) && old(f.fed) + BUFFER_SIZE + 1 == |f.src.data|)
                || Late(f.src.data, BlockHeader(f.src.data, f.bits, old(f.pos), old(unaligned), old(lru)))
      ensures f.src.fills && !old(unaligned) && r.Ok? && kind == UNCOMPRESSED && f.fed < old(f.Edge()) ==>
                f.fed < f.src.at && f.Edge() == old(f.Edge())
      ensures f.src.fills && !old(unaligned) &&
              CutHeader(f.src.data, BlockHeader(f.src.data, f.bits, old(f.pos), false, old(lru)), old(f.Edge())) ==>
                !r.Ok?
    {
      hide Reader.Edge, Reader.Spoilt, BitsOf, Reader.Cached, Peek, HeaderTail, CutHeader, Late;
      hide BlockHeader, FullStored;
      kind, size := 0, 0;
      if unaligned {
        var got := f.SkipByte();
        if got != Filled {
          return Err(if got == OutOfBytes then UnexpectedEOF else ReadFailed), 0, 0;
        }
        unaligned := false;
        SkippedByte(f.src.data, f.bits, old(f.pos), lru);
      }
      r, kind, size := ReadHeaderHere();
    }

    /** The body of an uncompressed block. */
    method ReadStored(start: nat, size: nat, ghost before: Chunk, ghost h: Header) returns (r: Status)
      requires Ready() && !unaligned && f.nbits == 0 && f.pos == 8 * f.fed <= 8 * |f.src.data| && f.pos % 8 == 0
      requires start + size <= WINDOW && ChunkOk(before) && before.d.window == window[..]
      requires before.main == mainlens[..] && before.length == lenlens[..]
      requires h == Header(UNCOMPRESSED, size, lru)
      modifies f, f.b, f.src, window, this`unaligned
      ensures r.Ok? ==>
                && Ready() && f.nbits == 0
                && StoredBlock(f.src.data, old(f.pos), h, before, start) == Done(AfterBlock(State(), size), f.pos)
      ensures r.Err? ==> f.src.Broke() || StoredBlock(f.src.data, old(f.pos), h, before, start).Bad?
      ensures !r.Panicked?
      ensures f.Spoilt() ==> old(f.Spoilt())
      ensures r.Ok? && old(f.fed) < old(f.src.at) && f.fed < old(f.Edge()) ==> f.Edge() == old(f.Edge())
    {
      hide Reader.Edge, Reader.Spoilt, BitsOf, Reader.Cached;
      if size % 2 == 1 {
        unaligned := true;
      }
      var got := f.CopyStored(window, start, size);
      if got != Filled {
        return Err(if got == OutOfBytes then UnexpectedEOF else ReadFailed);
      }
      assert window[..] == Splice(before.d.window, start, f.src.data[old(f.fed)..f.fed]);
      r := Ok;
    }

    /** The body of a verbatim or aligned-offset block. */
    method ReadCompressed(
      start: nat, size: nat, readAligned: bool, ghost before: Chunk, ghost h: Header)
      returns (r: Status)
      requires Ready() && !unaligned && f.pos <= |f.bits|
      requires start + size <= WINDOW && ChunkOk(before) && before.d.window == window[..]
      requires before.main == mainlens[..] && before.length == lenlens[..]
      requires h == Header(if readAligned then ALIGNED else VERBATIM, size, lru)
      modifies f, f.b, f.src, mainlens, lenlens, window, this`lru
      ensures r.Ok? ==>
                && Ready()
                && CompressedBlock(f.bits, old(f.pos), h, before, start) == Done(AfterBlock(State(), size), f.pos)
      ensures r.Panicked? ==> CompressedBlock(f.bits, old(f.pos), h, before, start) in {Bad(NilTree), Bad(Overrun)}
      ensures r.Err? ==> f.src.Broke() || Starved(CompressedBlock(f.bits, old(f.pos), h, before, start), f)
      ensures f.src.fills && f.Spoilt() ==> old(f.Spoilt())
    {
      hide Reader.Spoilt, BitsOf, Reader.Cached, Decodes, BlockTrees, BlockFrom;
      var main, length, aligned;
      ghost var t;
      r, main, length, aligned, t := ReadTrees(readAligned);
      if !r.Ok? {
        ErrorKinds(f.err);
        return;
      }
      var n;
      n, r := ReadCompressedBlock(start, start + size, main, length, aligned, t);
      ErrorKinds(f.err);
    }

    /** readBlock: the number of bytes decoded. Every block that can be parsed is decoded,
        unless the source breaks, bytes are lost, an odd byte is left over, or the header of
        a full-size stored block starts with more than twenty bits cached. A filling reader
        loses bytes only where its buffer ends at the wrong place. */
    method ReadBlock(start: nat) returns (n: nat, r: Status)
      requires Ready() && start <= WINDOW
      modifies f, f.b, f.src, mainlens, lenlens, window, this`lru, this`unaligned
      ensures r.Ok? ==>
                && Ready()
                && Block(f.src.data, f.bits, old(f.pos), old(State()), start) == Done(AfterBlock(State(), n), f.pos)
      ensures r.Panicked? ==> Block(f.src.data, f.bits, old(f.pos), old(State()), start) in {Bad(NilTree), Bad(Overrun)}
      ensures old(f.nbits) > 20 && FullStored(f.bits, old(f.pos)) ==> r == Err(Corrupt)
      ensures r.Err? ==>
                || f.src.Broke()
                || Starved(Block(f.src.data, f.bits, old(f.pos), old(State()), start), f)
                || (start == 0 && old(f.nbits) > 20 && FullStored(f.bits, old(f.pos)))
      ensures r.Ok? && StoredHere(f.src.data, f.bits, old(f.pos), old(State())) ==> f.nbits == 0
      ensures f.src.fills && f.Spoilt() ==>
                old(f.Spoilt()) || AtBufferEnd(f.src.data, f.bits, old(f.pos), old(State()))
      ensures f.src.fills && !old(unaligned) && r.Ok? &&
              StoredHere(f.src.data, f.bits, old(f.pos), old(State())) && f.fed < old(f.Edge()) ==>
                f.Edge() == old(f.Edge())
      ensures f.src.fills && !old(unaligned) &&
              CutHeader(f.src.data, BlockHeader(f.src.data, f.bits, old(f.pos), false, old(lru)), old(f.Edge())) ==>
                !r.Ok?
    {
      hide Reader.Edge, Reader.Spoilt, BitsOf, Reader.Cached, BlockHeader, CompressedBlock, StoredBlock, FullStored;
      var kind, size;
      ghost var before := State();
      FullOverruns(f.src.data, f.bits, f.pos, before, start);
      r, kind, size := ReadBlockHeader();
      n := size;
      if !r.Ok? {
        return;
      }
      ghost var h := Header(kind, size, lru);
      if start + size > WINDOW {
        return 0, Panicked;
      }
      if kind == UNCOMPRESSED {
        r := ReadStored(start, size, before, h);
      } else {
        r := ReadCompressed(start, size, kind == ALIGNED, before, h);
      }
    }

    /** The first Read: every block of the chunk, then the call translation. A chunk that
        can be parsed is decoded, with the exceptions of readBlock; a full-size stored block
        is one only after nothing but empty blocks. */
    method Decompress() returns (r: Status)
      requires Ready() && uncompressed <= WINDOW
      modifies f, f.b, f.src, mainlens, lenlens, window, this`lru, this`unaligned
      ensures var spec := Blocks(f.src.data, f.bits, old(f.pos), old(State()), 0, uncompressed);
              && (r.Ok? ==>
                    && spec.Done? && !f.lost
                    && window[..uncompressed] == E8.Translate(E8.Decode, spec.value.d.window[..uncompressed], 0))
              && (r.Panicked? ==> spec in {Bad(NilTree), Bad(Overrun)})
              && (r.Err? ==>
                    || f.src.Broke()
                    || Starved(spec, f)
                    || (uncompressed > 0
                        && EmptyThenFull(f.src.data, f.bits, old(f.pos), old(State()), old(f.nbits) > 20)))
              && (f.src.fills && f.lost ==>
                    || old(f.Spoilt())
                    || SomeAtBufferEnd(f.src.data, f.bits, old(f.pos), old(State()), 0, uncompressed))
              && (f.src.fills &&
                  Cut(f.src.data, f.bits, old(f.pos), old(State()), 0, uncompressed, old(f.Edge())) ==>
                    !r.Ok?)
    {
      hide BitsOf, Reader.Cached, Reader.Buffered, Source.Broke, Block, Blocks, EmptyThenFull;
      hide FullStored, Starved, StoredHere, AtBufferEnd;
      hide SomeAtBufferEnd, Reader.Edge, Cut, CutHeader, BlockHeader;
      var n: nat := 0;
      ghost var data, bits := f.src.data, f.bits;
      ghost var spec := Blocks(data, bits, f.pos, State(), 0, uncompressed);
      ghost var full := uncompressed > 0 && EmptyThenFull(data, bits, f.pos, State(), f.nbits > 20);
      ghost var edge := f.Edge();
      ghost var cut := f.src.fills && Cut(data, bits, f.pos, State(), 0, uncompressed, edge);
      ghost var atEnd := SomeAtBufferEnd(data, bits, f.pos, State(), 0, uncompressed);
      while n < uncompressed
        invariant Ready()
        invariant spec == Blocks(data, bits, f.pos, State(), n, uncompressed)
        invariant n == 0 < uncompressed && EmptyThenFull(data, bits, f.pos, State(), f.nbits > 20) ==> full
        invariant SomeAtBufferEnd(data, bits, f.pos, State(), n, uncompressed) ==> atEnd
        invariant f.src.fills && f.Spoilt() ==> old(f.Spoilt()) || atEnd
        invariant cut ==> f.Edge() == edge && Cut(data, bits, f.pos, State(), n, uncompressed, edge)
        decreases 8 * |data| - f.pos
      {
        var k;
        ghost var p, st, cached := f.pos, State(), f.nbits > 20;
        BlocksStep(data, bits, p, st, n, uncompressed);
        FullStep(data, bits, p, st, cached);
        BufferEndStep(data, bits, p, st, n, uncompressed);
        CutStep(data, bits, p, st, n, uncompressed, edge);
        assert bits == BitsOf(data);
        k, r := ReadBlock(n);
        if !r.Ok? {
          if Starved(Block(data, bits, p, st, n), f) {
            BlocksStarved(f, p, st, n, uncompressed);
          }
          return;
        }
        FullStep(data, bits, f.pos, State(), f.nbits > 20);
        n := n + k;
      }
      BlocksEnd(data, bits, f.pos, State(), n, uncompressed);
      CutStep(data, bits, f.pos, State(), n, uncompressed, edge);
      E8.DecodeE8(window, uncompressed, 0);
      r := Ok;
    }
  }

  /** What a new decompressor starts from. */
  function StartOfChunk(): (st: Chunk)
    ensures ChunkOk(st) && !st.unaligned
    ensures |st.main| == 496 && (forall i | 0 <= i < 496 :: st.main[i] == 0)
    ensures |st.length| == 249 && (forall i | 0 <= i < 249 :: st.length[i] == 0)
    ensures |st.d.window| == 32768 && st.d.lru == [1, 1, 1]
  {
    Chunk(false, seq(MAIN_CODES, _ => 0), seq(LENGTH_CODES, _ => 0), Decoded(seq(WINDOW, _ => 0), [1, 1, 1]))
  }

  /** NewReader and the first Read, as for each chunk of a resource. A reader that fills its
      buffer and does not break refuses a chunk that can be parsed only for an odd byte, a
      full stored block after empty ones, or a stored header or padding byte at the end of a
      buffer; so it decodes a chunk of compressed blocks without an odd byte if and only if
      that can be parsed. It does refuse a chunk that is cut at a stored header. */
  method Unpack(src: Source, size: nat) returns (r: Status, out: seq<Byte>)
    requires src.Valid() && src.at == 0 && size <= WINDOW
    modifies src
    ensures var spec := Blocks(src.data, BitsOf(src.data), 0, StartOfChunk(), 0, size);
            && (r.Ok? ==>
                  spec.Done? && out == E8.Translate(E8.Decode, spec.value.d.window[..size], 0))
            && (r.Panicked? ==> spec in {Bad(NilTree), Bad(Overrun)})
            && (src.fills && r.Err? && !src.Broke() && spec.Done? ==>
                  || (|src.data| % 2 == 1 && spec.at <= |BitsOf(src.data)| < spec.at + 16)
                  || (size > 0 && EmptyThenFull(src.data, BitsOf(src.data), 0, StartOfChunk(), false))
                  || SomeAtBufferEnd(src.data, BitsOf(src.data), 0, StartOfChunk(), 0, size))
            && (src.fills && |src.data| % 2 == 0 &&
                AllCompressed(src.data, BitsOf(src.data), 0, StartOfChunk(), 0, size) && !src.Broke() ==>
                  (r.Ok? <==> spec.Done?))
            && (src.fills &&
                Cut(src.data, BitsOf(src.data), 0, StartOfChunk(), 0, size, Least(BUFFER_SIZE, |src.data|)) ==>
                  !r.Ok?)
  {
    hide BitsOf, Blocks, AllCompressed, SomeAtBufferEnd, EmptyThenFull, Reader.Cached, Cut;
    var d := new Decompressor(src, size);
    assert d.State() == StartOfChunk();
    CompressedChunk(src.data, d.f.bits, StartOfChunk(), size);
    r := d.Decompress();
    out := d.window[..size];
  }

  // ---- a chunk that parses and is refused

  /** The first four bytes of a stored block that says its size. */
  function StoredStart(size: nat): (b: seq<Byte>)
    requires size <= WINDOW
    ensures |b| == 4
  {
    [size / 16 % 256, 0x60 + size / 4096, 0, 16 * (size % 16)]
  }

  /** What the fields of a header are, from its two words. */
  lemma FieldsOfWords(bits: seq<Bit>, pos: nat, size: nat)
    requires pos + 32 <= |bits| && size <= WINDOW
    requires Peek(bits, pos, 16) == 0x6000 + size / 16 && Peek(bits, pos + 16, 16) == 4096 * (size % 16)
    ensures Peek(bits, pos, 3) == UNCOMPRESSED && Peek(bits, pos + 3, 1) == 0 && Peek(bits, pos + 4, 16) == size
  {
    hide Peek, Shl;
    Pow2Values();
    PeekSplit(bits, pos, 4, 12);
    PeekSplit(bits, pos, 3, 1);
    PeekSplit(bits, pos + 4, 12, 4);
    PeekSplit(bits, pos + 16, 4, 12);
    PeekBound(bits, pos + 3, 1);
    PeekBound(bits, pos + 4, 12);
    PeekBound(bits, pos + 20, 12);
    Shl12(Peek(bits, pos, 4));
    Shl12(Peek(bits, pos + 16, 4));
    ShlValues(Peek(bits, pos, 3));
    ShlValues(Peek(bits, pos + 4, 12));
  }

  lemma Shl12(x: nat)
    ensures Shl(x, 12) == 4096 * x && Pow2(12) == 4096
  {
    ShlShl(x, 8, 4);
    ShlValues(x);
    ShlValues(Shl(x, 8));
    Pow2Values();
    assert Pow2(10) == 1024;
  }

  /** A stored header at an even byte. */
  lemma StoredHeaderParses(data: seq<Byte>, k: nat, size: nat, lru: seq<nat>)
    requires |lru| == 3 && size <= WINDOW && k % 2 == 0 && k + 16 <= |data|
    requires data[k..k + 4] == StoredStart(size)
    ensures var h := BlockHeader(data, BitsOf(data), 8 * k, false, lru);
            h.Done? && h.value.kind == UNCOMPRESSED && h.value.size == size && h.at == 8 * k + 128
  {
    hide BitsOf, Peek;
    BitsLength(data);
    var b := data[k..k + 4];
    assert data[k] == b[0] && data[k + 1] == b[1] && data[k + 2] == b[2] && data[k + 3] == b[3];
    PeekWord(data, k / 2);
    PeekWord(data, k / 2 + 1);
    assert 16 * (k / 2) == 8 * k && 16 * (k / 2 + 1) == 8 * k + 16;
    FieldsOfWords(BitsOf(data), 8 * k, size);
  }

  /** Two stored blocks of 4066 and 2 bytes; the repeat cache of the second is from byte 4086
      to 4098. */
  function RefusedChunk(): (data: seq<Byte>)
    ensures |data| == 4100 && data[0..0 + 4] == StoredStart(4066) && data[4082..4082 + 4] == StoredStart(2)
  {
    StoredStart(4066) + seq(4078, _ => 0) + StoredStart(2) + seq(14, _ => 0)
  }

  lemma StoredBlockParses(data: seq<Byte>, bits: seq<Bit>, pos: nat, st: Chunk, start: nat)
    requires ChunkOk(st) && |bits| <= 8 * |data| && !st.unaligned && pos % 8 == 0
    requires var h := BlockHeader(data, bits, pos, false, st.d.lru);
             && h.Done? && h.value.kind == UNCOMPRESSED && h.value.size % 2 == 0 && start + h.value.size <= WINDOW
             && h.at == pos + 128 && h.at + 8 * h.value.size <= 8 * |data|
    ensures var h, b := BlockHeader(data, bits, pos, false, st.d.lru), Block(data, bits, pos, st, start);
            && b.Done? && b.at == h.at + 8 * h.value.size && b.value.size == h.value.size && !b.value.st.unaligned
  {
    hide BlockHeader, Splice;
  }

  /** A chunk that can be parsed, and that no reader that fills its buffer decodes: its second
      header has ten bytes in the first buffer and two after it. */
  lemma RefusedChunkParses()
    ensures var data := RefusedChunk();
            && Blocks(data, BitsOf(data), 0, StartOfChunk(), 0, 4068).Done?
            && Cut(data, BitsOf(data), 0, StartOfChunk(), 0, 4068, Least(BUFFER_SIZE, |data|))
  {
    hide BitsOf, BlockHeader, Block, StartOfChunk, RefusedChunk, StoredStart, Blocks, Cut;
    var data, st := RefusedChunk(), StartOfChunk();
    var bits := BitsOf(data);
    BitsLength(data);
    StoredHeaderParses(data, 0, 4066, st.d.lru);
    StoredBlockParses(data, bits, 0, st, 0);
    var b := Block(data, bits, 0, st, 0);
    StoredHeaderParses(data, 4082, 2, b.value.st.d.lru);
    StoredBlockParses(data, bits, b.at, b.value.st, 4066);
    var c := Block(data, bits, b.at, b.value.st, 4066);
    BlocksStep(data, bits, 0, st, 0, 4068);
    BlocksStep(data, bits, b.at, b.value.st, 4066, 4068);
    BlocksEnd(data, bits, c.at, c.value.st, 4068, 4068);
    CutStep(data, bits, 0, st, 0, 4068, BUFFER_SIZE);
    CutStep(data, bits, b.at, b.value.st, 4066, 4068, BUFFER_SIZE);
  }

  /** Nothing is lost in a chunk of compressed blocks, and none is refused that parses. */
  lemma CompressedChunk(data: seq<Byte>, bits: seq<Bit>, st: Chunk, total: nat)
    requires ChunkOk(st) && |bits| <= 8 * |data| && !st.unaligned
    ensures AllCompressed(data, bits, 0, st, 0, total) ==>
              && !SomeAtBufferEnd(data, bits, 0, st, 0, total)
              && (total > 0 && EmptyThenFull(data, bits, 0, st, false) ==> Blocks(data, bits, 0, st, 0, total).Bad?)
  {
    hide Blocks, AllCompressed, SomeAtBufferEnd, EmptyThenFull;
    if AllCompressed(data, bits, 0, st, 0, total) {
      CompressedIsClear(data, bits, 0, st, 0, total);
      if total > 0 {
        CompressedIsNotFull(data, bits, 0, st, false, total);
      }
    }
  }

  lemma CutStep(data: seq<Byte>, bits: seq<Bit>, pos: nat, st: Chunk, n: nat, total: nat, edge: nat)
    requires ChunkOk(st) && |bits| <= 8 * |data|
    ensures var b := Block(data, bits, pos, st, n);
            Cut(data, bits, pos, st, n, total, edge) <==>
            && n < total && !st.unaligned && StoredHere(data, bits, pos, st)
            && (|| CutHeader(data, BlockHeader(data, bits, pos, false, st.d.lru), edge)
                || (b.Done? && b.at < 8 * edge &&
                    Cut(data, bits, b.at, b.value.st, n + b.value.size, total, edge)))
  {
    hide Block, StoredHere, CutHeader, BlockHeader;
  }

  lemma BufferEndStep(data: seq<Byte>, bits: seq<Bit>, pos: nat, st: Chunk, n: nat, total: nat)
    requires ChunkOk(st) && |bits| <= 8 * |data| && n < total
    ensures var b := Block(data, bits, pos, st, n);
            SomeAtBufferEnd(data, bits, pos, st, n, total) <==>
            || AtBufferEnd(data, bits, pos, st)
            || (b.Done? && SomeAtBufferEnd(data, bits, b.at, b.value.st, n + b.value.size, total))
  {
    hide Block, AtBufferEnd;
  }

  /** A stored block of the full size fits only an empty window. */
  lemma FullOverruns(data: seq<Byte>, bits: seq<Bit>, pos: nat, st: Chunk, start: nat)
    requires ChunkOk(st) && |bits| <= 8 * |data|
    ensures FullStored(bits, pos) && !st.unaligned && start > 0 ==> Block(data, bits, pos, st, start).Bad?
  {
    hide Peek, CompressedBlock, StoredBlock;
  }

  lemma FullStep(data: seq<Byte>, bits: seq<Bit>, pos: nat, st: Chunk, cached: bool)
    requires ChunkOk(st) && |bits| <= 8 * |data|
    ensures var b := Block(data, bits, pos, st, 0);
            EmptyThenFull(data, bits, pos, st, cached) <==>
            || (cached && FullStored(bits, pos))
            || (b.Done? && b.value.size == 0 &&
                EmptyThenFull(data, bits, b.at, b.value.st, !StoredHere(data, bits, pos, st)))
    ensures EmptyThenFull(data, bits, pos, st, cached) ==> EmptyThenFull(data, bits, pos, st, true)
  {
    hide Block, FullStored, StoredHere;
  }

  /** Input too short for one block is too short for all. */
  lemma BlocksStarved(f: Reader, pos: nat, st: Chunk, n: nat, total: nat)
    requires ChunkOk(st) && f.bits == BitsOf(f.src.data) && |f.bits| <= 8 * |f.src.data| && n < total
    requires Starved(Block(f.src.data, f.bits, pos, st, n), f)
    ensures Starved(Blocks(f.src.data, f.bits, pos, st, n, total), f)
  {
    hide Block, BitsOf;
    BitsLength(f.src.data);
    var b := Block(f.src.data, f.bits, pos, st, n);
    if b.Done? && !f.lost {
      BlocksEndInBits(f.src.data, f.bits, b.at, b.value.st, n + b.value.size, total);
    }
  }

  lemma DeltaBound(previous: nat, c: nat)
    requires c <= 16
    ensures Delta(previous, c) <= MAX_LENGTH
  {
  }

  lemma ShortRun(lens: seq<nat>, i: nat, n: nat, v: nat)
    requires i + n <= |lens| && Decompressor.Short(lens) && v <= MAX_LENGTH
    ensures Decompressor.Short(SetRun(lens, i, n, v))
  {
  }

  lemma SetRunIs(before: seq<nat>, after: seq<nat>, i: nat, n: nat, v: nat)
    requires i + n <= |before| == |after|
    requires forall k | 0 <= k < |after| :: after[k] == if i <= k < i + n then v else before[k]
    ensures after == SetRun(before, i, n, v)
  {
    var run := SetRun(before, i, n, v);
    forall k | 0 <= k < |after|
      ensures after[k] == run[k]
    {
      if i <= k < i + n {
        assert run[k] == seq(n, _ => v)[k - i];
      } else if k >= i + n {
        assert run[k] == before[i + n..][k - i - n];
      }
    }
  }

  /** A zero offset copies each byte onto itself. */
  lemma NothingCopied(window: seq<Byte>, i: nat, n: nat)
    requires i + n <= |window|
    ensures forall k: nat | k < n :: CopiedByte(window, i, 0, k) == window[i + k]
  {
  }

  lemma HasCode(lens: seq<nat>, bits: seq<Bit>, pos: nat, s: nat)
    requires IsCode(lens, bits, pos, s)
    ensures s < |lens| && !AllZero(lens)
  {
  }

  /** Without a code at the position there are no more lengths. */
  lemma TreeFails(pre: seq<nat>, f: Reader, pos: nat, lens: seq<nat>, i: nat)
    requires i < |lens|
    ensures AllZero(pre) ==> TreeFrom(pre, f.bits, pos, lens, i) == Bad(CorruptData)
    ensures Starved(Code(pre, f.bits, pos), f) ==> Starved(TreeFrom(pre, f.bits, pos, lens, i), f)
  {
    hide ZeroRun, SameRun, AllZero, IsCode;
  }

  lemma TreeGoesOn(pre: seq<nat>, bits: seq<Bit>, pos: nat, lens: seq<nat>, i: nat, c: nat, p: nat)
    requires i < |lens| && Code(pre, bits, pos) == Done(c, p)
    ensures TreeFrom(pre, bits, pos, lens, i) ==
            if c <= 16 then TreeFrom(pre, bits, p, lens[i := Delta(lens[i], c)], i + 1)
            else if c == 17 then ZeroRun(pre, bits, lens, i, Bits(bits, p, 4), 4)
            else if c == 18 then ZeroRun(pre, bits, lens, i, Bits(bits, p, 5), 20)
            else if c == 19 then SameRun(pre, bits, lens, i, Bits(bits, p, 1))
            else Bad(CorruptData)
  {
    hide ZeroRun, SameRun, Code, Delta;
  }

  lemma RunStarved(pre: seq<nat>, f: Reader, lens: seq<nat>, i: nat, n: Parsed<nat>, base: nat)
    requires i < |lens| && base > 0
    ensures Starved(n, f) ==>
              Starved(ZeroRun(pre, f.bits, lens, i, n, base), f) && Starved(SameRun(pre, f.bits, lens, i, n), f)
  {
    hide ZeroRun, SameRun;
  }

  /** What follows the run's width: the delta all its lengths share. */
  lemma SameRunGoesOn(pre: seq<nat>, f: Reader, lens: seq<nat>, i: nat, n: nat, p: nat)
    requires i + n + 4 <= |lens|
    ensures var spec, c := SameRun(pre, f.bits, lens, i, Done(n, p)), Code(pre, f.bits, p);
            && (c.Bad? ==> spec == Bad(c.flaw))
            && (c.Done? && c.value > 16 ==> spec == Bad(CorruptData))
            && (c.Done? && c.value <= 16 ==>
                  spec == TreeFrom(pre, f.bits, c.at, SetRun(lens, i, n + 4, Delta(lens[i], c.value)), i + n + 4))
            && (Starved(c, f) ==> Starved(spec, f))
  {
    hide Code, Delta, SetRun, TreeFrom;
  }

  lemma SameRunSteps(pre: seq<nat>, f: Reader, lens: seq<nat>, i: nat, n: nat, p: nat, d: nat)
    requires i + n + 4 <= |lens| && f.err != Some(Corrupt)
    requires f.err.None? ==> Code(pre, f.bits, p) == Done(d, f.pos)
    requires f.err == Some(UnexpectedEOF) ==> Starved(Code(pre, f.bits, p), f)
    ensures var spec := SameRun(pre, f.bits, lens, i, Done(n, p));
            if d > 16 then
              Decompressor.Steps(spec, pre, f, Err(Corrupt), f.err, f.pos, lens, i + n + 4)
            else
              Decompressor.Steps(
                spec, pre, f, Ok, f.err, f.pos, SetRun(lens, i, n + 4, Delta(lens[i], d)), i + n + 4)
  {
    hide Code, Delta, SetRun, SameRun, TreeFrom, Starved;
    SameRunGoesOn(pre, f, lens, i, n, p);
  }

  lemma TreeDone(pre: seq<nat>, bits: seq<Bit>, pos: nat, lens: seq<nat>)
    ensures TreeFrom(pre, bits, pos, lens, |lens|) == Done(lens, pos)
  {
  }

  /** Without a code at the position the block goes on no further. */
  lemma CodeFails(t: Trees, f: Reader, p: nat, d: Decoded, i: nat, end: nat)
    requires |t.main| == MAIN_CODES && |d.lru| == 3 && i < end <= |d.window|
    ensures Code(t.main, f.bits, p) == Bad(CorruptData) ==> BlockFrom(t, f.bits, p, d, i, end) == Bad(CorruptData)
    ensures Starved(Code(t.main, f.bits, p), f) ==> Starved(BlockFrom(t, f.bits, p, d, i, end), f)
  {
    hide Code, MatchLength, MatchDistance, Extend;
  }

  lemma LiteralStep(t: Trees, bits: seq<Bit>, p: nat, d: Decoded, i: nat, end: nat, c: nat, q: nat)
    requires |t.main| == MAIN_CODES && |d.lru| == 3 && i < end <= |d.window|
    requires Code(t.main, bits, p) == Done(c, q) && c < 256
    ensures BlockFrom(t, bits, p, d, i, end) == BlockFrom(t, bits, q, d.(window := d.window[i := c]), i + 1, end)
  {
    hide Code, MatchLength, MatchDistance, Extend;
  }

  lemma BlockDone(t: Trees, bits: seq<Bit>, pos: nat, d: Decoded, end: nat)
    requires |t.main| == MAIN_CODES && |d.lru| == 3 && end <= |d.window|
    ensures BlockFrom(t, bits, pos, d, end, end) == Done(d, pos)
  {
  }

  lemma SkippedByte(data: seq<Byte>, bits: seq<Bit>, pos: nat, lru: seq<nat>)
    requires |lru| == 3 && pos + 8 <= 8 * |data|
    ensures BlockHeader(data, bits, pos, true, lru) == BlockHeader(data, bits, pos + 8, false, lru)
  {
    hide HeaderTail, Peek;
  }

  lemma HeaderGoesOn(data: seq<Byte>, bits: seq<Bit>, pos: nat, lru: seq<nat>, p: nat, size: nat)
    requires |lru| == 3 && pos + 4 <= p <= |bits| && size <= WINDOW
    requires if Peek(bits, pos + 3, 1) != 0 then size == WINDOW && p == pos + 4
             else p == pos + 20 && size == Peek(bits, pos + 4, 16)
    ensures BlockHeader(data, bits, pos, false, lru) == HeaderTail(data, bits, p, Peek(bits, pos, 3), size, lru)
  {
    hide HeaderTail, Peek;
  }

  lemma HeaderFails(data: seq<Byte>, bits: seq<Bit>, pos: nat, lru: seq<nat>)
    requires |lru| == 3
    ensures |bits| < pos + 4 || (|bits| < pos + 20 && Peek(bits, pos + 3, 1) == 0) ==>
              BlockHeader(data, bits, pos, false, lru).Bad?
    ensures pos + 20 <= |bits| && Peek(bits, pos + 3, 1) == 0 && Peek(bits, pos + 4, 16) > WINDOW ==>
              BlockHeader(data, bits, pos, false, lru) == Bad(CorruptData)
  {
    hide HeaderTail, Peek;
  }

  lemma HeaderKinds(data: seq<Byte>, bits: seq<Bit>, pos: nat, kind: nat, size: nat, lru: seq<nat>)
    requires |lru| == 3 && kind != UNCOMPRESSED
    ensures HeaderTail(data, bits, pos, kind, size, lru) ==
            if kind == VERBATIM || kind == ALIGNED then Done(Header(kind, size, lru), pos) else Bad(CorruptData)
  {
  }

  /** Dropping the bits left in the current word, or a whole word when none are,
      is the padding the format asks for. */
  lemma Padding(pos: nat, nbits: nat, fed: nat)
    requires pos + nbits == 8 * fed && fed % 2 == 0 && nbits <= 16
    ensures pos + (if nbits == 0 then 16 else nbits) == pos + 16 - pos % 16
  {
  }

  /** Past the padding a stored header goes on with the repeat cache. */
  lemma StoredTail(data: seq<Byte>, bits: seq<Bit>, pos: nat, nbits: nat, fed: nat, size: nat, lru: seq<nat>)
    requires |lru| == 3 && pos + nbits == 8 * fed && fed % 2 == 0 && nbits <= 16
    ensures var q := if nbits == 0 then fed + 2 else fed;
            HeaderTail(data, bits, pos, UNCOMPRESSED, size, lru) ==
            if 8 * q > |bits| || q + 12 > |data| then Bad(Truncated)
            else
              Done(Header(UNCOMPRESSED, size, [LowHalf(data, q), LowHalf(data, q + 4), LowHalf(data, q + 8)]),
                   8 * q + 96)
  {
    hide LowHalf;
    Padding(pos, nbits, fed);
  }

  /** The repeat cache of a stored header comes after what is fed. */
  lemma CacheIsAhead(
    data: seq<Byte>, bits: seq<Bit>, pos: nat, nbits: nat, fed: nat, kind: nat, size: nat, lru: seq<nat>, edge: nat)
    requires |lru| == 3 && pos + nbits == 8 * fed && fed % 2 == 0
    ensures CutHeader(data, HeaderTail(data, bits, pos, kind, size, lru), edge) ==>
              kind == UNCOMPRESSED && (nbits <= 16 ==> fed < edge)
  {
    if kind != UNCOMPRESSED {
      HeaderKinds(data, bits, pos, kind, size, lru);
    } else if nbits <= 16 {
      StoredTail(data, bits, pos, nbits, fed, size, lru);
    }
  }

  lemma BlocksStep(data: seq<Byte>, bits: seq<Bit>, pos: nat, st: Chunk, n: nat, total: nat)
    requires ChunkOk(st) && |bits| <= 8 * |data| && n < total
    ensures var b := Block(data, bits, pos, st, n);
            if b.Done? then
              && pos + 4 <= b.at <= 8 * |data| && ChunkOk(b.value.st)
              && Blocks(data, bits, pos, st, n, total) == Blocks(data, bits, b.at, b.value.st, n + b.value.size, total)
            else Blocks(data, bits, pos, st, n, total) == Bad(b.flaw)
  {
    hide Block;
  }

  lemma BlocksEnd(data: seq<Byte>, bits: seq<Bit>, pos: nat, st: Chunk, n: nat, total: nat)
    requires ChunkOk(st) && |bits| <= 8 * |data| && n >= total
    ensures Blocks(data, bits, pos, st, n, total) == Done(st, pos)
  {
  }
}
