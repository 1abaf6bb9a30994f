/** The LZX stream format as a parser over the abstract bit string: trees coded
    as deltas, tokens, blocks, and the LZ77 expansion of a chunk. Positions are
    bit offsets into the stream. */
module LzxSpec {
  import opened Arith
  import opened BitString
  import opened Canonical
  import opened BitReader

  const WINDOW := 32768
  const MAIN_CODES := 496
  const MAIN_SPLIT := 256
  const LENGTH_CODES := 249

  /** Why a stream has no decoding. The last two are panics of the Go code: a nil
      pre-tree, and a block that does not fit the window. */
  datatype Flaw = CorruptData | Truncated | NilTree | Overrun

  datatype Parsed<+T> = Done(value: T, at: nat) | Bad(flaw: Flaw)

  /** Parsing only moves forward, and never past the bit string. */
  ghost predicate Moves<T>(r: Parsed<T>, bits: seq<Bit>, pos: nat) {
    r.Done? ==> pos <= r.at && (r.at == pos || r.at <= |bits|)
  }

  // ---- bits and codes

  ghost function Bits(bits: seq<Bit>, pos: nat, n: nat): (r: Parsed<nat>)
    ensures Moves(r, bits, pos)
  {
    if n == 0 || pos + n <= |bits| then Done(Peek(bits, pos, n), pos + n) else Bad(Truncated)
  }

  ghost function Code(lens: seq<nat>, bits: seq<Bit>, pos: nat): (r: Parsed<nat>)
    ensures Moves(r, bits, pos)
  {
    if AllZero(lens) then Bad(CorruptData)
    else if exists s: nat :: IsCode(lens, bits, pos, s) then
      var s: nat :| IsCode(lens, bits, pos, s);
      Done(s, pos + lens[s])
    else Bad(Truncated)
  }

  /** At most one codeword stands at a position. */
  lemma IsCodeUnique(lens: seq<nat>, bits: seq<Bit>, pos: nat, s: nat, t: nat)
    requires IsCode(lens, bits, pos, s) && IsCode(lens, bits, pos, t)
    ensures s == t
  {
    var n := if lens[s] <= lens[t] then lens[t] else lens[s];
    PrefixCovers(lens, bits, pos, s, n);
    PrefixCovers(lens, bits, pos, t, n);
    CoversUnique(lens, s, t, Shl(Peek(bits, pos, n), MAX_LENGTH - n));
  }

  lemma CodeIs(lens: seq<nat>, bits: seq<Bit>, pos: nat, s: nat)
    requires IsCode(lens, bits, pos, s)
    ensures Code(lens, bits, pos) == Done(s, pos + lens[s])
  {
    var t: nat :| IsCode(lens, bits, pos, t) && Code(lens, bits, pos) == Done(t, pos + lens[t]);
    IsCodeUnique(lens, bits, pos, s, t);
  }

  // ---- trees

  /** k fields of w bits each, from pos on. */
  ghost function Fields(bits: seq<Bit>, pos: nat, w: nat, k: nat): (r: seq<nat>)
    requires pos + w * k <= |bits|
    ensures |r| == k
    decreases k
  {
    if k == 0 then []
    else
      assert w * k == w * (k - 1) + w;
      Fields(bits, pos, w, k - 1) + [Peek(bits, pos + w * (k - 1), w)]
  }

  function Delta(previous: nat, c: nat): nat
    requires c <= 16
  {
    (previous + 17 - c) % 17
  }

  function SetRun(lens: seq<nat>, i: nat, n: nat, v: nat): (r: seq<nat>)
    requires i + n <= |lens|
    ensures |r| == |lens|
  {
    lens[..i] + seq(n, _ => v) + lens[i + n..]
  }

  /** The code lengths from index i on, each a delta to the previous tree. */
  ghost function TreeFrom(pre: seq<nat>, bits: seq<Bit>, pos: nat, lens: seq<nat>, i: nat): (r: Parsed<seq<nat>>)
    requires i <= |lens|
    ensures r.Done? ==> |r.value| == |lens|
    ensures Moves(r, bits, pos)
    decreases |lens| - i
  {
    if i == |lens| then Done(lens, pos)
    else
      match Code(pre, bits, pos)
      case Bad(e) => Bad(e)
      case Done(c, p) =>
        if c <= 16 then TreeFrom(pre, bits, p, lens[i := Delta(lens[i], c)], i + 1)
        else if c == 17 then ZeroRun(pre, bits, lens, i, Bits(bits, p, 4), 4)
        else if c == 18 then ZeroRun(pre, bits, lens, i, Bits(bits, p, 5), 20)
        else if c == 19 then SameRun(pre, bits, lens, i, Bits(bits, p, 1))
        else Bad(CorruptData)
  }

  ghost function ZeroRun(
    pre: seq<nat>, bits: seq<Bit>, lens: seq<nat>, i: nat, n: Parsed<nat>, base: nat): (r: Parsed<seq<nat>>)
    requires i < |lens| && base > 0
    ensures r.Done? ==> |r.value| == |lens|
    ensures n.Bad? ==> r.Bad?
    ensures n.Done? ==> Moves(r, bits, n.at)
    decreases |lens| - i, 0
  {
    match n
    case Bad(e) => Bad(e)
    case Done(v, p) =>
      if i + v + base > |lens| then Bad(CorruptData)
      else TreeFrom(pre, bits, p, SetRun(lens, i, v + base, 0), i + v + base)
  }

  ghost function SameRun(pre: seq<nat>, bits: seq<Bit>, lens: seq<nat>, i: nat, n: Parsed<nat>): (r: Parsed<seq<nat>>)
    requires i < |lens|
    ensures r.Done? ==> |r.value| == |lens|
    ensures n.Bad? ==> r.Bad?
    ensures n.Done? ==> Moves(r, bits, n.at)
    decreases |lens| - i, 0
  {
    match n
    case Bad(e) => Bad(e)
    case Done(v, p) =>
      if i + v + 4 > |lens| then Bad(CorruptData)
      else
        match Code(pre, bits, p)
        case Bad(e) => Bad(e)
        case Done(c, q) =>
          if c > 16 then Bad(CorruptData)
          else TreeFrom(pre, bits, q, SetRun(lens, i, v + 4, Delta(lens[i], c)), i + v + 4)
  }

  const PRETREE := 20

  ghost function Tree(bits: seq<Bit>, pos: nat, lens: seq<nat>): (r: Parsed<seq<nat>>)
    ensures r.Done? ==> |r.value| == |lens|
    ensures Moves(r, bits, pos)
  {
    if pos + 4 * PRETREE > |bits| then Bad(Truncated)
    else
      var pre := Fields(bits, pos, 4, PRETREE);
      if !AllZero(pre) && !Complete(pre) then Bad(NilTree)
      else TreeFrom(pre, bits, pos + 4 * PRETREE, lens, 0)
  }

  /** The code lengths of a compressed block; an aligned-offset block has three
      trees, a verbatim block two. */
  datatype Trees = Trees(main: seq<nat>, length: seq<nat>, aligned: Option<seq<nat>>)

  ghost predicate Usable(lens: seq<nat>) {
    AllZero(lens) || Complete(lens)
  }

  ghost function AlignedTree(bits: seq<Bit>, pos: nat): (r: Parsed<seq<nat>>)
    ensures Moves(r, bits, pos)
  {
    if pos + 3 * 8 > |bits| then Bad(Truncated)
    else
      var lens := Fields(bits, pos, 3, 8);
      if Usable(lens) then Done(lens, pos + 3 * 8) else Bad(CorruptData)
  }

  /** A tree whose code has to be usable as it is. */
  ghost function UsableTree(t: Parsed<seq<nat>>): (r: Parsed<seq<nat>>)
    ensures r.Done? ==> r == t && Usable(t.value)
    ensures t.Bad? ==> r == t
  {
    if t.Done? && !Usable(t.value) then Bad(CorruptData) else t
  }

  /** The second part of the main tree, after the first. */
  ghost function HighPart(bits: seq<Bit>, low: Parsed<seq<nat>>, main: seq<nat>): (r: Parsed<seq<nat>>)
    requires low.Done? ==> |low.value| + |main| == MAIN_CODES
    ensures r.Done? ==> low.Done? && |r.value| == MAIN_CODES && Moves(r, bits, low.at)
  {
    match low
    case Bad(e) => Bad(e)
    case Done(l, p) =>
      match Tree(bits, p, main)
      case Bad(e) => Bad(e)
      case Done(h, q) => Done(l + h, q)
  }

  /** The main tree comes in two parts, each with its own pre-tree. */
  ghost function MainTree(bits: seq<Bit>, pos: nat, main: seq<nat>): (r: Parsed<seq<nat>>)
    requires |main| == MAIN_CODES
    ensures Moves(r, bits, pos) && (r.Done? ==> |r.value| == MAIN_CODES)
  {
    UsableTree(HighPart(bits, Tree(bits, pos, main[..MAIN_SPLIT]), main[MAIN_SPLIT..]))
  }

  ghost function LengthTree(bits: seq<Bit>, pos: nat, length: seq<nat>): (r: Parsed<seq<nat>>)
    ensures Moves(r, bits, pos) && (r.Done? ==> |r.value| == |length|)
  {
    UsableTree(Tree(bits, pos, length))
  }

  /** The length tree, after the main tree. */
  ghost function AndLength(
    bits: seq<Bit>, main: Parsed<seq<nat>>, length: seq<nat>, aligned: Option<seq<nat>>): (r: Parsed<Trees>)
    ensures r.Done? ==> main.Done? && Moves(r, bits, main.at)
    ensures r.Done? ==> r.value.main == main.value && |r.value.length| == |length| && r.value.aligned == aligned
  {
    match main
    case Bad(e) => Bad(e)
    case Done(m, p) =>
      match LengthTree(bits, p, length)
      case Bad(e) => Bad(e)
      case Done(l, q) => Done(Trees(m, l, aligned), q)
  }

  ghost function MainAndLength(
    bits: seq<Bit>, pos: nat, main: seq<nat>, length: seq<nat>, aligned: Option<seq<nat>>): (r: Parsed<Trees>)
    requires |main| == MAIN_CODES
    ensures Moves(r, bits, pos)
    ensures r.Done? ==> |r.value.main| == MAIN_CODES && |r.value.length| == |length| && r.value.aligned == aligned
  {
    AndLength(bits, MainTree(bits, pos, main), length, aligned)
  }

  ghost function BlockTrees(
    bits: seq<Bit>, pos: nat, readAligned: bool, main: seq<nat>, length: seq<nat>): (r: Parsed<Trees>)
    requires |main| == MAIN_CODES
    ensures r.Done? ==> |r.value.main| == MAIN_CODES && |r.value.length| == |length|
    ensures Moves(r, bits, pos)
  {
    if readAligned then
      match AlignedTree(bits, pos)
      case Bad(e) => Bad(e)
      case Done(a, p) => MainAndLength(bits, p, main, length, Some(a))
    else MainAndLength(bits, pos, main, length, None)
  }

  // ---- tokens

  datatype Distance = Repeat(slot: nat) | Explicit(offset: nat)

  datatype Token = Literal(b: Byte) | Match(length: nat, distance: Distance)

  /** A repeat names one of three slots; an explicit offset reaches back at least
      one byte. */
  predicate WellFormed(k: Token) {
    k.Match? ==> if k.distance.Repeat? then k.distance.slot < 3 else k.distance.offset >= 1
  }

  const FOOTER_BITS: seq<nat> := [
    0, 0, 0, 0, 1, 1, 2, 2, 3, 3, 4, 4, 5, 5, 6, 6,
    7, 7, 8, 8, 9, 9, 10, 10, 11, 11, 12, 12, 13, 13, 14]

  const BASE_POSITION: seq<nat> := [
    0, 1, 2, 3, 4, 6, 8, 12, 16, 24, 32, 48, 64, 96, 128, 192,
    256, 384, 512, 768, 1024, 1536, 2048, 3072, 4096, 6144, 8192, 12288, 16384, 24576, 32768]

  /** The length of a match: three bits of the main code, or the length tree. */
  ghost function MatchLength(t: Trees, bits: seq<Bit>, pos: nat, low: nat): (r: Parsed<nat>)
    ensures Moves(r, bits, pos)
    ensures r.Done? ==> r.value >= 2
  {
    if low == 7 then
      match Code(t.length, bits, pos)
      case Bad(e) => Bad(e)
      case Done(v, p) => Done(low + v + 2, p)
    else Done(low + 2, pos)
  }

  /** The distance of a match: a repeat slot, or a base plus verbatim bits, the
      last three of which an aligned-offset block codes by its own tree. */
  ghost function MatchDistance(t: Trees, bits: seq<Bit>, pos: nat, slot: nat): (r: Parsed<Distance>)
    requires slot < 30
    ensures Moves(r, bits, pos)
    ensures r.Done? && r.value.Repeat? ==> r.value.slot < 3
    ensures r.Done? && r.value.Explicit? ==> r.value.offset >= 1
  {
    if slot < 3 then Done(Repeat(slot), pos)
    else
      var n := FOOTER_BITS[slot];
      if t.aligned.Some? && n >= 3 then
        match Bits(bits, pos, n - 3)
        case Bad(e) => Bad(e)
        case Done(v, p) =>
          match Code(t.aligned.value, bits, p)
          case Bad(e) => Bad(e)
          case Done(a, q) => Done(Explicit(BASE_POSITION[slot] + v * 8 + a - 2), q)
      else
        match Bits(bits, pos, n)
        case Bad(e) => Bad(e)
        case Done(v, p) => Done(Explicit(BASE_POSITION[slot] + v - 2), p)
  }

  ghost function NextToken(t: Trees, bits: seq<Bit>, pos: nat): (r: Parsed<Token>)
    requires |t.main| == MAIN_CODES
    ensures Moves(r, bits, pos)
    ensures r.Done? && r.value.Match? ==> r.value.length >= 2 && WellFormed(r.value)
  {
    match Code(t.main, bits, pos)
    case Bad(e) => Bad(e)
    case Done(c, p) =>
      if c < 256 then Done(Literal(c), p)
      else if c >= MAIN_CODES then Bad(CorruptData)
      else
        match MatchLength(t, bits, p, (c - 256) % 8)
        case Bad(e) => Bad(e)
        case Done(n, q) =>
          match MatchDistance(t, bits, q, (c - 256) / 8)
          case Bad(e) => Bad(e)
          case Done(d, r) => Done(Match(n, d), r)
  }

  // ---- LZ77 expansion

  /** The repeat cache: an explicit offset is pushed, a repeated one swapped to
      the front. */
  function Offset(lru: seq<nat>, d: Distance): nat
    requires |lru| == 3 && (d.Repeat? ==> d.slot < 3)
  {
    match d
    case Repeat(k) => lru[k]
    case Explicit(o) => o
  }

  function Touch(lru: seq<nat>, d: Distance): (r: seq<nat>)
    requires |lru| == 3 && (d.Repeat? ==> d.slot < 3)
    ensures |r| == 3
  {
    match d
    case Repeat(k) => lru[k := lru[0]][0 := lru[k]]
    case Explicit(o) => [o, lru[0], lru[1]]
  }

  /** Copying n bytes from offset back is the periodic extension of the last
      offset bytes. A zero offset, which only a cache loaded from an uncompressed
      block header can hold, leaves the window as it is. */
  function Extend(window: seq<Byte>, i: nat, offset: nat, n: nat): (r: seq<Byte>)
    requires offset <= i && i + n <= |window|
    ensures |r| == |window|
  {
    window[..i] + seq(n, k requires 0 <= k < n => CopiedByte(window, i, offset, k)) + window[i + n..]
  }

  function CopiedByte(window: seq<Byte>, i: nat, offset: nat, k: nat): Byte
    requires offset <= i && i + k < |window|
  {
    if offset == 0 then window[i + k] else window[i - offset + k % offset]
  }

  /** Each copied byte is the one an offset before it, be it old or copied. */
  lemma CopiedPeriod(window: seq<Byte>, i: nat, offset: nat, k: nat)
    requires 1 <= offset <= i && i + k < |window|
    ensures CopiedByte(window, i, offset, k) ==
            if k >= offset then CopiedByte(window, i, offset, k - offset) else window[i + k - offset]
  {
    if k >= offset {
      ModPeriod(k, offset);
    } else {
      assert k % offset == k;
    }
  }

  datatype Decoded = Decoded(window: seq<Byte>, lru: seq<nat>)

  /** Decoding tokens into window[i..end]. */
  ghost function BlockFrom(t: Trees, bits: seq<Bit>, pos: nat, d: Decoded, i: nat, end: nat): (r: Parsed<Decoded>)
    requires |t.main| == MAIN_CODES && |d.lru| == 3 && i <= end <= |d.window|
    ensures r.Done? ==> |r.value.window| == |d.window| && |r.value.lru| == 3
    ensures Moves(r, bits, pos)
    decreases end - i
  {
    if i == end then Done(d, pos)
    else
      match NextToken(t, bits, pos)
      case Bad(e) => Bad(e)
      case Done(Literal(b), p) => BlockFrom(t, bits, p, d.(window := d.window[i := b]), i + 1, end)
      case Done(Match(n, dist), p) =>
        if Offset(d.lru, dist) <= i && n <= end - i then
          BlockFrom(t, bits, p, Decoded(Extend(d.window, i, Offset(d.lru, dist), n), Touch(d.lru, dist)), i + n, end)
        else Bad(CorruptData)
  }

  // ---- blocks

  const VERBATIM := 1
  const ALIGNED := 2
  const UNCOMPRESSED := 3

  datatype Header = Header(kind: nat, size: nat, lru: seq<nat>)

  /** The byte at the word boundary past 1 to 16 padding bits. */
  ghost function NextWord(pos: nat): (q: nat)
    ensures 8 * q == pos + 16 - pos % 16 && (8 * q) % 16 == 0 && (8 * q + 96) % 16 == 0
  {
    assert 8 * (2 * (pos / 16 + 1)) == 16 * (pos / 16 + 1);
    2 * (pos / 16 + 1)
  }

  /** An uncompressed block is aligned past 1 to 16 padding bits and carries its
      own repeat cache. */
  ghost function HeaderTail(
    data: seq<Byte>, bits: seq<Bit>, pos: nat, kind: nat, size: nat, lru: seq<nat>): (r: Parsed<Header>)
    requires |lru| == 3
    ensures r.Done? ==> pos <= r.at && |r.value.lru| == 3 && r.value.size == size && 1 <= r.value.kind <= 3
    ensures r.Done? && r.value.kind == UNCOMPRESSED ==> r.at <= 8 * |data| && r.at % 16 == 0
    ensures r.Done? && r.value.kind != UNCOMPRESSED ==> r.at == pos
  {
    if kind == VERBATIM || kind == ALIGNED then Done(Header(kind, size, lru), pos)
    else if kind == UNCOMPRESSED then
      var q := NextWord(pos);
      if 8 * q > |bits| || q + 12 > |data| then Bad(Truncated)
      else Done(Header(kind, size, [LowHalf(data, q), LowHalf(data, q + 4), LowHalf(data, q + 8)]), 8 * q + 96)
    else Bad(CorruptData)
  }

  /** A block after an uncompressed one of odd size first skips a padding byte. */
  ghost function BlockHeader(
    data: seq<Byte>, bits: seq<Bit>, pos: nat, unaligned: bool, lru: seq<nat>): (r: Parsed<Header>)
    requires |lru| == 3
    ensures r.Done? ==> pos + 4 <= r.at && |r.value.lru| == 3 && r.value.size <= WINDOW && 1 <= r.value.kind <= 3
    ensures r.Done? && r.value.kind == UNCOMPRESSED ==> r.at <= 8 * |data| && r.at % 16 == 0
    ensures r.Done? && r.value.kind != UNCOMPRESSED ==> r.at <= |bits|
  {
    if unaligned && pos + 8 > 8 * |data| then Bad(Truncated)
    else
      var p := if unaligned then pos + 8 else pos;
      if p + 4 > |bits| then Bad(Truncated)
      else if Peek(bits, p + 3, 1) != 0 then HeaderTail(data, bits, p + 4, Peek(bits, p, 3), WINDOW, lru)
      else if p + 20 > |bits| then Bad(Truncated)
      else if Peek(bits, p + 4, 16) > WINDOW then Bad(CorruptData)
      else HeaderTail(data, bits, p + 20, Peek(bits, p, 3), Peek(bits, p + 4, 16), lru)
  }

  /** The header of an uncompressed block of the full size, not after an odd one. */
  ghost predicate FullStored(bits: seq<Bit>, pos: nat) {
    pos + 4 <= |bits| && Peek(bits, pos, 3) == UNCOMPRESSED && Peek(bits, pos + 3, 1) != 0
  }

  /** What one chunk's blocks leave behind for the next block. */
  datatype Chunk = Chunk(unaligned: bool, main: seq<nat>, length: seq<nat>, d: Decoded)

  ghost predicate ChunkOk(st: Chunk) {
    |st.main| == MAIN_CODES && |st.length| == LENGTH_CODES && |st.d.lru| == 3 && |st.d.window| == WINDOW
  }

  datatype AfterBlock = AfterBlock(st: Chunk, size: nat)

  function Splice(window: seq<Byte>, start: nat, s: seq<Byte>): (r: seq<Byte>)
    requires start + |s| <= |window|
    ensures |r| == |window|
  {
    window[..start] + s + window[start + |s|..]
  }

  ghost function StoredBlock(data: seq<Byte>, pos: nat, h: Header, st: Chunk, start: nat): (r: Parsed<AfterBlock>)
    requires ChunkOk(st) && |h.lru| == 3 && start + h.size <= WINDOW && pos <= 8 * |data| && pos % 8 == 0
    ensures r.Done? ==> pos <= r.at <= 8 * |data| && ChunkOk(r.value.st)
  {
    var q := pos / 8;
    if q + h.size > |data| then Bad(Truncated)
    else
      var window := Splice(st.d.window, start, data[q..q + h.size]);
      Done(AfterBlock(Chunk(h.size % 2 == 1, st.main, st.length, Decoded(window, h.lru)), h.size), pos + 8 * h.size)
  }

  ghost function DecodedBlock(
    t: Trees, bits: seq<Bit>, pos: nat, h: Header, d: Decoded, start: nat): (r: Parsed<AfterBlock>)
    requires |t.main| == MAIN_CODES && |t.length| == LENGTH_CODES
    requires |d.lru| == 3 && |d.window| == WINDOW && start + h.size <= WINDOW && pos <= |bits|
    ensures r.Done? ==> pos <= r.at <= |bits| && ChunkOk(r.value.st)
  {
    match BlockFrom(t, bits, pos, d, start, start + h.size)
    case Bad(e) => Bad(e)
    case Done(d, r) => Done(AfterBlock(Chunk(false, t.main, t.length, d), h.size), r)
  }

  ghost function CompressedBlock(bits: seq<Bit>, pos: nat, h: Header, st: Chunk, start: nat): (r: Parsed<AfterBlock>)
    requires ChunkOk(st) && |h.lru| == 3 && start + h.size <= WINDOW && pos <= |bits|
    ensures r.Done? ==> pos <= r.at <= |bits| && ChunkOk(r.value.st)
  {
    match BlockTrees(bits, pos, h.kind == ALIGNED, st.main, st.length)
    case Bad(e) => Bad(e)
    case Done(t, q) => DecodedBlock(t, bits, q, h, st.d.(lru := h.lru), start)
  }

  ghost function BlockBody(
    data: seq<Byte>, bits: seq<Bit>, pos: nat, h: Header, st: Chunk, start: nat): (r: Parsed<AfterBlock>)
    requires ChunkOk(st) && |h.lru| == 3 && |bits| <= 8 * |data|
    requires if h.kind == UNCOMPRESSED then pos <= 8 * |data| && pos % 16 == 0 else pos <= |bits|
    ensures r.Done? ==> pos <= r.at <= 8 * |data| && ChunkOk(r.value.st)
  {
    if start + h.size > WINDOW then Bad(Overrun)
    else if h.kind == UNCOMPRESSED then StoredBlock(data, pos, h, st, start)
    else CompressedBlock(bits, pos, h, st, start)
  }

  ghost function Block(data: seq<Byte>, bits: seq<Bit>, pos: nat, st: Chunk, start: nat): (r: Parsed<AfterBlock>)
    requires ChunkOk(st) && |bits| <= 8 * |data|
    ensures r.Done? ==> pos + 4 <= r.at <= 8 * |data| && ChunkOk(r.value.st)
  {
    match BlockHeader(data, bits, pos, st.unaligned, st.d.lru)
    case Bad(e) => Bad(e)
    case Done(h, p) => BlockBody(data, bits, p, h, st, start)
  }

  /** Blocks until total bytes are decoded. */
  ghost function Blocks(data: seq<Byte>, bits: seq<Bit>, pos: nat, st: Chunk, n: nat, total: nat): (r: Parsed<Chunk>)
    requires ChunkOk(st) && |bits| <= 8 * |data|
    ensures r.Done? ==> pos <= r.at && ChunkOk(r.value)
    decreases 8 * |data| - pos
  {
    if n >= total then Done(st, pos)
    else
      match Block(data, bits, pos, st, n)
      case Bad(e) => Bad(e)
      case Done(b, p) => Blocks(data, bits, p, b.st, n + b.size, total)
  }

  /** An uncompressed block comes next. */
  ghost predicate StoredHere(data: seq<Byte>, bits: seq<Bit>, pos: nat, st: Chunk)
    requires ChunkOk(st)
  {
    var h := BlockHeader(data, bits, pos, st.unaligned, st.d.lru);
    h.Done? && h.value.kind == UNCOMPRESSED
  }

  /** After nothing but empty blocks comes an uncompressed block of the full size. It counts
      only with bits cached, which there may be at first and after a compressed block. */
  ghost predicate EmptyThenFull(data: seq<Byte>, bits: seq<Bit>, pos: nat, st: Chunk, cached: bool)
    requires ChunkOk(st) && |bits| <= 8 * |data|
    decreases 8 * |data| - pos
  {
    || (cached && FullStored(bits, pos))
    || (var b := Block(data, bits, pos, st, 0);
        b.Done? && b.value.size == 0 &&
        EmptyThenFull(data, bits, b.at, b.value.st, !StoredHere(data, bits, pos, st)))
  }

  // ---- the end of the buffer

  /** The header of an uncompressed block with at most ten bytes after it, in more than a
      buffer of data. */
  ghost predicate Late(data: seq<Byte>, h: Parsed<Header>) {
    h.Done? && h.value.kind == UNCOMPRESSED && |data| > BUFFER_SIZE && 8 * |data| <= h.at + 80
  }

  /** The header of an uncompressed block whose repeat cache straddles the end of the buffer. */
  ghost predicate CutHeader(data: seq<Byte>, h: Parsed<Header>, edge: nat) {
    h.Done? && h.value.kind == UNCOMPRESSED && Straddles(h.at / 8 - 12, edge, |data|)
  }

  /** One of the blocks has such a header, and only uncompressed ones of even size come before. */
  ghost predicate Cut(data: seq<Byte>, bits: seq<Bit>, pos: nat, st: Chunk, n: nat, total: nat, edge: nat)
    requires ChunkOk(st) && |bits| <= 8 * |data|
    decreases 8 * |data| - pos
  {
    && n < total && !st.unaligned && StoredHere(data, bits, pos, st)
    && (|| CutHeader(data, BlockHeader(data, bits, pos, false, st.d.lru), edge)
        || (var b := Block(data, bits, pos, st, n);
            b.Done? && b.at < 8 * edge && Cut(data, bits, b.at, b.value.st, n + b.value.size, total, edge)))
  }

  /** The only places where a reader that fills its buffer can lose bytes: such a header, or
      the padding byte of an odd uncompressed block, when exactly one buffer follows it. */
  ghost predicate AtBufferEnd(data: seq<Byte>, bits: seq<Bit>, pos: nat, st: Chunk)
    requires ChunkOk(st)
  {
    || (st.unaligned && pos + 8 * (BUFFER_SIZE + 1) == 8 * |data|)
    || Late(data, BlockHeader(data, bits, pos, st.unaligned, st.d.lru))
  }

  /** One of the blocks is at such a place. */
  ghost predicate SomeAtBufferEnd(data: seq<Byte>, bits: seq<Bit>, pos: nat, st: Chunk, n: nat, total: nat)
    requires ChunkOk(st) && |bits| <= 8 * |data|
    decreases 8 * |data| - pos
  {
    && n < total
    && (|| AtBufferEnd(data, bits, pos, st)
        || (var b := Block(data, bits, pos, st, n);
            b.Done? && SomeAtBufferEnd(data, bits, b.at, b.value.st, n + b.value.size, total)))
  }

  /** Every block is compressed. */
  ghost predicate AllCompressed(data: seq<Byte>, bits: seq<Bit>, pos: nat, st: Chunk, n: nat, total: nat)
    requires ChunkOk(st) && |bits| <= 8 * |data|
    decreases 8 * |data| - pos
  {
    n < total ==>
      && !StoredHere(data, bits, pos, st)
      && var b := Block(data, bits, pos, st, n);
         b.Done? ==> AllCompressed(data, bits, b.at, b.value.st, n + b.value.size, total)
  }

  lemma CompressedStaysAligned(data: seq<Byte>, bits: seq<Bit>, pos: nat, st: Chunk, start: nat)
    requires ChunkOk(st) && |bits| <= 8 * |data| && !StoredHere(data, bits, pos, st)
    ensures Block(data, bits, pos, st, start).Done? ==> !Block(data, bits, pos, st, start).value.st.unaligned
  {
    hide BlockHeader, BlockTrees, BlockFrom;
  }

  /** A chunk of compressed blocks alone has no such place. */
  lemma {:induction false} CompressedIsClear(
    data: seq<Byte>, bits: seq<Bit>, pos: nat, st: Chunk, n: nat, total: nat)
    requires ChunkOk(st) && |bits| <= 8 * |data| && !st.unaligned && AllCompressed(data, bits, pos, st, n, total)
    ensures !SomeAtBufferEnd(data, bits, pos, st, n, total)
    decreases 8 * |data| - pos
  {
    hide Block, BlockHeader;
    if n < total {
      CompressedStaysAligned(data, bits, pos, st, n);
      var b := Block(data, bits, pos, st, n);
      if b.Done? {
        CompressedIsClear(data, bits, b.at, b.value.st, n + b.value.size, total);
      }
    }
  }

  lemma {:induction false} CompressedIsNotFull(
    data: seq<Byte>, bits: seq<Bit>, pos: nat, st: Chunk, cached: bool, total: nat)
    requires ChunkOk(st) && |bits| <= 8 * |data| && !st.unaligned && total > 0
    requires AllCompressed(data, bits, pos, st, 0, total)
    ensures EmptyThenFull(data, bits, pos, st, cached) ==> Blocks(data, bits, pos, st, 0, total).Bad?
    decreases 8 * |data| - pos
  {
    hide Peek;
    CompressedStaysAligned(data, bits, pos, st, 0);
    FullFails(data, bits, pos, st, 0);
    hide Block, BlockHeader, FullStored;
    var b := Block(data, bits, pos, st, 0);
    if b.Done? && b.value.size == 0 {
      CompressedIsNotFull(data, bits, b.at, b.value.st, !StoredHere(data, bits, pos, st), total);
    }
  }

  /** The header of a full uncompressed block is one, or is cut off. */
  lemma FullFails(data: seq<Byte>, bits: seq<Bit>, pos: nat, st: Chunk, start: nat)
    requires ChunkOk(st) && |bits| <= 8 * |data| && !st.unaligned && !StoredHere(data, bits, pos, st)
    ensures FullStored(bits, pos) ==> Block(data, bits, pos, st, start).Bad?
  {
    hide Peek, BlockBody;
  }

  /** Nor has any chunk of at most one buffer. */
  lemma {:induction false} SmallIsClear(data: seq<Byte>, bits: seq<Bit>, pos: nat, st: Chunk, n: nat, total: nat)
    requires ChunkOk(st) && |bits| <= 8 * |data| && |data| <= BUFFER_SIZE
    ensures !SomeAtBufferEnd(data, bits, pos, st, n, total)
    decreases 8 * |data| - pos
  {
    hide Block, BlockHeader;
    var b := Block(data, bits, pos, st, n);
    if n < total && b.Done? {
      SmallIsClear(data, bits, b.at, b.value.st, n + b.value.size, total);
    }
  }

  // ---- the end of the input

  /** With an odd byte left over and fewer than sixteen bits before it, only compressed blocks
      can follow, and they end in the bit string. */
  lemma BlockEndsInBits(data: seq<Byte>, bits: seq<Bit>, pos: nat, st: Chunk, start: nat)
    requires ChunkOk(st) && |bits| + 8 == 8 * |data| && pos <= |bits| < pos + 16
    ensures Block(data, bits, pos, st, start).Done? ==> Block(data, bits, pos, st, start).at <= |bits|
  {
    hide Peek, CompressedBlock, StoredBlock;
  }

  lemma {:induction false} BlocksEndInBits(data: seq<Byte>, bits: seq<Bit>, pos: nat, st: Chunk, n: nat, total: nat)
    requires ChunkOk(st) && |bits| + 8 == 8 * |data| && pos <= |bits| < pos + 16
    ensures Blocks(data, bits, pos, st, n, total).Done? ==> Blocks(data, bits, pos, st, n, total).at <= |bits|
    decreases 8 * |data| - pos
  {
    hide Block;
    BlockEndsInBits(data, bits, pos, st, n);
    var b := Block(data, bits, pos, st, n);
    if n < total && b.Done? {
      BlocksEndInBits(data, bits, b.at, b.value.st, n + b.value.size, total);
    }
  }
}
