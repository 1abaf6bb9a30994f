/** The byte source and the 16-bit-word bit reader of the LZX decompressor
    (internal/wim/lzx/lzx.go:65-143). */
module BitReader {
  import opened Arith
  import opened BitString
  import opened Canonical
  import opened Huffman

  function Least(a: int, b: int): int {
    if a <= b then a else b
  }

  datatype Error = UnexpectedEOF | Corrupt | ReadFailed

  datatype ReadError = NoError | AtEnd | EndedEarly | Broken

  /** An io.Reader over fixed data. How many bytes one Read delivers is up to the reader, so
      every claim holds for any chunking; breaks says which reads fail. A reader that fills
      delivers all there is room for, as the io.SectionReader over a chunk does. */
  class Source {
    const data: seq<Byte>
    const breaks: nat -> bool
    const fills: bool
    var at: nat
    var asked: nat

    ghost predicate Valid()
      reads this
    {
      at <= |data|
    }

    /** A read has failed. */
    ghost predicate Broke()
      reads this
    {
      exists i | 0 <= i < asked :: breaks(i)
    }

    /** A buffer's worth has been delivered, or all there is. */
    ghost predicate Plenty()
      reads this
    {
      at == |data| || at >= BUFFER_SIZE
    }

    constructor (data: seq<Byte>, breaks: nat -> bool, fills: bool)
      ensures Valid() && this.data == data && this.breaks == breaks && this.fills == fills
      ensures at == 0 && asked == 0
    {
      this.data, this.breaks, this.fills := data, breaks, fills;
      at, asked := 0, 0;
    }

    /** io.ReadAtLeast into buf[lo..hi]. */
    method ReadAtLeast(buf: array<Byte>, lo: nat, hi: nat, min: nat) returns (n: nat, err: ReadError)
      requires Valid() && lo + min <= hi <= buf.Length
      modifies this, buf
      ensures Valid() && at == old(at) + n && n <= hi - lo
      ensures forall i | 0 <= i < buf.Length ::
                buf[i] == if lo <= i < lo + n then data[old(at) + i - lo] else old(buf[i])
      ensures err == NoError <==> n >= min
      ensures err == AtEnd ==> n == 0
      ensures err == EndedEarly ==> n > 0
      ensures err == AtEnd || err == EndedEarly ==> at == |data|
      ensures err == Broken || old(Broke()) ==> Broke()
      ensures fills && n > 0 ==> n == Least(hi - lo, |data| - old(at))
    {
      n, err := 0, NoError;
      while n < min && err == NoError
        invariant Valid() && at == old(at) + n && n <= hi - lo
        invariant forall i | 0 <= i < buf.Length ::
                    buf[i] == if lo <= i < lo + n then data[old(at) + i - lo] else old(buf[i])
        invariant err != NoError ==> n < min
        invariant err == AtEnd ==> at == |data|
        invariant err == NoError || err == AtEnd || err == Broken
        invariant err == Broken || old(Broke()) ==> Broke()
        invariant fills && n > 0 ==> n == Least(hi - lo, |data| - old(at))
        decreases err == NoError, hi - lo - n
      {
        var k;
        k, err := Read(buf, lo + n, hi);
        n := n + k;
      }
      if err == AtEnd && n > 0 {
        err := EndedEarly;
      }
    }

    /** One io.Reader.Read: some bytes, the end of the data, or a failure. */
    method Read(buf: array<Byte>, lo: nat, hi: nat) returns (n: nat, err: ReadError)
      requires Valid() && lo < hi <= buf.Length
      modifies this, buf
      ensures Valid() && at == old(at) + n && n <= hi - lo
      ensures forall i | 0 <= i < buf.Length ::
                buf[i] == if lo <= i < lo + n then data[old(at) + i - lo] else old(buf[i])
      ensures n > 0 <==> err == NoError
      ensures err == AtEnd ==> at == |data|
      ensures err == NoError || err == AtEnd || err == Broken
      ensures asked == old(asked) + 1 && (err == Broken <==> breaks(old(asked)))
      ensures err == Broken || old(Broke()) ==> Broke()
      ensures fills && n > 0 ==> n == Least(hi - lo, |data| - old(at))
    {
      var fails := breaks(asked);
      asked := asked + 1;
      if fails {
        n, err := 0, Broken;
      } else if at == |data| {
        n, err := 0, AtEnd;
      } else {
        n := Deliver(hi - lo);
        err := NoError;
        forall i | 0 <= i < n {
          buf[lo + i] := data[at + i];
        }
        at := at + n;
      }
    }

    /** How many bytes the next read delivers. */
    method Deliver(room: nat) returns (n: nat)
      requires at < |data| && room > 0
      ensures 1 <= n <= room && at + n <= |data|
      ensures fills ==> n == Least(room, |data| - at)
    {
      n := *;
      if fills || !(1 <= n <= room && at + n <= |data|) {
        n := Least(room, |data| - at);
      }
    }
  }

  /** The codeword of symbol s stands at pos. */
  ghost predicate IsCode(lens: seq<nat>, bits: seq<Bit>, pos: nat, s: nat) {
    && s < |lens| && 0 < lens[s] <= MAX_LENGTH
    && pos + lens[s] <= |bits|
    && Peek(bits, pos, lens[s]) == Codeword(lens, s)
  }

  /** Four bytes that arrive as three and one: feed gives up on the second word with both
      of its bytes left. However else they arrive, it delivers both words. */
  method LastWordLost(r: Source) returns (first: bool, second: bool, ghost arrived: nat, ghost left: nat)
    requires r.Valid() && r.at == 0 && |r.data| == 4 && forall i: nat :: !r.breaks(i)
    modifies r
    ensures first && 2 <= arrived <= 4
    ensures left == 2 && (second <==> arrived != 3)
    ensures r.fills ==> second
  {
    hide BitsOf, Reader.Cached;
    var f := new Reader(r);
    first := f.Feed();
    arrived, left := r.at, |r.data| - f.fed;
    second := f.Feed();
  }

  lemma PrefixCovers(lens: seq<nat>, bits: seq<Bit>, pos: nat, s: nat, n: nat)
    requires IsCode(lens, bits, pos, s) && lens[s] <= n <= MAX_LENGTH && pos + n <= |bits|
    ensures Covers(lens, s, Shl(Peek(bits, pos, n), MAX_LENGTH - n))
  {
    hide Peek, Shl, Shr, Pow2, Sum, Codeword;
    var y, x := Peek(bits, pos, n), Shl(Peek(bits, pos, n), MAX_LENGTH - n);
    PeekSplit(bits, pos, lens[s], n - lens[s]);
    PeekBound(bits, pos + lens[s], n - lens[s]);
    ShrShl(Codeword(lens, s), Peek(bits, pos + lens[s], n - lens[s]), n - lens[s]);
    ShrShl(y, 0, MAX_LENGTH - n);
    ShrShr(x, MAX_LENGTH - n, n - lens[s]);
    CoversIffPrefix(lens, s, x);
  }

  /** No codeword at pos is at most n bits long. */
  ghost predicate NoCodeWithin(lens: seq<nat>, bits: seq<Bit>, pos: nat, n: nat) {
    forall s: nat | IsCode(lens, bits, pos, s) :: lens[s] > n
  }

  /** The low half of a 32-bit little-endian field. */
  function LowHalf(data: seq<Byte>, k: nat): nat
    requires k + 1 < |data|
  {
    data[k] as int + 256 * (data[k + 1] as int)
  }

  const BUFFER_SIZE := 4096
  const WORD := 0x1_0000_0000

  /** The twelve bytes at q lie across the end of a buffer, and fewer than twelve follow it. */
  predicate Straddles(q: int, edge: nat, size: nat) {
    q < edge < q + 12 <= size < edge + 12
  }

  datatype Fill = Filled | OutOfBytes | Failed

  /** The decompressor's fields c, nbits, b, bo, bv, r and err. The ghost pos
      counts the bits handed out so far. */
  class Reader {
    const src: Source
    const b: array<Byte>
    var err: Option<Error>
    var nbits: nat
    var c: nat
    var bv: nat
    var bo: nat
    ghost const bits: seq<Bit>
    ghost var pos: nat
    ghost var fed: nat
    /** It has run out although the bytes it asked for are there, some buffered, some unread. */
    ghost var lost: bool

    /** c carries the next nbits bits at its top; those end on a word boundary. */
    static ghost predicate Cached(bits: seq<Bit>, pos: nat, nbits: nat, c: nat) {
      && nbits <= 32
      && (nbits > 0 ==> (pos + nbits) % 16 == 0 && pos + nbits <= |bits|)
      && c == Shl(Peek(bits, pos, nbits), 32 - nbits)
    }

    /** The buffer followed by the source carries the bytes from fed on. */
    ghost predicate Buffered()
      reads `bo, `bv, `fed, src, b
    {
      && b.Length == BUFFER_SIZE
      && bo <= bv <= BUFFER_SIZE
      && fed + (bv - bo) == src.at <= |src.data|
      && (forall i | bo <= i < bv :: b[i] == src.data[src.at - bv + i])
      && (src.fills && bo < bv ==> src.Plenty())
    }

    ghost predicate Refines()
      reads this, src, b
    {
      bits == BitsOf(src.data) && pos + nbits == 8 * fed && Cached(bits, pos, nbits, c) && Buffered()
    }

    /** Whether the next word starts on an even byte, as between compressed reads. */
    ghost predicate Aligned()
      reads this
    {
      fed % 2 == 0
    }

    ghost predicate Valid()
      reads this, src, b
    {
      && b.Length == BUFFER_SIZE && src.Valid() && c < WORD && nbits < 256
      && (err.None? ==> Refines())
      && (err == Some(ReadFailed) ==> src.Broke())
      && (lost ==> err == Some(UnexpectedEOF))
    }

    /** Neither the buffer nor the source alone has a word left. */
    ghost predicate Dry()
      reads this, src
    {
      bv - bo < 2 && |src.data| - src.at < 2
    }

    /** One byte is buffered and one unread: a word is left, but no read returns it. */
    ghost predicate Parted()
      reads this, src
    {
      bv - bo == 1 && |src.data| - src.at == 1
    }

    /** A word is lost, or one is going to be: a byte is unread, and those buffered before it
        end on an odd one. */
    ghost predicate Spoilt()
      reads this, src
    {
      lost || (err.None? && fed < src.at && src.at % 2 == 1 && src.at + 1 == |src.data|)
    }

    /** Where a reader that fills ends its buffer, now or after the next read. */
    ghost function Edge(): nat
      reads this, src
    {
      if fed < src.at then src.at else Least(fed + BUFFER_SIZE, |src.data|)
    }

    constructor (r: Source)
      requires r.Valid() && r.at == 0
      ensures Valid() && err.None? && Aligned() && pos == 0 && nbits == 0 && fed == 0 && bo == bv
      ensures !Spoilt() && Edge() == Least(BUFFER_SIZE, |r.data|)
      ensures src == r && fresh(b)
    {
      src := r;
      bits := BitsOf(r.data);
      b := new Byte[BUFFER_SIZE](_ => 0);
      err := None;
      nbits, c, bv, bo, pos, fed, lost := 0, 0, 0, 0, 0, 0, false;
      new;
      ShlZero(32);
    }

    method Fail(e: Error)
      requires Valid() && e != ReadFailed
      modifies `err, `bo, `bv
      ensures Valid() && err == (if old(err).Some? then old(err) else Some(e))
      ensures Spoilt() ==> old(Spoilt())
    {
      if err.None? {
        err := Some(e);
      }
      bo, bv := 0, 0;
    }

    /** Moves the buffered bytes to the front, leaving bo and bv to the caller. */
    method Compact()
      requires Buffered() && src.Valid()
      modifies b
      ensures forall i | 0 <= i < bv - bo :: b[i] == src.data[fed + i]
      ensures bv - bo == 1 ==> b[bo] == old(b[bo])
    {
      forall i | 0 <= i < bv - bo {
        b[i] := b[bo + i];
      }
    }

    /** Reads n bytes or more behind those still buffered. */
    method Refill(n: nat) returns (got: nat, e: ReadError)
      requires Buffered() && src.Valid() && bv - bo < n <= 12
      modifies b, src
      ensures src.Valid() && src.at == old(src.at) + got && bv - bo + got <= BUFFER_SIZE
      ensures forall i | 0 <= i < bv - bo + got :: b[i] == src.data[fed + i]
      ensures got == 0 && bv - bo == 1 ==> b[bo] == old(b[bo])
      ensures e == NoError <==> got >= n
      ensures e == AtEnd ==> got == 0
      ensures e == EndedEarly ==> got > 0
      ensures e == AtEnd || e == EndedEarly ==> src.at == |src.data|
      ensures e == Broken || old(src.Broke()) ==> src.Broke()
      ensures src.fills && got > 0 ==> src.at == Least(fed + BUFFER_SIZE, |src.data|)
    {
      hide Source.Broke;
      var k := bv - bo;
      Compact();
      got, e := src.ReadAtLeast(b, k, b.Length, n);
    }

    /** ensureAtLeast. It asks for n more bytes, not for what is missing, so it succeeds
        exactly if the buffer or the unread rest has n, and loses bytes when only both
        together do. Running out without reading any leaves err unset; any other failure
        sets it. */
    method EnsureAtLeast(n: nat) returns (r: Fill)
      requires Valid() && 1 <= n <= 12
      modifies this, b, src
      ensures src.Valid() && pos == old(pos) && nbits == old(nbits) && c == old(c) && fed == old(fed)
      ensures r == Filled || n <= 2 ==> Valid()
      ensures old(err).Some? ==> err == old(err)
      ensures r == Filled ==> err == old(err) && (err.None? ==> bv - bo >= n)
      ensures old(err).Some? ==> r != Filled
      ensures r == Failed ==> err.Some? && (old(err).None? ==> err == Some(ReadFailed))
      ensures err == old(err) || err == Some(UnexpectedEOF) || err == Some(ReadFailed)
      ensures old(err).None? && r != Failed ==>
                (r == Filled <==> old(bv - bo) >= n || |src.data| - old(src.at) >= n)
      ensures old(err).None? && r == OutOfBytes ==>
                err == if old(src.at) < |src.data| then Some(UnexpectedEOF) else None
      ensures err == Some(ReadFailed) || old(src.Broke()) ==> src.Broke()
      ensures r == Failed && old(err).None? ==> src.Broke()
      ensures lost <==>
        || old(lost)
        || (old(err).None? && r == OutOfBytes && old(bv - bo) + |src.data| - old(src.at) >= n)
      ensures src.fills && lost && !old(lost) ==> |src.data| > BUFFER_SIZE
      ensures r == OutOfBytes && old(err).None? ==> src.at == |src.data|
      ensures r == Filled && old(bv - bo) >= n ==> src.at == old(src.at)
      ensures r == Filled && old(bv - bo) < n && src.fills ==> src.at == Least(fed + BUFFER_SIZE, |src.data|)
    {
      hide BitsOf, Cached, Source.Broke;
      if err.Some? {
        // After a failure bo and bv are meaningless; see the README.
        return if err == Some(UnexpectedEOF) then OutOfBytes else Failed;
      }
      if bv - bo >= n {
        return Filled;
      }
      var got, e := Refill(n);
      if e == NoError {
        bv, bo := bv - bo + got, 0;
        return Filled;
      }
      if e == AtEnd {
        return OutOfBytes;
      }
      var cause := if e == EndedEarly then UnexpectedEOF else ReadFailed;
      err := Some(cause);
      lost := e == EndedEarly && bv - bo + got >= n;
      bo, bv := 0, 0;
      return if e == EndedEarly then OutOfBytes else Failed;
    }

    /** feed: one more word into c. Its comment has it false only when no bytes are left;
        that holds exactly unless the last two are parted. */
    method Feed() returns (ok: bool)
      requires Valid() && (err.None? ==> Aligned() && nbits <= 16)
      modifies this, b, src
      ensures Valid() && pos == old(pos)
      ensures old(err).Some? ==> err == old(err)
      ensures err.None? ==> Aligned() && (if ok then nbits == old(nbits) + 16 else nbits == old(nbits))
      ensures err == old(err) || err == Some(UnexpectedEOF) || err == Some(ReadFailed)
      ensures old(err).None? && err != Some(ReadFailed) ==>
                && (ok <==> !old(Dry()))
                && ((!ok <==> |src.data| - old(fed) < 2) <==> !old(Parted()))
      ensures old(err).None? && !ok ==>
                && err == (if old(src.at) < |src.data| then Some(UnexpectedEOF) else None)
                && |bits| <= pos + old(nbits) + (if old(Parted()) then 16 else 0)
      ensures err != old(err) && err == Some(UnexpectedEOF) ==> !ok
      ensures lost <==> old(lost) || (old(err).None? && err != Some(ReadFailed) && old(Parted()))
      ensures src.fills && Spoilt() ==> old(Spoilt())
      ensures src.fills && err.None? && fed < old(Edge()) ==> Edge() == old(Edge())
    {
      hide BitsOf, Cached, Source.Broke;
      var r := EnsureAtLeast(2);
      if r == OutOfBytes {
        return false;
      }
      if err.Some? {
        // Go shifts stale buffer bytes into c here; nobody reads them before err.
        return true;
      }
      TakeWord();
      return true;
    }

    /** The next buffered word joins the cache. */
    method TakeWord()
      requires Valid() && err.None? && Aligned() && nbits <= 16 && bv - bo >= 2
      modifies `c, `nbits, `bo, `fed
      ensures Valid() && Aligned() && nbits == old(nbits) + 16
    {
      hide BitsOf, Peek, Shl, BitOr, Source.Broke;
      var word := b[bo + 1] as int * 256 + b[bo];
      assert word == Word(src.data, fed / 2);
      CacheFeed(src.data, pos, nbits, c, fed / 2);
      c := BitOr(c, Shl(word, 16 - nbits));
      nbits := nbits + 16;
      bo := bo + 2;
      fed := fed + 2;
      CacheBound(bits, pos, nbits, c);
    }

    /** Shifts n bits out of the cache, as getBits and getCode end. */
    method Drop(n: nat)
      requires Valid() && n <= MAX_LENGTH && (err.None? ==> n <= nbits)
      modifies `c, `nbits, `pos
      ensures Valid() && pos == old(pos) + n && nbits == (old(nbits) + 256 - n) % 256
      ensures err.None? ==> Shr(old(c), 32 - n) == Peek(bits, old(pos), n)
    {
      hide BitsOf, Peek, Shl, Shr, Pow2, Cached, Buffered, Source.Broke;
      assert err.None? ==> nbits <= 32 && (n > 0 ==> pos + n <= |bits|) by {
        CachedBits();
      }
      if err.None? {
        if n == 0 {
          CacheTakeNone(bits, pos, nbits, c);
        } else {
          CacheTake(bits, pos, nbits, c, n);
        }
      }
      c := Shl(c, n) % WORD;
      nbits := (nbits + 256 - n) % 256;
      pos := pos + n;
    }

    lemma CachedBits()
      requires Valid()
      ensures err.None? ==> nbits <= 32 && (nbits > 0 ==> pos + nbits <= |bits|)
    {
      hide BitsOf, Peek, Shl;
    }

    /** getBits: the next n bits. It sets err when they run out. */
    method GetBits(n: nat) returns (v: nat)
      requires Valid() && n <= 16 && (err.None? ==> Aligned())
      modifies this, b, src
      ensures Valid() && v < Pow2(n)
      ensures old(err).Some? ==> err == old(err)
      ensures err.None? ==>
                && Aligned()
                && pos == old(pos) + n
                && nbits == old(nbits) - n + (if old(nbits) < n then 16 else 0)
                && (n > 0 ==> pos <= |bits|)
                && v == Peek(bits, old(pos), n)
      ensures old(err).None? && err != Some(ReadFailed) ==>
                (err == Some(UnexpectedEOF) <==> old(nbits) < n && old(Dry()))
      ensures old(nbits) >= n ==> err == old(err)
      ensures err != Some(Corrupt) || old(err) == Some(Corrupt)
      ensures lost <==>
        old(lost) || (old(err).None? && err != Some(ReadFailed) && old(nbits) < n && old(Parted()))
      ensures err != old(err) && err == Some(UnexpectedEOF) ==> lost || |bits| < old(pos) + n
      ensures src.fills && Spoilt() ==> old(Spoilt())
      ensures src.fills && err.None? && fed < old(Edge()) ==> Edge() == old(Edge())
    {
      hide BitsOf, Peek, Shl, Shr, Pow2, Cached;
      CachedBits();
      if nbits < n {
        var ok := Feed();
        if !ok {
          Fail(UnexpectedEOF);
        }
      }
      ShrWord(c, n);
      v := Shr(c, 32 - n);
      CachedBits();
      Drop(n);
    }

    /** The two-level lookup of the cached bits: the entry of the symbol they start with. */
    method Entry16(h: Table, ghost lens: seq<nat>) returns (e: nat, ghost s: nat)
      requires c < WORD && Decodes(h, lens) && h.maxbits > 0
      ensures Covers(lens, s, Shr(c, 16)) && s < TABLE_SIZE && e == Entry(lens[s], s)
    {
      hide Shl, Shr, Pow2, Sum, Codeword;
      SplitTop(c);
      s := LookUp(h, lens, Shr(c, 16));
      ShrShr(c, 16, 7);
      e := h.table[Shr(c, 32 - TABLE_BITS)];
      if !(e >= TABLE_SIZE) {
        LongIndex(h, lens, c);
        e := h.extra[e][Shr(Shl(c, TABLE_BITS) % WORD, 32 - (h.maxbits - TABLE_BITS))];
      }
    }

    /** getCode: the symbol whose codeword comes next, consuming just that codeword. */
    method GetCode(h: Table, ghost lens: seq<nat>) returns (v: nat)
      requires Valid() && (err.None? ==> Aligned()) && Decodes(h, lens)
      modifies this, b, src
      ensures Valid() && v < TABLE_SIZE
      ensures old(err).Some? ==> err == old(err)
      ensures err.None? ==>
                Aligned() && IsCode(lens, bits, old(pos), v) && pos == old(pos) + lens[v]
      ensures err != old(err) && err == Some(Corrupt) ==> AllZero(lens)
      ensures old(err).None? && err != Some(ReadFailed) && !AllZero(lens) ==>
                (err == Some(UnexpectedEOF) <==>
                 && old(nbits) < MAX_LENGTH && old(Dry())
                 && (old(src.at) < |src.data| || NoCodeWithin(lens, bits, old(pos), old(nbits))))
      ensures lost <==>
        || old(lost)
        || (old(err).None? && err != Some(ReadFailed) && old(nbits) < MAX_LENGTH && old(Parted()) && !AllZero(lens))
      ensures err != old(err) && err == Some(UnexpectedEOF) ==>
                || lost
                || (|bits| < old(pos) + MAX_LENGTH
                    && (|src.data| % 2 == 1 || NoCodeWithin(lens, bits, old(pos), |bits|)))
      ensures src.fills && Spoilt() ==> old(Spoilt())
    {
      hide BitsOf, Peek, Shl, Shr, Pow2, Sum, Codeword;
      if h.maxbits > 0 {
        if nbits < MAX_LENGTH {
          var _ := Feed();
        }
        var e: nat;
        ghost var s: nat;
        e, s := Entry16(h, lens);
        EntryParts(lens[s], s);
        var n := Shr(e, LEN_SHIFT);
        if nbits >= n {
          if err.None? {
            CodeHere(bits, pos, nbits, c, lens, s);
          }
          Drop(n);
          return e % TABLE_SIZE;
        }
        if err.None? {
          LongerThanCached(bits, pos, nbits, c, lens, s);
        }
        Fail(UnexpectedEOF);
        return 0;
      }
      Fail(Corrupt);
      return 0;
    }

    /** Byte access starts on a byte boundary with no bits cached. */
    ghost predicate AtByte()
      reads this
    {
      err.None? ==> nbits == 0
    }

    lemma Advance(n: nat)
      requires Valid() && err.None? && nbits == 0
      ensures Cached(bits, pos + 8 * n, 0, c)
    {
      hide BitsOf;
    }

    /** Skips the padding byte after an uncompressed block of odd size. */
    method SkipByte() returns (r: Fill)
      requires Valid() && AtByte()
      modifies this, b, src
      ensures Valid()
      ensures r == Filled ==> err == old(err)
      ensures r == Filled && err.None? ==>
                nbits == 0 && pos == old(pos) + 8 <= 8 * |src.data| && fed == old(fed) + 1
      ensures r == OutOfBytes && old(err).None? ==> |src.data| <= old(fed)
      ensures r == Failed && old(err).None? ==> src.Broke()
      ensures err == old(err) || err == Some(UnexpectedEOF) || err == Some(ReadFailed)
      ensures old(err).Some? ==> r != Filled
      ensures lost == old(lost)
      ensures src.fills && Spoilt() ==> old(Spoilt()) || old(fed) + BUFFER_SIZE + 1 == |src.data|
    {
      hide BitsOf, Cached, Source.Broke;
      r := EnsureAtLeast(1);
      if r == Filled && err.None? {
        Advance(1);
        bo, fed, pos := bo + 1, fed + 1, pos + 8;
      }
    }

    /** The three 32-bit fields of an uncompressed block header, cut to 16 bits. */
    method ReadCache() returns (r: Fill, lru: seq<nat>)
      requires Valid() && AtByte()
      modifies this, b, src
      ensures |lru| == 3
      ensures r == Filled ==> Valid() && err == old(err)
      ensures r == Filled && err.None? ==>
                && old(fed) + 12 <= |src.data|
                && lru == [LowHalf(src.data, old(fed)), LowHalf(src.data, old(fed) + 4),
                           LowHalf(src.data, old(fed) + 8)]
                && nbits == 0 && pos == old(pos) + 96 && fed == old(fed) + 12
      ensures old(err).Some? ==> r != Filled
      ensures r != Filled ==> src.Valid()
      ensures r == OutOfBytes && old(err).None? ==> lost || |src.data| < old(fed) + 12
      ensures old(err).Some? ==> err == old(err) && lost == old(lost)
      ensures lost && !old(lost) ==>
                old(fed) + 12 <= |src.data| <= old(fed) + 22 && (src.fills ==> |src.data| > BUFFER_SIZE)
      ensures old(Aligned()) && src.fills && Spoilt() && !lost ==> old(Spoilt())
      ensures (r == Failed && old(err).None?) || old(src.Broke()) ==> src.Broke()
      ensures src.fills && r == Filled && err.None? && fed < old(Edge()) ==> fed < src.at && Edge() == old(Edge())
      ensures src.fills && Straddles(old(fed), old(Edge()), |src.data|) ==> r != Filled
    {
      hide BitsOf, Cached, Source.Broke;
      lru := [0, 0, 0];
      r := EnsureAtLeast(12);
      if r == Filled && err.None? {
        lru := [LowHalf(b[bo..bo + 12], 0), LowHalf(b[bo..bo + 12], 4), LowHalf(b[bo..bo + 12], 8)];
        Advance(12);
        bo, fed, pos := bo + 12, fed + 12, pos + 96;
      }
    }

    /** Copies what the buffer holds of the next size bytes. */
    method TakeBuffered(window: array<Byte>, start: nat, size: nat) returns (copied: nat)
      requires Buffered() && start + size <= window.Length && window != b
      modifies `bo, window
      ensures copied <= size && bo == old(bo) + copied <= bv && (copied < size ==> bo == bv)
      ensures forall i | 0 <= i < window.Length ::
                window[i] == if start <= i < start + copied then src.data[fed + i - start] else old(window[i])
    {
      copied := 0;
      if bo < bv {
        copied := if size > bv - bo then bv - bo else size;
        forall i | 0 <= i < copied {
          window[start + i] := b[bo + i];
        }
        bo := bo + copied;
      }
    }

    /** The bytes of an uncompressed block: first what is buffered, then straight
        from the source. */
    method CopyStored(window: array<Byte>, start: nat, size: nat) returns (r: Fill)
      requires Valid() && err.None? && nbits == 0 && start + size <= window.Length && window != b
      modifies this, b, src, window
      ensures err.None? && !lost
      ensures Spoilt() ==> old(Spoilt())
      ensures r == OutOfBytes ==> |src.data| < old(fed) + size
      ensures r == Failed ==> src.Broke()
      ensures r == Filled ==>
                && Valid() && nbits == 0
                && fed == old(fed) + size <= |src.data| && pos == old(pos) + 8 * size
                && (forall i | 0 <= i < window.Length ::
                      window[i] == if start <= i < start + size then src.data[old(fed) + i - start] else old(window[i]))
      ensures r == Filled && old(fed) < old(src.at) && fed < old(Edge()) ==> Edge() == old(Edge())
    {
      hide BitsOf, Cached, Source.Broke;
      Advance(size);
      var copied := TakeBuffered(window, start, size);
      var n, e := src.ReadAtLeast(window, start + copied, start + size, size - copied);
      fed, pos := fed + size, pos + 8 * size;
      r := if e == NoError then Filled else if e == Broken then Failed else OutOfBytes;
    }
  }

  /** The symbol that the cached bits start with stands at the position. */
  lemma CodeHere(bits: seq<Bit>, pos: nat, nbits: nat, c: nat, lens: seq<nat>, s: nat)
    requires Reader.Cached(bits, pos, nbits, c) && Covers(lens, s, Shr(c, 16)) && s < |lens| && lens[s] <= nbits
    ensures IsCode(lens, bits, pos, s)
  {
    hide Peek, Shl, Shr, Pow2, Sum, Codeword;
    CoversIffPrefix(lens, s, Shr(c, 16));
    ShrShr(c, 16, MAX_LENGTH - lens[s]);
    CacheTake(bits, pos, nbits, c, lens[s]);
  }

  /** When the symbol that the cached bits start with is longer than they are, no codeword
      stands in them. */
  lemma LongerThanCached(bits: seq<Bit>, pos: nat, nbits: nat, c: nat, lens: seq<nat>, s: nat)
    requires Reader.Cached(bits, pos, nbits, c) && Covers(lens, s, Shr(c, 16)) && nbits < lens[s]
    ensures NoCodeWithin(lens, bits, pos, nbits)
  {
    hide Peek, Shl, Shr, Pow2, Sum, Codeword;
    forall t: nat | IsCode(lens, bits, pos, t)
      ensures lens[t] > nbits
    {
      if lens[t] <= nbits {
        PrefixCovers(lens, bits, pos, t, nbits);
        ShlShl(Peek(bits, pos, nbits), MAX_LENGTH - nbits, 16);
        ShrShl(Shl(Peek(bits, pos, nbits), MAX_LENGTH - nbits), 0, 16);
        CoversUnique(lens, s, t, Shr(c, 16));
      }
    }
  }

  lemma ShrWord(c: nat, n: nat)
    requires c < WORD && n <= 32
    ensures Shr(c, 32 - n) < Pow2(n)
  {
    Pow2Values();
    ShrBound(c, n, 32 - n);
  }

  lemma CacheBound(bits: seq<Bit>, pos: nat, nbits: nat, c: nat)
    requires Reader.Cached(bits, pos, nbits, c)
    ensures c < WORD
  {
    PeekBound(bits, pos, nbits);
    ShlBound(Peek(bits, pos, nbits), nbits, 32 - nbits);
    Pow2Values();
  }

  lemma WordAppend(bits: seq<Bit>, pos: nat, nbits: nat, v: nat, m: nat, w: nat)
    requires nbits + m <= w && pos + nbits + m <= |bits| && v < Pow2(m)
    requires Peek(bits, pos + nbits, m) == v
    ensures BitOr(Shl(Peek(bits, pos, nbits), w - nbits), Shl(v, w - nbits - m)) ==
            Shl(Peek(bits, pos, nbits + m), w - (nbits + m))
  {
    AppendBits(Peek(bits, pos, nbits), v, nbits, m, w);
    PeekSplit(bits, pos, nbits, m);
  }

  /** ORing the next word below the cached bits extends them by sixteen. */
  lemma CacheFeed(data: seq<Byte>, pos: nat, nbits: nat, c: nat, w: nat)
    requires Reader.Cached(BitsOf(data), pos, nbits, c) && nbits <= 16
    requires pos + nbits == 16 * w && 2 * w + 2 <= |data|
    ensures Reader.Cached(BitsOf(data), pos, nbits + 16, BitOr(c, Shl(Word(data, w), 16 - nbits)))
  {
    hide BitsOf, Peek, Shl, BitOr, Pow2, Word;
    assert (16 * w + 16) % 16 == 0;
    PeekWord(data, w);
    Below16(Word(data, w));
    WordAppend(BitsOf(data), pos, nbits, Word(data, w), 16, 32);
  }

  /** The top n of nbits cached bits in a word of w bits, and what a shift leaves. */
  lemma WordTake(bits: seq<Bit>, pos: nat, nbits: nat, n: nat, w: nat)
    requires n <= nbits <= w && 0 < nbits && pos + nbits <= |bits|
    ensures var c := Shl(Peek(bits, pos, nbits), w - nbits);
            && Shr(c, w - n) == Peek(bits, pos, n)
            && Shl(c, n) == Shl(Peek(bits, pos, n), w) + Shl(Peek(bits, pos + n, nbits - n), w - (nbits - n))
  {
    PeekSplit(bits, pos, n, nbits - n);
    PeekBound(bits, pos + n, nbits - n);
    TopBits(Peek(bits, pos, n), Peek(bits, pos + n, nbits - n), n, nbits - n, w);
  }

  /** Shifting the top n bits out of c keeps the rest. */
  lemma CacheTake(bits: seq<Bit>, pos: nat, nbits: nat, c: nat, n: nat)
    requires Reader.Cached(bits, pos, nbits, c) && 0 < n <= nbits
    ensures Shr(c, 32 - n) == Peek(bits, pos, n)
    ensures Reader.Cached(bits, pos + n, nbits - n, Shl(c, n) % WORD)
  {
    WordTake(bits, pos, nbits, n, 32);
    var rest := Shl(Peek(bits, pos + n, nbits - n), 32 - (nbits - n));
    CacheBound(bits, pos + n, nbits - n, rest);
    Truncate32(Peek(bits, pos, n), rest);
  }

  /** getBits(0), as for a match slot with no verbatim bits, reads nothing. */
  lemma CacheTakeNone(bits: seq<Bit>, pos: nat, nbits: nat, c: nat)
    requires Reader.Cached(bits, pos, nbits, c)
    ensures Shr(c, 32) == 0 && Shl(c, 0) % WORD == c && Peek(bits, pos, 0) == 0
  {
    CacheBound(bits, pos, nbits, c);
    ShrWord(c, 0);
  }
}
