/** What the parser of LzxSpec makes of given codes and bits, in the numbers of the format
    and without its tables (internal/wim/lzx/lzx.go:36-51, 262-388, 436-504). */
module LzxFormat {
  import opened Arith
  import opened BitString
  import opened Canonical
  import opened BitReader
  import opened LzxSpec

  // ---- distances

  /** Two slots for each power of two, each with the bits below its top two as footer. */
  lemma SlotTable(slot: nat)
    requires 3 <= slot < 30
    ensures FOOTER_BITS[slot] == slot / 2 - 1
    ensures BASE_POSITION[slot] == 2 * Pow2(slot / 2 - 1) + if slot % 2 == 1 then Pow2(slot / 2 - 1) else 0
  {
    hide Pow2;
    if slot < 16 {
      LowSlots(slot);
    } else {
      HighSlots(slot);
    }
  }

  lemma LowSlots(slot: nat)
    requires 3 <= slot < 16
    ensures FOOTER_BITS[slot] == slot / 2 - 1
    ensures BASE_POSITION[slot] == 2 * Pow2(slot / 2 - 1) + if slot % 2 == 1 then Pow2(slot / 2 - 1) else 0
  {
    Pow2Values();
  }

  lemma HighSlots(slot: nat)
    requires 16 <= slot < 30
    ensures FOOTER_BITS[slot] == slot / 2 - 1
    ensures BASE_POSITION[slot] == 2 * Pow2(slot / 2 - 1) + if slot % 2 == 1 then Pow2(slot / 2 - 1) else 0
  {
    Pow2Values();
    assert Pow2(10) == 1024 && Pow2(11) == 2048 && Pow2(12) == 4096 && Pow2(13) == 8192;
  }

  /** k is the place of the top bit of d + 2, for a distance d that a slot can code. */
  predicate TopBitAt(d: nat, k: nat) {
    1 <= d <= 32765 && 1 <= k && Pow2(k) <= d + 2 < 2 * Pow2(k)
  }

  /** The bit of d + 2 below its top one. */
  function NextBit(d: nat, k: nat): (bit: nat)
    requires TopBitAt(d, k)
    ensures bit < 2
  {
    if d + 2 >= Pow2(k) + Pow2(k - 1) then 1 else 0
  }

  /** The k - 1 bits of d + 2 below those two. */
  function LowBits(d: nat, k: nat): (f: nat)
    requires TopBitAt(d, k)
    ensures f < Pow2(k - 1)
  {
    d + 2 - Pow2(k) - if NextBit(d, k) == 1 then Pow2(k - 1) else 0
  }

  function SlotOf(d: nat, k: nat): (slot: nat)
    requires TopBitAt(d, k)
    ensures 3 <= slot < 30
  {
    TopBitBelow15(d, k);
    assert Pow2(1) == 2;
    2 * k + NextBit(d, k)
  }

  lemma TopBitBelow15(d: nat, k: nat)
    requires TopBitAt(d, k)
    ensures k <= 14
  {
    Pow2Values();
    assert Pow2(13) == 8192 && Pow2(15) == 4 * Pow2(13);
    Pow2Monotone(15, if k > 14 then k else 15);
  }

  lemma SlotOfDistance(d: nat, k: nat)
    requires TopBitAt(d, k)
    ensures FOOTER_BITS[SlotOf(d, k)] == k - 1 && BASE_POSITION[SlotOf(d, k)] + LowBits(d, k) == d + 2
  {
    hide Pow2;
    SlotTable(SlotOf(d, k));
    HalfOf(2 * k + NextBit(d, k), k, NextBit(d, k));
    Pow2Double(k);
  }

  lemma HalfOf(slot: nat, k: nat, bit: nat)
    requires slot == 2 * k + bit && bit < 2
    ensures slot / 2 == k && slot % 2 == bit
  {
  }

  lemma Pow2Double(k: nat)
    requires k > 0
    ensures Pow2(k) == 2 * Pow2(k - 1)
  {
  }

  /** In a verbatim block, and for short footers in any, a distance is its slot and then
      the low bits of d + 2. */
  lemma VerbatimDistance(t: Trees, bits: seq<Bit>, pos: nat, d: nat, k: nat)
    requires TopBitAt(d, k) && (t.aligned.None? || k < 4)
    requires k == 1 || pos + k - 1 <= |bits|
    requires Peek(bits, pos, k - 1) == LowBits(d, k)
    ensures MatchDistance(t, bits, pos, SlotOf(d, k)) == Done(Explicit(d), pos + k - 1)
  {
    hide Peek, Code, LowBits, NextBit, SlotOf, Pow2;
    SlotOfDistance(d, k);
  }

  /** In an aligned-offset block the lowest three of these bits are a code of the aligned tree. */
  lemma AlignedDistance(t: Trees, bits: seq<Bit>, pos: nat, d: nat, k: nat)
    requires TopBitAt(d, k) && t.aligned.Some? && k >= 4 && pos + k - 4 <= |bits|
    requires Peek(bits, pos, k - 4) == LowBits(d, k) / 8
    requires IsCode(t.aligned.value, bits, pos + k - 4, LowBits(d, k) % 8)
    ensures MatchDistance(t, bits, pos, SlotOf(d, k)) ==
            Done(Explicit(d), pos + k - 4 + t.aligned.value[LowBits(d, k) % 8])
  {
    hide Peek, Code, LowBits, NextBit, SlotOf, IsCode, Pow2;
    SlotOfDistance(d, k);
    CodeIs(t.aligned.value, bits, pos + k - 4, LowBits(d, k) % 8);
  }

  /** Every slot and footer belong to a distance, ... */
  lemma SlotsTile(slot: nat, footer: nat) returns (d: nat, k: nat)
    requires 3 <= slot < 30 && footer < Pow2(slot / 2 - 1)
    ensures TopBitAt(d, k) && SlotOf(d, k) == slot && LowBits(d, k) == footer
  {
    k := slot / 2;
    Pow2Values();
    assert Pow2(k) == 2 * Pow2(k - 1);
    Pow2Monotone(k - 1, 13);
    assert Pow2(13) == 8192 by { assert Pow2(10) == 1024; }
    Pow2Monotone(0, k - 1);
    d := Pow2(k) + (if slot % 2 == 1 then Pow2(k - 1) else 0) + footer - 2;
  }

  /** ... and greater distances have greater slots, or greater footers in the same slot. */
  lemma SlotsInOrder(d: nat, k: nat, e: nat, m: nat)
    requires TopBitAt(d, k) && TopBitAt(e, m) && d < e
    ensures var s, t := SlotOf(d, k), SlotOf(e, m);
            s < t || (s == t && LowBits(d, k) < LowBits(e, m))
  {
    if m < k {
      Pow2Monotone(m + 1, k);
    }
  }

  /** The first three slots repeat an offset. */
  lemma RepeatedDistance(t: Trees, bits: seq<Bit>, pos: nat, slot: nat)
    requires slot <= 2
    ensures MatchDistance(t, bits, pos, slot) == Done(Repeat(slot), pos)
  {
  }

  // ---- tokens

  /** A code below 256 is a literal byte. */
  lemma LiteralToken(t: Trees, bits: seq<Bit>, pos: nat, b: nat)
    requires |t.main| == 496 && b < 256 && IsCode(t.main, bits, pos, b)
    ensures NextToken(t, bits, pos) == Done(Literal(b), pos + t.main[b])
  {
    hide Code, MatchLength, MatchDistance;
    CodeIs(t.main, bits, pos, b);
  }

  /** A match of up to eight bytes has its length, less two, in its main code. */
  lemma ShortMatch(t: Trees, bits: seq<Bit>, pos: nat, n: nat, slot: nat, d: Distance, end: nat)
    requires |t.main| == 496 && 2 <= n <= 8 && slot < 30 && IsCode(t.main, bits, pos, 256 + 8 * slot + n - 2)
    requires MatchDistance(t, bits, pos + t.main[256 + 8 * slot + n - 2], slot) == Done(d, end)
    ensures NextToken(t, bits, pos) == Done(Match(n, d), end)
  {
    hide Code, MatchDistance;
    CodeIs(t.main, bits, pos, 256 + 8 * slot + n - 2);
  }

  /** A longer one has it, less nine, in a code of the length tree. */
  lemma LongMatch(t: Trees, bits: seq<Bit>, pos: nat, n: nat, slot: nat, d: Distance, end: nat)
    requires |t.main| == 496 && n >= 9 && slot < 30 && IsCode(t.main, bits, pos, 256 + 8 * slot + 7)
    requires IsCode(t.length, bits, pos + t.main[256 + 8 * slot + 7], n - 9)
    requires MatchDistance(
               t, bits, pos + t.main[256 + 8 * slot + 7] + t.length[n - 9], slot) == Done(d, end)
    ensures NextToken(t, bits, pos) == Done(Match(n, d), end)
  {
    hide Code, MatchDistance;
    CodeIs(t.main, bits, pos, 256 + 8 * slot + 7);
    CodeIs(t.length, bits, pos + t.main[256 + 8 * slot + 7], n - 9);
  }

  // ---- trees

  /** lens with n of its elements from i on replaced by v. */
  ghost predicate RunOf(before: seq<nat>, after: seq<nat>, i: nat, n: nat, v: nat) {
    i + n <= |before| == |after| &&
    forall k | 0 <= k < |after| :: after[k] == if i <= k < i + n then v else before[k]
  }

  lemma RunIsSet(before: seq<nat>, after: seq<nat>, i: nat, n: nat, v: nat)
    requires RunOf(before, after, i, n, v)
    ensures after == SetRun(before, i, n, v)
  {
    var run := SetRun(before, i, n, v);
    forall k | 0 <= k < |after|
      ensures after[k] == run[k]
    {
      if i <= k < i + n {
        assert run[k] == seq(n, _ => v)[k - i];
      } else if k >= i + n {
        assert run[k] == before[i + n..][k - i - n];
      }
    }
  }

  /** The one length v that the code c changes the length l into: v + c is l modulo 17. */
  lemma DeltaIs(l: nat, c: nat, v: nat)
    requires l <= 16 && c <= 16 && v <= 16 && (v + c) % 17 == l
    ensures Delta(l, c) == v
  {
  }

  /** Codes up to 16 change one length. */
  lemma OneLength(pre: seq<nat>, bits: seq<Bit>, pos: nat, lens: seq<nat>, i: nat, c: nat, v: nat)
    requires i < |lens| && c <= 16 && IsCode(pre, bits, pos, c)
    requires lens[i] <= 16 && v <= 16 && (v + c) % 17 == lens[i]
    ensures TreeFrom(pre, bits, pos, lens, i) == TreeFrom(pre, bits, pos + pre[c], lens[i := v], i + 1)
  {
    hide Code, IsCode;
    CodeIs(pre, bits, pos, c);
    DeltaIs(lens[i], c, v);
  }

  /** 17 is a run of 4 to 19 zeros, four bits saying how many. */
  lemma ShortZeroRun(pre: seq<nat>, bits: seq<Bit>, pos: nat, lens: seq<nat>, after: seq<nat>, i: nat, n: nat)
    requires IsCode(pre, bits, pos, 17) && 4 <= n && RunOf(lens, after, i, n, 0)
    requires pos + pre[17] + 4 <= |bits| && Peek(bits, pos + pre[17], 4) == n - 4
    ensures TreeFrom(pre, bits, pos, lens, i) == TreeFrom(pre, bits, pos + pre[17] + 4, after, i + n)
  {
    hide Code, IsCode, RunOf, SetRun, Peek;
    CodeIs(pre, bits, pos, 17);
    RunIsSet(lens, after, i, n, 0);
    RunFits(lens, after, i, n, 0);
  }

  /** 18 is a run of 20 to 51 zeros, five bits saying how many. */
  lemma LongZeroRun(pre: seq<nat>, bits: seq<Bit>, pos: nat, lens: seq<nat>, after: seq<nat>, i: nat, n: nat)
    requires IsCode(pre, bits, pos, 18) && 20 <= n && RunOf(lens, after, i, n, 0)
    requires pos + pre[18] + 5 <= |bits| && Peek(bits, pos + pre[18], 5) == n - 20
    ensures TreeFrom(pre, bits, pos, lens, i) == TreeFrom(pre, bits, pos + pre[18] + 5, after, i + n)
  {
    hide Code, IsCode, RunOf, SetRun, Peek;
    CodeIs(pre, bits, pos, 18);
    RunIsSet(lens, after, i, n, 0);
    RunFits(lens, after, i, n, 0);
  }

  /** 19 is a run of four or five equal lengths, one bit saying which and one more code saying
      what the first of them changes into. */
  lemma EqualRun(
    pre: seq<nat>, bits: seq<Bit>, pos: nat, lens: seq<nat>, after: seq<nat>, i: nat, n: nat, c: nat, v: nat)
    requires IsCode(pre, bits, pos, 19) && 4 <= n && RunOf(lens, after, i, n, v)
    requires pos + pre[19] + 1 <= |bits| && Peek(bits, pos + pre[19], 1) == n - 4
    requires c <= 16 && IsCode(pre, bits, pos + pre[19] + 1, c)
    requires lens[i] <= 16 && v <= 16 && (v + c) % 17 == lens[i]
    ensures TreeFrom(pre, bits, pos, lens, i) == TreeFrom(pre, bits, pos + pre[19] + 1 + pre[c], after, i + n)
  {
    RunFits(lens, after, i, n, v);
    CodeIn(pre, bits, pos, 19);
    hide Code, IsCode, RunOf, SetRun, Peek;
    CodeIs(pre, bits, pos, 19);
    CodeIs(pre, bits, pos + pre[19] + 1, c);
    DeltaIs(lens[i], c, v);
    RunIsSet(lens, after, i, n, v);
  }

  lemma CodeIn(lens: seq<nat>, bits: seq<Bit>, pos: nat, s: nat)
    requires IsCode(lens, bits, pos, s)
    ensures s < |lens|
  {
  }

  lemma RunFits(before: seq<nat>, after: seq<nat>, i: nat, n: nat, v: nat)
    requires RunOf(before, after, i, n, v)
    ensures i + n <= |before|
  {
  }

  lemma {:induction false} FieldAt(bits: seq<Bit>, pos: nat, w: nat, k: nat, i: nat)
    requires pos + w * k <= |bits| && i < k
    ensures pos + w * i + w <= |bits| && Fields(bits, pos, w, k)[i] == Peek(bits, pos + w * i, w)
    decreases k
  {
    hide Peek;
    assert w * k == w * (k - 1) + w;
    if i < k - 1 {
      FieldAt(bits, pos, w, k - 1, i);
    }
  }

  /** A tree starts with twenty fields of four bits, the lengths of the codes it is coded in. */
  lemma TreeIs(bits: seq<Bit>, pos: nat, lens: seq<nat>, pre: seq<nat>)
    requires pos + 80 <= |bits| && |pre| == 20 && (AllZero(pre) || Complete(pre))
    requires forall i | 0 <= i < 20 :: pre[i] == Peek(bits, pos + 4 * i, 4)
    ensures Tree(bits, pos, lens) == TreeFrom(pre, bits, pos + 80, lens, 0)
  {
    hide Peek, TreeFrom, Complete, AllZero, Fields;
    forall i | 0 <= i < 20
      ensures Fields(bits, pos, 4, 20)[i] == pre[i]
    {
      FieldAt(bits, pos, 4, 20, i);
    }
    assert Fields(bits, pos, 4, 20) == pre;
  }

  /** The trees of a block: the main tree for the 256 literals, then for the 240 match codes,
      then the length tree; each changes the lengths of the block before. */
  lemma VerbatimTrees(
    bits: seq<Bit>, pos: nat, main: seq<nat>, length: seq<nat>,
    low: seq<nat>, p: nat, high: seq<nat>, q: nat, lens: seq<nat>, r: nat)
    requires |main| == 496
    requires Tree(bits, pos, main[..256]) == Done(low, p) && Tree(bits, p, main[256..]) == Done(high, q)
    requires Tree(bits, q, length) == Done(lens, r) && Usable(low + high) && Usable(lens)
    ensures BlockTrees(bits, pos, false, main, length) == Done(Trees(low + high, lens, None), r)
  {
    hide Tree, Usable;
  }

  /** An aligned-offset block has eight fields of three bits before them. */
  lemma AlignedTrees(
    bits: seq<Bit>, pos: nat, main: seq<nat>, length: seq<nat>, aligned: seq<nat>, m: seq<nat>, l: seq<nat>, r: nat)
    requires |main| == 496 && pos + 24 <= |bits| && |aligned| == 8 && Usable(aligned)
    requires forall i | 0 <= i < 8 :: aligned[i] == Peek(bits, pos + 3 * i, 3)
    requires BlockTrees(bits, pos + 24, false, main, length) == Done(Trees(m, l, None), r)
    ensures BlockTrees(bits, pos, true, main, length) == Done(Trees(m, l, Some(aligned)), r)
  {
    hide Peek, Usable, Fields, MainTree, LengthTree;
    forall i | 0 <= i < 8
      ensures Fields(bits, pos, 3, 8)[i] == aligned[i]
    {
      FieldAt(bits, pos, 3, 8, i);
    }
    assert Fields(bits, pos, 3, 8) == aligned;
  }

  // ---- blocks

  /** The header of a compressed block: three bits of type, 1 for verbatim and 2 for aligned
      offsets, and a bit for the full size of 32768, or the size in 16 bits. */
  lemma CompressedHeader(data: seq<Byte>, bits: seq<Bit>, pos: nat, lru: seq<nat>, kind: nat, size: nat)
    requires |lru| == 3 && pos + 4 <= |bits| && kind in {1, 2} && Peek(bits, pos, 3) == kind
    requires if Peek(bits, pos + 3, 1) == 1 then size == 32768
             else pos + 20 <= |bits| && size <= 32768 && Peek(bits, pos + 4, 16) == size
    ensures BlockHeader(data, bits, pos, false, lru) ==
            Done(Header(kind, size, lru), pos + if Peek(bits, pos + 3, 1) == 1 then 4 else 20)
    ensures (kind == VERBATIM <==> kind == 1) && (kind == ALIGNED <==> kind == 2)
  {
    hide Peek;
    PeekBound(bits, pos + 3, 1);
    Pow2Values();
  }

  function Pair(data: seq<Byte>, k: nat): nat
    requires k + 1 < |data|
  {
    var low: int, high: int := data[k], data[k + 1];
    low + 256 * high
  }

  /** That of an uncompressed block, type 3, ends in three repeat offsets at the next word
      boundary, little-endian numbers of 32 bits cut to 16. */
  lemma UncompressedHeader(data: seq<Byte>, bits: seq<Bit>, pos: nat, lru: seq<nat>, size: nat, q: nat)
    requires |lru| == 3 && pos + 4 <= |bits| && Peek(bits, pos, 3) == 3
    requires if Peek(bits, pos + 3, 1) == 1 then size == 32768 && pos + 4 < 16 * q <= pos + 20
             else
               && pos + 20 <= |bits| && size <= 32768 && Peek(bits, pos + 4, 16) == size
               && pos + 20 < 16 * q <= pos + 36
    requires 16 * q <= |bits| && 2 * q + 12 <= |data|
    ensures BlockHeader(data, bits, pos, false, lru) ==
            Done(Header(3, size, [Pair(data, 2 * q), Pair(data, 2 * q + 4), Pair(data, 2 * q + 8)]), 16 * q + 96)
  {
    hide Peek;
    PeekBound(bits, pos + 3, 1);
    Pow2Values();
    var p := if Peek(bits, pos + 3, 1) == 1 then pos + 4 else pos + 20;
    assert p / 16 + 1 == q;
  }

  /** After an odd uncompressed block a padding byte comes first. */
  lemma PaddedHeader(data: seq<Byte>, bits: seq<Bit>, pos: nat, lru: seq<nat>)
    requires |lru| == 3 && pos + 8 <= 8 * |data|
    ensures BlockHeader(data, bits, pos, true, lru) == BlockHeader(data, bits, pos + 8, false, lru)
  {
    hide HeaderTail, Peek;
  }

  // ---- what tokens and blocks do to the window

  /** A repeat takes slot k's offset and exchanges it with slot 0's; the third stays. */
  lemma RepeatExchanges(lru: seq<nat>, k: nat)
    requires |lru| == 3 && k < 3
    ensures Offset(lru, Repeat(k)) == lru[k]
    ensures var r := Touch(lru, Repeat(k));
            r[0] == lru[k] && r[k] == lru[0] && forall j | 0 < j < 3 && j != k :: r[j] == lru[j]
  {
  }

  /** An explicit offset moves the first two back and the third out. */
  lemma ExplicitPushes(lru: seq<nat>, o: nat)
    requires |lru| == 3
    ensures Offset(lru, Explicit(o)) == o && Touch(lru, Explicit(o)) == [o, lru[0], lru[1]]
  {
  }

  /** A literal is the byte at i. */
  lemma LiteralGoesOn(t: Trees, bits: seq<Bit>, pos: nat, d: Decoded, i: nat, end: nat, b: Byte, p: nat)
    requires |t.main| == 496 && |d.lru| == 3 && i < end <= |d.window|
    requires NextToken(t, bits, pos) == Done(Literal(b), p)
    ensures BlockFrom(t, bits, pos, d, i, end) == BlockFrom(t, bits, p, Decoded(d.window[i := b], d.lru), i + 1, end)
  {
    hide NextToken;
  }

  /** w is before with n bytes at i, each like the one o places before it. */
  ghost predicate Copied(before: seq<Byte>, w: seq<Byte>, i: nat, o: nat, n: nat) {
    && 1 <= o <= i && i + n <= |before| == |w|
    && (forall k | 0 <= k < |w| && !(i <= k < i + n) :: w[k] == before[k])
    && (forall k | i <= k < i + n :: w[k] == w[k - o])
  }

  /** A match copies bytes from its offset back, which lies in what is decoded; it may not
      go past the end of the block. */
  lemma MatchGoesOn(
    t: Trees, bits: seq<Bit>, pos: nat, d: Decoded, i: nat, end: nat, n: nat, k: Distance, p: nat, w: seq<Byte>)
    requires |t.main| == 496 && |d.lru| == 3 && i < end <= |d.window|
    requires NextToken(t, bits, pos) == Done(Match(n, k), p) && i + n <= end
    requires (k.Repeat? ==> k.slot < 3) && Copied(d.window, w, i, Offset(d.lru, k), n)
    ensures BlockFrom(t, bits, pos, d, i, end) == BlockFrom(t, bits, p, Decoded(w, Touch(d.lru, k)), i + n, end)
  {
    hide NextToken, Offset, Touch;
    CopiedIsExtend(d.window, w, i, Offset(d.lru, k), n);
  }

  lemma MatchRefused(
    t: Trees, bits: seq<Bit>, pos: nat, d: Decoded, i: nat, end: nat, n: nat, k: Distance, p: nat)
    requires |t.main| == 496 && |d.lru| == 3 && i < end <= |d.window| && (k.Repeat? ==> k.slot < 3)
    requires NextToken(t, bits, pos) == Done(Match(n, k), p) && (Offset(d.lru, k) > i || i + n > end)
    ensures BlockFrom(t, bits, pos, d, i, end) == Bad(CorruptData)
  {
    hide NextToken, Offset, Touch;
  }

  lemma CopiedIsExtend(before: seq<Byte>, w: seq<Byte>, i: nat, o: nat, n: nat)
    requires Copied(before, w, i, o, n)
    ensures w == Extend(before, i, o, n)
  {
    hide CopiedByte;
    var e := Extend(before, i, o, n);
    forall k | 0 <= k < |w|
      ensures w[k] == e[k]
    {
      if i <= k < i + n {
        CopiedUpTo(before, w, i, o, n, k - i);
        assert e[k] == CopiedByte(before, i, o, k - i);
      } else if k >= i + n {
        assert e[k] == before[i + n..][k - i - n];
      }
    }
  }

  lemma {:induction false} CopiedUpTo(before: seq<Byte>, w: seq<Byte>, i: nat, o: nat, n: nat, k: nat)
    requires Copied(before, w, i, o, n) && k < n
    ensures w[i + k] == CopiedByte(before, i, o, k)
  {
    hide CopiedByte;
    CopiedPeriod(before, i, o, k);
    if k >= o {
      CopiedUpTo(before, w, i, o, n, k - o);
    }
  }

  /** Block by block the bytes end up one after another: a block that starts at n writes its
      own bytes, from n on, and leaves the others alone. */
  lemma BlockWritesItsOwn(data: seq<Byte>, bits: seq<Bit>, pos: nat, st: Chunk, n: nat)
    requires ChunkOk(st) && |bits| <= 8 * |data| && Block(data, bits, pos, st, n).Done?
    ensures var b := Block(data, bits, pos, st, n).value;
            && n + b.size <= 32768
            && forall k | 0 <= k < 32768 && !(n <= k < n + b.size) :: b.st.d.window[k] == st.d.window[k]
  {
    hide BlockHeader, BlockTrees, BlockFrom;
    var h := BlockHeader(data, bits, pos, st.unaligned, st.d.lru);
    if h.value.kind != UNCOMPRESSED {
      var t := BlockTrees(bits, h.at, h.value.kind == ALIGNED, st.main, st.length);
      TokensWriteTheirOwn(t.value, bits, t.at, st.d.(lru := h.value.lru), n, n + h.value.size);
    }
  }

  lemma {:induction false} TokensWriteTheirOwn(t: Trees, bits: seq<Bit>, pos: nat, d: Decoded, i: nat, end: nat)
    requires |t.main| == MAIN_CODES && |d.lru| == 3 && i <= end <= |d.window|
    requires BlockFrom(t, bits, pos, d, i, end).Done?
    ensures forall k | 0 <= k < |d.window| && !(i <= k < end) ::
      BlockFrom(t, bits, pos, d, i, end).value.window[k] == d.window[k]
    decreases end - i
  {
    hide NextToken, CopiedByte;
    if i < end {
      match NextToken(t, bits, pos)
      case Done(Literal(b), p) => TokensWriteTheirOwn(t, bits, p, d.(window := d.window[i := b]), i + 1, end);
      case Done(Match(n, dist), p) =>
        var o := Offset(d.lru, dist);
        ExtendKeeps(d.window, i, o, n);
        TokensWriteTheirOwn(t, bits, p, Decoded(Extend(d.window, i, o, n), Touch(d.lru, dist)), i + n, end);
    }
  }

  lemma ExtendKeeps(window: seq<Byte>, i: nat, o: nat, n: nat)
    requires o <= i && i + n <= |window|
    ensures forall k | 0 <= k < |window| && !(i <= k < i + n) :: Extend(window, i, o, n)[k] == window[k]
  {
    hide CopiedByte;
    var e := Extend(window, i, o, n);
    forall k | 0 <= k < |window| && !(i <= k < i + n)
      ensures e[k] == window[k]
    {
      if k >= i + n {
        assert e[k] == window[i + n..][k - i - n];
      }
    }
  }

  /** A compressed block goes on from the code lengths and the repeat cache that the block
      before left, and leaves its own. */
  lemma CompressedBytes(
    data: seq<Byte>, bits: seq<Bit>, pos: nat, st: Chunk, n: nat, h: Header, p: nat, t: Trees, q: nat,
    d: Decoded, end: nat)
    requires ChunkOk(st) && |bits| <= 8 * |data| && n + h.size <= 32768
    requires BlockHeader(data, bits, pos, st.unaligned, st.d.lru) == Done(h, p) && h.kind != 3
    requires BlockTrees(bits, p, h.kind == 2, st.main, st.length) == Done(t, q)
    requires BlockFrom(t, bits, q, Decoded(st.d.window, h.lru), n, n + h.size) == Done(d, end)
    ensures Block(data, bits, pos, st, n) == Done(AfterBlock(Chunk(false, t.main, t.length, d), h.size), end)
  {
    hide BlockHeader, BlockTrees, BlockFrom;
  }

  /** A stored block is the next bytes of the data, and remembers whether they are odd. */
  lemma StoredBytes(data: seq<Byte>, bits: seq<Bit>, pos: nat, st: Chunk, n: nat, h: Header, q: nat)
    requires ChunkOk(st) && |bits| <= 8 * |data| && n + h.size <= 32768
    requires BlockHeader(data, bits, pos, st.unaligned, st.d.lru) == Done(h, 8 * q)
    requires h.kind == 3 && q + h.size <= |data|
    ensures var b := Block(data, bits, pos, st, n);
            && b.Done? && b.at == 8 * (q + h.size) && b.value.size == h.size
            && b.value.st.unaligned == (h.size % 2 == 1) && b.value.st.d.lru == h.lru
            && b.value.st.main == st.main && b.value.st.length == st.length
            && forall k | n <= k < n + h.size :: b.value.st.d.window[k] == data[q + k - n]
  {
    hide BlockHeader;
  }
}
