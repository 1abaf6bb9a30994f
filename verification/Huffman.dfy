/** The two-level Huffman decoding table (internal/wim/lzx/lzx.go:145-220). */
module Huffman {
  import opened Arith
  import opened Canonical

  const TABLE_BITS := 9
  const TABLE_SIZE := 512
  const LEN_SHIFT := 9

  datatype Table = Table(maxbits: nat, table: seq<nat>, extra: seq<seq<nat>>)

  /** What a table slot holds for a symbol: its length above nine bits of index. */
  function Entry(len: nat, s: nat): nat {
    TABLE_SIZE * len + s
  }

  /** Where a 16-bit string is looked up in a second-level table. */
  function ExtraIndex(x: nat, max: nat): nat
    requires max <= MAX_LENGTH
  {
    Shr(x % 128, MAX_LENGTH - max)
  }

  /** Looking x up, directly or through the second level, stays in bounds and
      finds v. */
  ghost predicate Finds(table: seq<nat>, extra: seq<seq<nat>>, max: nat, x: nat, v: nat) {
    && max <= MAX_LENGTH
    && Shr(x, 7) < |table|
    && var e := table[Shr(x, 7)];
       if e >= TABLE_SIZE then e == v
       else e < |extra| && ExtraIndex(x, max) < |extra[e]| && extra[e][ExtraIndex(x, max)] == v
  }

  /** What buildTable promises: every string that belongs to a symbol finds it. */
  ghost predicate Decodes(h: Table, lens: seq<nat>) {
    && Lengths(lens)
    && h.maxbits <= MAX_LENGTH
    && (h.maxbits == 0 <==> AllZero(lens))
    && (h.maxbits > 0 ==> Complete(lens))
    && (h.maxbits <= TABLE_BITS ==> |h.extra| == 0)
    && forall s: nat, x: nat | Covers(lens, s, x) && x < SPACE ::
         Finds(h.table, h.extra, h.maxbits, x, Entry(lens[s], s))
  }

  // ---- ranges of slots

  lemma ShrIff(y: nat, k: nat, c: nat)
    ensures Shr(y, k) == c <==> Shl(c, k) <= y < Shl(c, k) + Pow2(k)
  {
    ShrParts(y, k);
    if Shl(c, k) <= y < Shl(c, k) + Pow2(k) {
      ShrShl(c, y - Shl(c, k), k);
    }
  }

  /** A short code owns a run of direct slots. */
  lemma ShortRange(x: nat, cl: nat, code: nat)
    requires cl <= TABLE_BITS
    ensures Shr(x, MAX_LENGTH - cl) == code <==>
            Shl(code, TABLE_BITS - cl) <= Shr(x, 7) < Shl(code, TABLE_BITS - cl) + Pow2(TABLE_BITS - cl)
  {
    ShrShr(x, 7, TABLE_BITS - cl);
    ShrIff(Shr(x, 7), TABLE_BITS - cl, code);
  }

  lemma {:induction false} ShrConcat(p: nat, r: nat, m: nat, k: nat)
    requires k <= m
    ensures Shr(Shl(p, m) + r, k) == Shl(p, m - k) + Shr(r, k)
  {
    if k > 0 {
      ShrConcat(p, r, m, k - 1);
    }
  }

  lemma LowSeven(x: nat)
    ensures x == Shl(Shr(x, 7), 7) + x % 128 && x % 128 < Pow2(7) && Shr(x, 7) == x / 128
  {
    ShrParts(x, 7);
    ShlValues(Shr(x, 7));
    Pow2Values();
  }

  lemma ConcatUnique(p: nat, a: nat, q: nat, b: nat, k: nat)
    requires a < Pow2(k) && b < Pow2(k)
    ensures Shl(p, k) + a == Shl(q, k) + b <==> p == q && a == b
  {
    ShrShl(p, a, k);
    ShrShl(q, b, k);
  }

  /** A long code owns a run of one second-level table. */
  lemma LongRange(x: nat, cl: nat, max: nat, code: nat)
    requires TABLE_BITS < cl <= max <= MAX_LENGTH
    ensures var suffix := Low(code, cl - TABLE_BITS);
            Shr(x, MAX_LENGTH - cl) == code <==>
              && Shr(x, 7) == Shr(code, cl - TABLE_BITS)
              && Shl(suffix, max - cl) <= ExtraIndex(x, max) < Shl(suffix, max - cl) + Pow2(max - cl)
  {
    hide Shl, Shr, Pow2;
    var k := cl - TABLE_BITS;
    var r := x % 128;
    LowSeven(x);
    ShrConcat(Shr(x, 7), r, 7, MAX_LENGTH - cl);
    ShrBound(r, k, MAX_LENGTH - cl);
    ConcatUnique(Shr(x, 7), Shr(r, MAX_LENGTH - cl), Shr(code, k), Low(code, k), k);
    ShrShr(r, MAX_LENGTH - max, max - cl);
    ShrIff(ExtraIndex(x, max), max - cl, Low(code, k));
  }

  // ---- the table while it is being filled

  /** The direct slots below core belong to codes of at most nine bits. */
  ghost predicate CoreOf(lens: seq<nat>, core: nat) {
    128 * core == Start(lens, TABLE_BITS + 1, 0)
  }

  /** The slots from core on lead to one second-level table each. */
  ghost predicate Skeleton(table: seq<nat>, extra: seq<seq<nat>>, max: nat, core: nat) {
    && 0 < max <= MAX_LENGTH
    && |table| == TABLE_SIZE
    && core + |extra| == TABLE_SIZE
    && (|extra| > 0 ==> max > TABLE_BITS)
    && (forall p: nat | core <= p < TABLE_SIZE :: table[p] == p - core)
    && (forall e: nat | e < |extra| :: |extra[e]| == Pow2(max - TABLE_BITS))
  }

  /** The slot that x selects for symbol s holds its entry. */
  ghost predicate Slotted(lens: seq<nat>, s: nat, x: nat, table: seq<nat>, extra: seq<seq<nat>>, max: nat, core: nat)
    requires s < |lens|
  {
    var p := Shr(x, 7);
    && max <= MAX_LENGTH
    && if lens[s] <= TABLE_BITS then p < |table| && table[p] == Entry(lens[s], s)
       else core <= p < core + |extra| && ExtraIndex(x, max) < |extra[p - core]|
            && extra[p - core][ExtraIndex(x, max)] == Entry(lens[s], s)
  }

  ghost predicate Filled(lens: seq<nat>, i: nat, table: seq<nat>, extra: seq<seq<nat>>, max: nat, core: nat) {
    forall s: nat, x: nat | s < i && Covers(lens, s, x) && x < SPACE ::
      Slotted(lens, s, x, table, extra, max, core)
  }

  /** row with v in the slots from lo up to hi. */
  ghost predicate Painted(row: seq<nat>, lo: nat, hi: nat, v: nat, painted: seq<nat>) {
    && |painted| == |row|
    && forall p: nat | p < |row| :: painted[p] == if lo <= p < hi then v else row[p]
  }

  lemma ShortBelowCore(lens: seq<nat>, i: nat, core: nat, p: nat)
    requires Lengths(lens) && i < |lens| && 0 < lens[i] <= TABLE_BITS && CoreOf(lens, core)
    requires var lo := Shl(Codeword(lens, i), TABLE_BITS - lens[i]);
             lo <= p < lo + Pow2(TABLE_BITS - lens[i])
    ensures p < core
  {
    hide Sum, Shl, Shr, Pow2, Codeword;
    var x := 128 * p;
    LowSeven(x);
    ShortRange(x, lens[i], Codeword(lens, i));
    CoversIffPrefix(lens, i, x);
    SumOrdered(lens, |lens|, i, TABLE_BITS + 1, 0, MAX_LENGTH);
  }

  lemma FillShort(lens: seq<nat>, i: nat, table: seq<nat>, extra: seq<seq<nat>>, max: nat, core: nat, table': seq<nat>)
    requires Lengths(lens) && i < |lens| && 0 < lens[i] <= TABLE_BITS && CoreOf(lens, core)
    requires Skeleton(table, extra, max, core) && Filled(lens, i, table, extra, max, core)
    requires var lo := Shl(Codeword(lens, i), TABLE_BITS - lens[i]);
             Painted(table, lo, lo + Pow2(TABLE_BITS - lens[i]), Entry(lens[i], i), table')
    ensures Skeleton(table', extra, max, core) && Filled(lens, i + 1, table', extra, max, core)
  {
    var code := Codeword(lens, i);
    forall p: nat | core <= p < TABLE_SIZE
      ensures table'[p] == p - core
    {
      if Shl(code, TABLE_BITS - lens[i]) <= p < Shl(code, TABLE_BITS - lens[i]) + Pow2(TABLE_BITS - lens[i]) {
        ShortBelowCore(lens, i, core, p);
      }
    }
    forall s: nat, x: nat | s < i + 1 && Covers(lens, s, x) && x < SPACE
      ensures Slotted(lens, s, x, table', extra, max, core)
    {
      LowSeven(x);
      ShortRange(x, lens[i], code);
      CoversIffPrefix(lens, i, x);
      if s < i {
        assert Slotted(lens, s, x, table, extra, max, core);
        if Covers(lens, i, x) {
          CoversUnique(lens, s, i, x);
        }
      }
    }
  }

  lemma {:induction false} SumGrows(lens: seq<nat>, n: nat, len: nat, s: nat, depth: nat)
    requires n <= |lens| && len > TABLE_BITS
    ensures Sum(lens, n, TABLE_BITS + 1, 0, depth) <= Sum(lens, n, len, s, depth)
  {
    if n > 0 {
      SumGrows(lens, n - 1, len, s, depth);
    }
  }

  /** A long code's first nine bits select a second-level table. */
  lemma LongPrefix(lens: seq<nat>, i: nat, core: nat)
    requires Lengths(lens) && Complete(lens) && CoreOf(lens, core)
    requires i < |lens| && TABLE_BITS < lens[i]
    ensures core <= Shr(Codeword(lens, i), lens[i] - TABLE_BITS) < TABLE_SIZE
  {
    var x := Start(lens, lens[i], i);
    CoversBelowKraft(lens, i);
    CoversIffPrefix(lens, i, x);
    ShrShr(x, MAX_LENGTH - lens[i], lens[i] - TABLE_BITS);
    LowSeven(x);
    SumGrows(lens, |lens|, lens[i], i, MAX_LENGTH);
  }

  /** A long code's run ends inside its second-level table. */
  lemma LongFits(code: nat, cl: nat, max: nat)
    requires TABLE_BITS < cl <= max <= MAX_LENGTH
    ensures Shl(Low(code, cl - TABLE_BITS), max - cl) + Pow2(max - cl) <= Pow2(max - TABLE_BITS)
  {
    ShlBound(Low(code, cl - TABLE_BITS), cl - TABLE_BITS, max - cl);
  }

  /** The second-level row a long code writes, and the run of slots in it. */
  ghost predicate LongRow(lens: seq<nat>, i: nat, extra: seq<seq<nat>>, max: nat, core: nat, row': seq<nat>)
    requires i < |lens| && TABLE_BITS < lens[i] <= max
    requires core <= Shr(Codeword(lens, i), lens[i] - TABLE_BITS) < core + |extra|
  {
    var k := lens[i] - TABLE_BITS;
    var lo := Shl(Low(Codeword(lens, i), k), max - lens[i]);
    Painted(extra[Shr(Codeword(lens, i), k) - core], lo, lo + Pow2(max - lens[i]), Entry(lens[i], i), row')
  }

  lemma FillLongAt(lens: seq<nat>, i: nat, table: seq<nat>, extra: seq<seq<nat>>, max: nat, core: nat, row': seq<nat>,
                   s: nat, x: nat)
    requires Lengths(lens) && i < |lens| && TABLE_BITS < lens[i] <= max <= MAX_LENGTH
    requires Skeleton(table, extra, max, core)
    requires core <= Shr(Codeword(lens, i), lens[i] - TABLE_BITS) < TABLE_SIZE
    requires LongRow(lens, i, extra, max, core, row')
    requires Covers(lens, s, x) && x < SPACE
    requires s == i || Slotted(lens, s, x, table, extra, max, core)
    ensures var extra' := extra[Shr(Codeword(lens, i), lens[i] - TABLE_BITS) - core := row'];
            Slotted(lens, s, x, table, extra', max, core)
  {
    hide Sum, Low, Shr, Shl, Pow2, Codeword, ExtraIndex, Covers, Entry, Start;
    var code := Codeword(lens, i);
    var lo := Shl(Low(code, lens[i] - TABLE_BITS), max - lens[i]);
    LowSeven(x);
    LongRange(x, lens[i], max, code);
    CoversIffPrefix(lens, i, x);
    LongFits(code, lens[i], max);
    if s == i {
      assert lo <= ExtraIndex(x, max) < lo + Pow2(max - lens[i]);
      assert row'[ExtraIndex(x, max)] == Entry(lens[i], i);
    } else if Covers(lens, i, x) {
      CoversUnique(lens, s, i, x);
    } else if Shr(x, 7) == Shr(code, lens[i] - TABLE_BITS) {
      var e := ExtraIndex(x, max);
      assert !(lo <= e < lo + Pow2(max - lens[i]));
      assert e < |row'| ==> row'[e] == extra[Shr(x, 7) - core][e];
    }
  }

  lemma FillLong(lens: seq<nat>, i: nat, table: seq<nat>, extra: seq<seq<nat>>, max: nat, core: nat, row': seq<nat>)
    requires Lengths(lens) && i < |lens| && TABLE_BITS < lens[i] <= max <= MAX_LENGTH
    requires Skeleton(table, extra, max, core) && Filled(lens, i, table, extra, max, core)
    requires core <= Shr(Codeword(lens, i), lens[i] - TABLE_BITS) < TABLE_SIZE
    requires LongRow(lens, i, extra, max, core, row')
    ensures var extra' := extra[Shr(Codeword(lens, i), lens[i] - TABLE_BITS) - core := row'];
            Skeleton(table, extra', max, core) && Filled(lens, i + 1, table, extra', max, core)
  {
    forall s: nat, x: nat | s < i + 1 && Covers(lens, s, x) && x < SPACE
      ensures var extra' := extra[Shr(Codeword(lens, i), lens[i] - TABLE_BITS) - core := row'];
              Slotted(lens, s, x, table, extra', max, core)
    {
      FillLongAt(lens, i, table, extra, max, core, row', s, x);
    }
  }

  // ---- buildTable

  lemma {:induction false} SumNoLonger(lens: seq<nat>, n: nat, max: nat)
    requires n <= |lens| && max <= MAX_LENGTH && forall j | 0 <= j < |lens| :: lens[j] <= max
    ensures Sum(lens, n, max + 1, 0, MAX_LENGTH) == Sum(lens, n, MAX_LENGTH + 1, 0, MAX_LENGTH)
  {
    if n > 0 {
      SumNoLonger(lens, n - 1, max);
    }
  }

  /** Counting codes length by length up to max completes the code exactly when
      the Kraft sum is full. */
  lemma CountedIsComplete(lens: seq<nat>, max: nat, code: nat)
    requires 0 < max <= MAX_LENGTH && forall j | 0 <= j < |lens| :: lens[j] <= max
    requires code == FirstCode(lens, max) + Count(lens, |lens|, max)
    ensures code == Pow2(max) <==> Complete(lens)
  {
    hide Sum, Shl, FirstCode, Count;
    FirstCodeIsSum(lens, max);
    RowTotal(lens, |lens|, max);
    SumScale(lens, |lens|, max + 1, 0, max, MAX_LENGTH - max);
    SumNoLonger(lens, |lens|, max);
    ShlOne(max);
    ShlShl(1, max, MAX_LENGTH - max);
    ShlOne(MAX_LENGTH);
    Pow2Values();
    if code < Pow2(max) {
      ShlLess(code, Pow2(max), MAX_LENGTH - max);
    } else if code > Pow2(max) {
      ShlLess(Pow2(max), code, MAX_LENGTH - max);
    }
  }

  lemma ShlLess(x: nat, y: nat, n: nat)
    requires x < y
    ensures Shl(x, n) < Shl(y, n)
  {
    ShlSum(x, 1, n);
    ShlOne(n);
    ShlMonotone(x + 1, y, n);
  }

  /** core is half the first ten-bit code, when there are codes that long. */
  lemma CoreIsHalf(lens: seq<nat>, core: nat)
    requires core == FirstCode(lens, TABLE_BITS + 1) / 2
    ensures CoreOf(lens, core)
  {
    hide Sum, Count;
    FirstCodeIsSum(lens, TABLE_BITS);
    RowTotal(lens, |lens|, TABLE_BITS);
    SumScale(lens, |lens|, TABLE_BITS + 1, 0, TABLE_BITS, 7);
    ShlValues(Sum(lens, |lens|, TABLE_BITS + 1, 0, TABLE_BITS));
  }

  lemma CoreIsAll(lens: seq<nat>, max: nat)
    requires max <= TABLE_BITS && Complete(lens) && forall j | 0 <= j < |lens| :: lens[j] <= max
    ensures CoreOf(lens, TABLE_SIZE)
  {
    SumNoLonger(lens, |lens|, TABLE_BITS);
  }

  lemma CoreBound(lens: seq<nat>, core: nat)
    requires CoreOf(lens, core) && Complete(lens)
    ensures core <= TABLE_SIZE
  {
    SumMono(lens, |lens|, MAX_LENGTH);
  }

  lemma {:induction false} SumMono(lens: seq<nat>, n: nat, depth: nat)
    requires n <= |lens|
    ensures Sum(lens, n, TABLE_BITS + 1, 0, depth) <= Sum(lens, n, MAX_LENGTH + 1, 0, depth)
  {
    if n > 0 {
      SumMono(lens, n - 1, depth);
    }
  }

  lemma FilledDecodes(lens: seq<nat>, h: Table, core: nat)
    requires Lengths(lens) && Complete(lens) && !AllZero(lens)
    requires Skeleton(h.table, h.extra, h.maxbits, core)
    requires Filled(lens, |lens|, h.table, h.extra, h.maxbits, core)
    ensures Decodes(h, lens)
  {
    forall s: nat, x: nat | Covers(lens, s, x) && x < SPACE
      ensures Finds(h.table, h.extra, h.maxbits, x, Entry(lens[s], s))
    {
      LowSeven(x);
      assert Slotted(lens, s, x, h.table, h.extra, h.maxbits, core);
    }
  }

  method CountLengths(codelens: seq<nat>) returns (count: array<nat>, max: nat)
    requires Lengths(codelens)
    ensures fresh(count) && count.Length == MAX_LENGTH + 1
    ensures forall l: nat | l <= MAX_LENGTH :: count[l] == Count(codelens, |codelens|, l)
    ensures max <= MAX_LENGTH && forall j | 0 <= j < |codelens| :: codelens[j] <= max
    ensures max == 0 <==> AllZero(codelens)
  {
    count := new nat[MAX_LENGTH + 1](_ => 0);
    max := 0;
    for i := 0 to |codelens|
      invariant forall l: nat | l <= MAX_LENGTH :: count[l] == Count(codelens, i, l)
      invariant max <= MAX_LENGTH && forall j | 0 <= j < i :: codelens[j] <= max
      invariant max == 0 || exists j :: 0 <= j < i && codelens[j] == max
    {
      var cl := codelens[i];
      count[cl] := count[cl] + 1;
      if max < cl {
        max := cl;
      }
    }
  }

  lemma FirstCodeStep(codelens: seq<nat>, i: nat)
    requires i >= 1
    ensures FirstCode(codelens, i) ==
            2 * if i == 1 then 0 else FirstCode(codelens, i - 1) + Count(codelens, |codelens|, i - 1)
  {
  }

  method FirstCodes(ghost codelens: seq<nat>, count: array<nat>, max: nat) returns (first: array<nat>, code: nat)
    requires 0 < max <= MAX_LENGTH && count.Length == MAX_LENGTH + 1
    requires forall l: nat | l <= MAX_LENGTH :: count[l] == Count(codelens, |codelens|, l)
    ensures fresh(first) && first.Length == MAX_LENGTH + 1
    ensures forall l: nat | 1 <= l <= max :: first[l] == FirstCode(codelens, l)
    ensures code == FirstCode(codelens, max) + Count(codelens, |codelens|, max)
  {
    hide Count, FirstCode;
    first := new nat[MAX_LENGTH + 1](_ => 0);
    code := 0;
    for i := 1 to max + 1
      invariant forall l: nat | 1 <= l < i :: first[l] == FirstCode(codelens, l)
      invariant code == if i == 1 then 0 else FirstCode(codelens, i - 1) + Count(codelens, |codelens|, i - 1)
    {
      FirstCodeStep(codelens, i);
      code := 2 * code;
      first[i] := code;
      code := code + count[i];
    }
  }

  /** The empty tables: every slot from core on leads to its own second level. */
  method NewTables(ghost codelens: seq<nat>, max: nat, first: array<nat>)
    returns (table: array<nat>, extra: seq<seq<nat>>, ghost core: nat)
    requires Lengths(codelens) && Complete(codelens) && 0 < max <= MAX_LENGTH && first.Length == MAX_LENGTH + 1
    requires forall j | 0 <= j < |codelens| :: codelens[j] <= max
    requires forall l: nat | 1 <= l <= max :: first[l] == FirstCode(codelens, l)
    ensures fresh(table)
    ensures CoreOf(codelens, core) && Skeleton(table[..], extra, max, core)
  {
    table := new nat[TABLE_SIZE](_ => 0);
    extra := [];
    core := TABLE_SIZE;
    if max > TABLE_BITS {
      var c := first[TABLE_BITS + 1] / 2;
      CoreIsHalf(codelens, c);
      CoreBound(codelens, c);
      core := c;
      extra := seq(TABLE_SIZE - c, _ => seq(Pow2(max - TABLE_BITS), _ => 0));
      for code := c to TABLE_SIZE
        invariant forall p: nat | c <= p < code :: table[p] == p - c
      {
        table[code] := code - c;
      }
    } else {
      CoreIsAll(codelens, max);
    }
  }

  /** One symbol's slots: direct ones for a short code, else one run of a row. */
  method FillSymbol(
    codelens: seq<nat>, i: nat, code: nat, table: array<nat>, extra: seq<seq<nat>>, max: nat, ghost core: nat)
    returns (extra': seq<seq<nat>>)
    requires Lengths(codelens) && Complete(codelens) && CoreOf(codelens, core)
    requires i < |codelens| && 0 < codelens[i] <= max && code == Codeword(codelens, i)
    requires Skeleton(table[..], extra, max, core) && Filled(codelens, i, table[..], extra, max, core)
    modifies table
    ensures Skeleton(table[..], extra', max, core) && Filled(codelens, i + 1, table[..], extra', max, core)
  {
    var cl := codelens[i];
    var v := BitOr(Shl(cl, LEN_SHIFT), i);
    EntryBits(cl, i);
    if cl <= TABLE_BITS {
      ghost var before := table[..];
      var extendedCode := Shl(code, TABLE_BITS - cl);
      ShortBelowCore(codelens, i, core, extendedCode + Pow2(TABLE_BITS - cl) - 1);
      PaintTable(table, extendedCode, Pow2(TABLE_BITS - cl), v);
      extra' := extra;
      FillShort(codelens, i, before, extra, max, core, table[..]);
    } else {
      LongPrefix(codelens, i, core);
      var prefix := Shr(code, cl - TABLE_BITS);
      var suffix := Low(code, cl - TABLE_BITS);
      var extendedCode := Shl(suffix, max - cl);
      LongFits(code, cl, max);
      var k := table[prefix];
      assert k == prefix - core;
      var row := PaintRow(extra[k], extendedCode, Pow2(max - cl), v);
      extra' := extra[k := row];
      FillLong(codelens, i, table[..], extra, max, core, row);
    }
  }

  lemma EntryBits(cl: nat, i: nat)
    requires i < TABLE_SIZE
    ensures BitOr(Shl(cl, LEN_SHIFT), i) == Entry(cl, i)
  {
    Pow2Values();
    BitOrDisjoint(cl, i, LEN_SHIFT);
    ShlValues(cl);
  }

  method PaintTable(table: array<nat>, lo: nat, n: nat, v: nat)
    requires lo + n <= table.Length
    modifies table
    ensures Painted(old(table[..]), lo, lo + n, v, table[..])
  {
    for j := 0 to n
      invariant Painted(old(table[..]), lo, lo + j, v, table[..])
    {
      table[lo + j] := v;
    }
  }

  method PaintRow(row: seq<nat>, lo: nat, n: nat, v: nat) returns (painted: seq<nat>)
    requires lo + n <= |row|
    ensures Painted(row, lo, lo + n, v, painted)
  {
    painted := row;
    for j := 0 to n
      invariant Painted(row, lo, lo + j, v, painted)
    {
      painted := painted[lo + j := v];
    }
  }

  lemma NothingFilled(lens: seq<nat>, table: seq<nat>, extra: seq<seq<nat>>, max: nat, core: nat)
    ensures Filled(lens, 0, table, extra, max, core)
  {
  }

  lemma NoCodeToFill(lens: seq<nat>, i: nat, table: seq<nat>, extra: seq<seq<nat>>, max: nat, core: nat)
    requires i < |lens| && lens[i] == 0 && Filled(lens, i, table, extra, max, core)
    ensures Filled(lens, i + 1, table, extra, max, core)
  {
  }

  /** buildTable: a table exactly for codes that are empty or complete. */
  method BuildTable(codelens: seq<nat>) returns (h: Option<Table>)
    requires Lengths(codelens)
    ensures h.Some? <==> AllZero(codelens) || Complete(codelens)
    ensures h.Some? ==> Decodes(h.value, codelens)
  {
    hide Complete, FirstCode;
    var count, max := CountLengths(codelens);
    if max == 0 {
      EmptyTable(codelens);
      return Some(Table(0, seq(TABLE_SIZE, _ => 0), []));
    }
    var first, code := FirstCodes(codelens, count, max);
    CountedIsComplete(codelens, max, code);
    ShlOne(max);
    if code != Shl(1, max) {
      return None;
    }
    var table := FillTables(codelens, max, first);
    h := Some(table);
  }

  lemma EmptyTable(lens: seq<nat>)
    requires Lengths(lens) && AllZero(lens)
    ensures Decodes(Table(0, seq(TABLE_SIZE, _ => 0), []), lens)
  {
  }

  /** The second half of buildTable: every symbol is entered. */
  method FillTables(codelens: seq<nat>, max: nat, first: array<nat>) returns (h: Table)
    requires Lengths(codelens) && Complete(codelens) && !AllZero(codelens)
    requires 0 < max <= MAX_LENGTH && first.Length == MAX_LENGTH + 1
    requires forall j | 0 <= j < |codelens| :: codelens[j] <= max
    requires forall l: nat | 1 <= l <= max :: first[l] == FirstCode(codelens, l)
    modifies first
    ensures Decodes(h, codelens)
  {
    hide Skeleton, Filled, Decodes, Codeword, FirstCode, Complete, CoreOf;
    var table, extra, core := NewTables(codelens, max, first);
    NothingFilled(codelens, table[..], extra, max, core);
    for i := 0 to |codelens|
      invariant Skeleton(table[..], extra, max, core)
      invariant Filled(codelens, i, table[..], extra, max, core)
      invariant forall l: nat | 1 <= l <= max :: first[l] == FirstCode(codelens, l) + Count(codelens, i, l)
    {
      var cl := codelens[i];
      if cl != 0 {
        var c := first[cl];
        first[cl] := first[cl] + 1;
        CodewordIsRfc1951(codelens, i);
        extra := FillSymbol(codelens, i, c, table, extra, max, core);
      } else {
        NoCodeToFill(codelens, i, table[..], extra, max, core);
      }
    }
    h := Table(max, table[..], extra);
    FilledDecodes(codelens, h, core);
  }

  // ---- lookups on the 32-bit bit buffer

  lemma Shl9(c: nat)
    requires c < 0x1_0000_0000
    ensures Shl(c, 9) % 0x1_0000_0000 == Shl(c % 0x80_0000, 9)
  {
    ShlValues(c);
    ShlValues(c % 0x80_0000);
  }

  lemma SplitTop(c: nat)
    requires c < 0x1_0000_0000
    ensures Shr(c, 16) < SPACE
    ensures c % 0x80_0000 == Shl(Shr(c, 16) % 128, 16) + c % SPACE
    ensures Shr(c, 16) == c / SPACE
  {
    Shr16(c);
    SplitMod(c);
    Shl16(Shr(c, 16) % 128);
  }

  lemma Shr16(c: nat)
    ensures Shr(c, 16) == c / SPACE
  {
    ShrParts(c, 16);
    Shl16(Shr(c, 16));
    Below(0);
  }

  lemma SplitMod(c: nat)
    ensures c % 0x80_0000 == 65536 * (c / SPACE % 128) + c % SPACE
  {
    var q, r := c / SPACE, c % SPACE;
    assert c == 65536 * q + r;
    assert q == 128 * (q / 128) + q % 128;
  }

  /** Shifting the buffer as getCode does selects the slots of its top 16 bits. */
  lemma BufferIndex(c: nat, max: nat)
    requires c < 0x1_0000_0000 && TABLE_BITS < max <= MAX_LENGTH
    ensures Shr(c, 32 - TABLE_BITS) == Shr(Shr(c, 16), 7)
    ensures Shr(Shl(c, TABLE_BITS) % 0x1_0000_0000, 32 - (max - TABLE_BITS)) == ExtraIndex(Shr(c, 16), max)
  {
    var r := Shr(c, 16) % 128;
    ShrShr(c, 16, 7);
    Shl9(c);
    SplitTop(c);
    var z := Shl(r, 16) + c % SPACE;
    ShrUndo(z, 9, 32 - max);
    ShrShr(z, 16, MAX_LENGTH - max);
    Below(c % SPACE);
    ShrShl(r, c % SPACE, 16);
  }

  lemma Below(v: nat)
    requires v < SPACE
    ensures v < Pow2(16) == SPACE
  {
    Pow2Values();
  }

  lemma ShrUndo(z: nat, a: nat, b: nat)
    ensures Shr(Shl(z, a), a + b) == Shr(z, b)
  {
    ShrShl(z, 0, a);
    ShrShr(Shl(z, a), a, b);
  }

  lemma EntryParts(len: nat, s: nat)
    requires s < TABLE_SIZE
    ensures Shr(Entry(len, s), LEN_SHIFT) == len && Entry(len, s) % TABLE_SIZE == s
  {
    hide Shl, Shr, Pow2;
    Pow2Values();
    ShlValues(len);
    ShrShl(len, s, LEN_SHIFT);
  }

  /** A slot that is no entry selects a second level, which has the slot getCode
      then reads. */
  lemma LongIndex(h: Table, lens: seq<nat>, c: nat)
    requires Decodes(h, lens) && h.maxbits > 0 && c < 0x1_0000_0000
    ensures var x := Shr(c, 16);
            x < SPACE && Shr(x, 7) < |h.table| &&
            (h.table[Shr(x, 7)] < TABLE_SIZE ==>
              && h.maxbits > TABLE_BITS
              && Shr(Shl(c, TABLE_BITS) % 0x1_0000_0000, 32 - (h.maxbits - TABLE_BITS)) == ExtraIndex(x, h.maxbits))
  {
    SplitTop(c);
    var s := LookUp(h, lens, Shr(c, 16));
    if h.maxbits > TABLE_BITS {
      BufferIndex(c, h.maxbits);
    }
  }

  /** The table slots of 16-bit string x: in bounds, and holding the one symbol
      whose codeword is a prefix of x. */
  lemma LookUp(h: Table, lens: seq<nat>, x: nat) returns (s: nat)
    requires Decodes(h, lens) && h.maxbits > 0 && x < SPACE
    ensures Covers(lens, s, x) && s < TABLE_SIZE
    ensures Finds(h.table, h.extra, h.maxbits, x, Entry(lens[s], s))
  {
    s := CoversExists(lens, x);
  }

  // ---- every slot is filled exactly once

  /** The slots a short code fills in the direct table. */
  ghost predicate FillsDirect(lens: seq<nat>, s: nat, p: nat) {
    && s < |lens| && 0 < lens[s] <= TABLE_BITS
    && var lo := Shl(Codeword(lens, s), TABLE_BITS - lens[s]);
       lo <= p < lo + Pow2(TABLE_BITS - lens[s])
  }

  /** The slots a long code fills in the second level of a prefix. */
  ghost predicate FillsExtra(lens: seq<nat>, s: nat, max: nat, prefix: nat, e: nat) {
    && s < |lens| && TABLE_BITS < lens[s] <= max
    && Shr(Codeword(lens, s), lens[s] - TABLE_BITS) == prefix
    && var lo := Shl(Low(Codeword(lens, s), lens[s] - TABLE_BITS), max - lens[s]);
       lo <= e < lo + Pow2(max - lens[s])
  }

  lemma DirectSlotOnce(lens: seq<nat>, core: nat, p: nat) returns (s: nat)
    requires Lengths(lens) && Complete(lens) && CoreOf(lens, core) && p < core
    ensures FillsDirect(lens, s, p)
    ensures forall t: nat | FillsDirect(lens, t, p) :: t == s
  {
    hide Sum, Shl, Shr, Pow2, Codeword;
    var x := 128 * p;
    LowSeven(x);
    CoreBound(lens, core);
    s := CoversExists(lens, x);
    if lens[s] > TABLE_BITS {
      SumGrows(lens, |lens|, lens[s], s, MAX_LENGTH);
    }
    CoversIffPrefix(lens, s, x);
    ShortRange(x, lens[s], Codeword(lens, s));
    forall t: nat | FillsDirect(lens, t, p)
      ensures t == s
    {
      CoversIffPrefix(lens, t, x);
      ShortRange(x, lens[t], Codeword(lens, t));
      CoversUnique(lens, s, t, x);
    }
  }

  /** The first 16-bit string that leads to a second-level slot. */
  lemma SlotString(prefix: nat, e: nat, max: nat) returns (x: nat)
    requires TABLE_BITS < max <= MAX_LENGTH && e < Pow2(max - TABLE_BITS)
    ensures x == 128 * prefix + Shl(e, MAX_LENGTH - max)
    ensures Shr(x, 7) == prefix && ExtraIndex(x, max) == e
  {
    var r := Shl(e, MAX_LENGTH - max);
    ShlBound(e, max - TABLE_BITS, MAX_LENGTH - max);
    Pow2Values();
    x := 128 * prefix + r;
    LowSeven(x);
    ShrShl(e, 0, MAX_LENGTH - max);
  }

  lemma ExtraSlotOnce(lens: seq<nat>, core: nat, max: nat, prefix: nat, e: nat) returns (s: nat)
    requires Lengths(lens) && Complete(lens) && CoreOf(lens, core) && core <= prefix < TABLE_SIZE
    requires TABLE_BITS < max <= MAX_LENGTH && e < Pow2(max - TABLE_BITS)
    requires forall j | 0 <= j < |lens| :: lens[j] <= max
    ensures FillsExtra(lens, s, max, prefix, e)
    ensures forall t: nat | FillsExtra(lens, t, max, prefix, e) :: t == s
  {
    hide Sum, Shl, Shr, Pow2, Low, Codeword;
    var x := SlotString(prefix, e, max);
    LowSeven(x);
    s := CoversExists(lens, x);
    if lens[s] <= TABLE_BITS {
      SumOrdered(lens, |lens|, s, TABLE_BITS + 1, 0, MAX_LENGTH);
    }
    CoversIffPrefix(lens, s, x);
    LongRange(x, lens[s], max, Codeword(lens, s));
    forall t: nat | FillsExtra(lens, t, max, prefix, e)
      ensures t == s
    {
      CoversIffPrefix(lens, t, x);
      LongRange(x, lens[t], max, Codeword(lens, t));
      CoversUnique(lens, s, t, x);
    }
  }
}
