/** The meaning of a compressed block in two stages: the tokens its bits spell,
    and the LZ77 expansion of those tokens (internal/wim/lzx/lzx.go:436-504). */
module Lz77 {
  import opened Arith
  import opened BitString
  import opened LzxSpec

  function Size(k: Token): nat {
    if k.Literal? then 1 else k.length
  }

  function Total(ts: seq<Token>): nat {
    if ts == [] then 0 else Size(ts[0]) + Total(ts[1..])
  }

  predicate AllWellFormed(ts: seq<Token>) {
    forall j | 0 <= j < |ts| :: WellFormed(ts[j])
  }

  /** The tokens of exactly n bytes of output; no window is involved. */
  ghost function Tokens(t: Trees, bits: seq<Bit>, pos: nat, n: nat): (r: Parsed<seq<Token>>)
    requires |t.main| == MAIN_CODES
    ensures r.Done? ==> Total(r.value) == n && AllWellFormed(r.value)
    decreases n
  {
    if n == 0 then Done([], pos)
    else
      match NextToken(t, bits, pos)
      case Bad(e) => Bad(e)
      case Done(k, p) =>
        if Size(k) > n then Bad(CorruptData)
        else
          match Tokens(t, bits, p, n - Size(k))
          case Bad(e) => Bad(e)
          case Done(ts, q) => assert ([k] + ts)[1..] == ts; Done([k] + ts, q)
  }

  /** Writing tokens into the window from i on; a match that reaches back before
      the window's start has no expansion. */
  function Expand(ts: seq<Token>, d: Decoded, i: nat): Option<Decoded>
    requires |d.lru| == 3 && i + Total(ts) <= |d.window| && AllWellFormed(ts)
  {
    if ts == [] then Some(d)
    else
      match ts[0]
      case Literal(b) => Expand(ts[1..], d.(window := d.window[i := b]), i + 1)
      case Match(n, dist) =>
        if Offset(d.lru, dist) > i then None
        else Expand(ts[1..], Decoded(Extend(d.window, i, Offset(d.lru, dist), n), Touch(d.lru, dist)), i + n)
  }

  /** The window and the cache after one token, which must reach back no further than the
      window's start. */
  function AfterToken(d: Decoded, i: nat, k: Token): (r: Decoded)
    requires |d.lru| == 3 && WellFormed(k) && i + Size(k) <= |d.window|
    requires k.Match? ==> Offset(d.lru, k.distance) <= i
    ensures |r.window| == |d.window| && |r.lru| == 3
  {
    match k
    case Literal(b) => d.(window := d.window[i := b])
    case Match(n, dist) => Decoded(Extend(d.window, i, Offset(d.lru, dist), n), Touch(d.lru, dist))
  }

  predicate Reaches(d: Decoded, i: nat, k: Token)
    requires |d.lru| == 3 && WellFormed(k)
  {
    k.Match? ==> Offset(d.lru, k.distance) <= i
  }

  lemma BlockStep(t: Trees, bits: seq<Bit>, pos: nat, d: Decoded, i: nat, end: nat)
    requires |t.main| == MAIN_CODES && |d.lru| == 3 && i < end <= |d.window|
    ensures var k := NextToken(t, bits, pos);
            if k.Done? && Size(k.value) <= end - i && Reaches(d, i, k.value) then
              BlockFrom(t, bits, pos, d, i, end) ==
              BlockFrom(t, bits, k.at, AfterToken(d, i, k.value), i + Size(k.value), end)
            else BlockFrom(t, bits, pos, d, i, end).Bad?
  {
    hide NextToken, Extend, Touch;
  }

  lemma TokensStep(t: Trees, bits: seq<Bit>, pos: nat, n: nat)
    requires |t.main| == MAIN_CODES && n > 0
    ensures var k, ts := NextToken(t, bits, pos), Tokens(t, bits, pos, n);
            if k.Done? && Size(k.value) <= n then
              var rest := Tokens(t, bits, k.at, n - Size(k.value));
              if rest.Done? then
                ts == Done([k.value] + rest.value, rest.at) && ([k.value] + rest.value)[1..] == rest.value
              else ts.Bad?
            else ts.Bad?
  {
    hide NextToken;
    var k := NextToken(t, bits, pos);
    if k.Done? && Size(k.value) <= n && Tokens(t, bits, k.at, n - Size(k.value)).Done? {
      assert ([k.value] + Tokens(t, bits, k.at, n - Size(k.value)).value)[1..] ==
             Tokens(t, bits, k.at, n - Size(k.value)).value;
    }
  }

  lemma ExpandStep(ts: seq<Token>, d: Decoded, i: nat)
    requires ts != [] && |d.lru| == 3 && i + Total(ts) <= |d.window| && AllWellFormed(ts)
    ensures Expand(ts, d, i) ==
            if Reaches(d, i, ts[0]) then Expand(ts[1..], AfterToken(d, i, ts[0]), i + Size(ts[0])) else None
  {
    hide Extend, Touch;
  }

  lemma NothingToExpand(t: Trees, bits: seq<Bit>, pos: nat, d: Decoded, i: nat)
    requires |t.main| == MAIN_CODES && |d.lru| == 3 && i <= |d.window|
    ensures BlockFrom(t, bits, pos, d, i, i) == Done(d, pos)
    ensures Tokens(t, bits, pos, 0) == Done([], pos) && Expand([], d, i) == Some(d)
  {
  }

  /** A block decodes exactly when its tokens parse and expand, to that expansion. */
  lemma {:induction false} BlockIsExpansion(
    t: Trees, bits: seq<Bit>, pos: nat, d: Decoded, i: nat, end: nat, d': Decoded, at: nat)
    requires |t.main| == MAIN_CODES && |d.lru| == 3 && i <= end <= |d.window|
    ensures BlockFrom(t, bits, pos, d, i, end) == Done(d', at) <==>
              && Tokens(t, bits, pos, end - i).Done?
              && Tokens(t, bits, pos, end - i).at == at
              && Expand(Tokens(t, bits, pos, end - i).value, d, i) == Some(d')
    decreases end - i
  {
    hide NextToken, AfterToken, BlockFrom, Tokens, Expand, AllWellFormed, Total;
    if i == end {
      NothingToExpand(t, bits, pos, d, i);
    } else {
      BlockStep(t, bits, pos, d, i, end);
      TokensStep(t, bits, pos, end - i);
      var k, ts := NextToken(t, bits, pos), Tokens(t, bits, pos, end - i);
      if ts.Done? {
        ExpandStep(ts.value, d, i);
      }
      if k.Done? && Size(k.value) <= end - i && Reaches(d, i, k.value) {
        BlockIsExpansion(t, bits, k.at, AfterToken(d, i, k.value), i + Size(k.value), end, d', at);
      }
    }
  }

  lemma ExtendAt(window: seq<Byte>, i: nat, offset: nat, n: nat, j: nat)
    requires offset <= i && i + n <= |window| && j < |window|
    ensures Extend(window, i, offset, n)[j] ==
            if i <= j < i + n then CopiedByte(window, i, offset, j - i) else window[j]
  {
    hide CopiedByte;
  }

  /** Every copied byte equals the byte one offset before it, in the result: the
      copy may run into its own output. */
  lemma ExtendIsSelfCopy(window: seq<Byte>, i: nat, offset: nat, n: nat, k: nat)
    requires 1 <= offset <= i && i + n <= |window| && k < n
    ensures var r := Extend(window, i, offset, n);
            r[i + k] == r[i + k - offset] && r[..i] == window[..i] && r[i + n..] == window[i + n..]
  {
    hide CopiedByte;
    ExtendAt(window, i, offset, n, i + k);
    ExtendAt(window, i, offset, n, i + k - offset);
    CopiedPeriod(window, i, offset, k);
  }

  ghost predicate Positive(lru: seq<nat>) {
    |lru| == 3 && lru[0] >= 1 && lru[1] >= 1 && lru[2] >= 1
  }

  lemma ExtendReadsDecoded(w: seq<Byte>, v: seq<Byte>, i: nat, offset: nat, n: nat)
    requires |w| == |v| && 1 <= offset <= i && i + n <= |w| && w[..i] == v[..i]
    ensures Extend(w, i, offset, n)[..i + n] == Extend(v, i, offset, n)[..i + n]
  {
    var a, b := Extend(w, i, offset, n), Extend(v, i, offset, n);
    forall j: nat | j < i + n
      ensures a[j] == b[j]
    {
      if j < i {
        assert w[j] == w[..i][j] && v[j] == v[..i][j];
      } else {
        var back := i - offset + (j - i) % offset;
        assert w[back] == w[..i][back] && v[back] == v[..i][back];
      }
    }
  }

  /** With positive repeat offsets the output depends only on bytes already
      decoded: whatever the window held from i on is never read. */
  lemma {:induction false} ExpandReadsDecoded(ts: seq<Token>, w: seq<Byte>, v: seq<Byte>, lru: seq<nat>, i: nat)
    requires Positive(lru) && |w| == |v| && i + Total(ts) <= |w| && w[..i] == v[..i]
    requires AllWellFormed(ts)
    ensures var a, b := Expand(ts, Decoded(w, lru), i), Expand(ts, Decoded(v, lru), i);
            && (a.Some? <==> b.Some?)
            && (a.Some? ==>
                  && |a.value.window| == |b.value.window| == |w|
                  && a.value.window[..i + Total(ts)] == b.value.window[..i + Total(ts)]
                  && a.value.lru == b.value.lru && Positive(a.value.lru))
  {
    hide Extend;
    if ts != [] {
      match ts[0]
      case Literal(b) =>
        assert w[i := b][..i + 1] == w[..i] + [b] && v[i := b][..i + 1] == v[..i] + [b];
        ExpandReadsDecoded(ts[1..], w[i := b], v[i := b], lru, i + 1);
      case Match(n, dist) =>
        var o := Offset(lru, dist);
        if o <= i {
          ExtendReadsDecoded(w, v, i, o, n);
          ExpandReadsDecoded(ts[1..], Extend(w, i, o, n), Extend(v, i, o, n), Touch(lru, dist), i + n);
        }
    }
  }
}
