/** Canonical prefix codes (section 3.2.2 of RFC 1951), independent of any table.

    Symbols are ordered by code length, then by index. A code of length L owns
    2^(16-L) consecutive 16-bit strings, and the codes own them in that order. */
module Canonical {
  import opened Arith

  const MAX_LENGTH := 16
  const SPACE := 65536

  ghost predicate Lengths(lens: seq<nat>) {
    |lens| <= 512 && forall i | 0 <= i < |lens| :: lens[i] <= MAX_LENGTH
  }

  /** Whether symbol t has a code that sorts before the code (len, s). */
  predicate Before(lens: seq<nat>, t: nat, len: nat, s: nat)
    requires t < |lens|
  {
    0 < lens[t] && (lens[t] < len || (lens[t] == len && t < s))
  }

  /** Strings of depth bits owned by those of the first n symbols that sort
      before (len, s). */
  ghost function Sum(lens: seq<nat>, n: nat, len: nat, s: nat, depth: nat): nat
    requires n <= |lens|
  {
    if n == 0 then 0
    else Sum(lens, n - 1, len, s, depth) +
         if Before(lens, n - 1, len, s) && lens[n - 1] <= depth then Pow2(depth - lens[n - 1]) else 0
  }

  ghost function Start(lens: seq<nat>, len: nat, s: nat): nat {
    Sum(lens, |lens|, len, s, MAX_LENGTH)
  }

  /** All strings owned: the code is complete when this is the whole space. */
  ghost function Kraft(lens: seq<nat>): nat {
    Start(lens, MAX_LENGTH + 1, 0)
  }

  ghost function Codeword(lens: seq<nat>, s: nat): nat
    requires s < |lens|
  {
    Sum(lens, |lens|, lens[s], s, lens[s])
  }

  /** The 16-bit string x belongs to symbol s. */
  ghost predicate Covers(lens: seq<nat>, s: nat, x: nat) {
    && s < |lens| && 0 < lens[s] <= MAX_LENGTH
    && Start(lens, lens[s], s) <= x < Start(lens, lens[s], s) + Pow2(MAX_LENGTH - lens[s])
  }

  ghost predicate Complete(lens: seq<nat>) {
    Kraft(lens) == SPACE
  }

  ghost predicate AllZero(lens: seq<nat>) {
    forall i | 0 <= i < |lens| :: lens[i] == 0
  }

  /** Deepening by e bits shifts the sum, when no counted code is longer than depth. */
  lemma {:induction false} SumScale(lens: seq<nat>, n: nat, len: nat, s: nat, depth: nat, e: nat)
    requires n <= |lens| && (len <= depth || (len == depth + 1 && s == 0))
    ensures Shl(Sum(lens, n, len, s, depth), e) == Sum(lens, n, len, s, depth + e)
  {
    if n == 0 {
      ShlZero(e);
    } else {
      SumScale(lens, n - 1, len, s, depth, e);
      if Before(lens, n - 1, len, s) {
        var w := depth - lens[n - 1];
        ShlSum(Sum(lens, n - 1, len, s, depth), Pow2(w), e);
        ShlOne(w);
        ShlShl(1, w, e);
        ShlOne(w + e);
      }
    }
  }

  /** A symbol's strings end before those of anything that sorts after it start. */
  lemma {:induction false} SumOrdered(lens: seq<nat>, n: nat, s: nat, len: nat, t: nat, depth: nat)
    requires n <= |lens| && s < |lens| && Before(lens, s, len, t) && lens[s] <= depth
    ensures Sum(lens, n, lens[s], s, depth) + (if s < n then Pow2(depth - lens[s]) else 0)
            <= Sum(lens, n, len, t, depth)
  {
    if n > 0 {
      SumOrdered(lens, n - 1, s, len, t, depth);
    }
  }

  lemma {:induction false} SumStep(lens: seq<nat>, n: nat, len: nat, s: nat, depth: nat)
    requires n <= |lens| && 0 < len <= depth
    ensures Sum(lens, n, len, s + 1, depth) ==
            Sum(lens, n, len, s, depth) + if s < n && lens[s] == len then Pow2(depth - len) else 0
  {
    if n > 0 {
      SumStep(lens, n - 1, len, s, depth);
    }
  }

  lemma {:induction false} SumRow(lens: seq<nat>, n: nat, len: nat, s: nat, depth: nat)
    requires n <= |lens| && n <= s
    ensures Sum(lens, n, len, s, depth) == Sum(lens, n, len + 1, 0, depth)
  {
    if n > 0 {
      SumRow(lens, n - 1, len, s, depth);
    }
  }

  lemma {:induction false} SumFirst(lens: seq<nat>, n: nat, depth: nat)
    requires n <= |lens|
    ensures Sum(lens, n, 1, 0, depth) == 0
  {
    if n > 0 {
      SumFirst(lens, n - 1, depth);
    }
  }

  /** A codeword is the string its symbol's range starts with. */
  lemma StartIsCodeword(lens: seq<nat>, s: nat)
    requires s < |lens| && 0 < lens[s] <= MAX_LENGTH
    ensures Start(lens, lens[s], s) == Shl(Codeword(lens, s), MAX_LENGTH - lens[s])
  {
    SumScale(lens, |lens|, lens[s], s, lens[s], MAX_LENGTH - lens[s]);
  }

  /** x belongs to s exactly when the codeword of s is a prefix of x. */
  lemma CoversIffPrefix(lens: seq<nat>, s: nat, x: nat)
    requires s < |lens| && 0 < lens[s] <= MAX_LENGTH
    ensures Covers(lens, s, x) <==> Shr(x, MAX_LENGTH - lens[s]) == Codeword(lens, s)
  {
    var e := MAX_LENGTH - lens[s];
    StartIsCodeword(lens, s);
    ShrParts(x, e);
    if Covers(lens, s, x) {
      ShrShl(Codeword(lens, s), x - Start(lens, lens[s], s), e);
    }
  }

  /** No two symbols own the same string: the codewords are prefix free. */
  lemma CoversUnique(lens: seq<nat>, s: nat, t: nat, x: nat)
    requires Covers(lens, s, x) && Covers(lens, t, x)
    ensures s == t
  {
    if Before(lens, s, lens[t], t) {
      SumOrdered(lens, |lens|, s, lens[t], t, MAX_LENGTH);
    } else if s != t {
      SumOrdered(lens, |lens|, t, lens[s], s, MAX_LENGTH);
    }
  }

  lemma CoversBelowKraft(lens: seq<nat>, s: nat)
    requires s < |lens| && 0 < lens[s] <= MAX_LENGTH
    ensures Start(lens, lens[s], s) + Pow2(MAX_LENGTH - lens[s]) <= Kraft(lens)
  {
    SumOrdered(lens, |lens|, s, MAX_LENGTH + 1, 0, MAX_LENGTH);
  }

  /** Every string below the Kraft sum belongs to some symbol. */
  lemma CoversExists(lens: seq<nat>, x: nat) returns (s: nat)
    requires x < Kraft(lens)
    ensures Covers(lens, s, x)
  {
    SumFirst(lens, |lens|, MAX_LENGTH);
    s := FindOwner(lens, x, 1, 0);
  }

  lemma {:induction false} FindOwner(lens: seq<nat>, x: nat, len: nat, i: nat) returns (s: nat)
    requires 1 <= len <= MAX_LENGTH + 1 && i <= |lens| && (len == MAX_LENGTH + 1 ==> i == 0)
    requires Start(lens, len, i) <= x < Kraft(lens)
    ensures Covers(lens, s, x)
    decreases MAX_LENGTH + 1 - len, |lens| - i
  {
    if i == |lens| && len <= MAX_LENGTH {
      SumRow(lens, |lens|, len, i, MAX_LENGTH);
      s := FindOwner(lens, x, len + 1, 0);
    } else {
      SumStep(lens, |lens|, len, i, MAX_LENGTH);
      if lens[i] == len && x < Start(lens, len, i + 1) {
        s := i;
      } else {
        s := FindOwner(lens, x, len, i + 1);
      }
    }
  }

  /** Exactly one symbol's codeword is a prefix of any string, for a complete code. */
  lemma CompleteDecodes(lens: seq<nat>, x: nat)
    requires Complete(lens) && x < SPACE
    ensures exists s :: Covers(lens, s, x) && forall t :: Covers(lens, t, x) ==> t == s
  {
    var s := CoversExists(lens, x);
    forall t | Covers(lens, t, x)
      ensures t == s
    {
      CoversUnique(lens, s, t, x);
    }
  }

  ghost function Count(lens: seq<nat>, n: nat, len: nat): nat
    requires n <= |lens|
  {
    if n == 0 then 0 else Count(lens, n - 1, len) + if lens[n - 1] == len then 1 else 0
  }

  /** The first code of a length, by the recurrence of RFC 1951. */
  ghost function FirstCode(lens: seq<nat>, len: nat): nat
    requires len >= 1
  {
    if len == 1 then 0 else 2 * (FirstCode(lens, len - 1) + Count(lens, |lens|, len - 1))
  }

  lemma {:induction false} RowTotal(lens: seq<nat>, n: nat, len: nat)
    requires n <= |lens| && len >= 1
    ensures Sum(lens, n, len + 1, 0, len) == Sum(lens, n, len, 0, len) + Count(lens, n, len)
  {
    if n > 0 {
      RowTotal(lens, n - 1, len);
    }
  }

  /** The recurrence yields the sum of all shorter codes. */
  lemma {:induction false} FirstCodeIsSum(lens: seq<nat>, len: nat)
    requires len >= 1
    ensures FirstCode(lens, len) == Sum(lens, |lens|, len, 0, len)
  {
    if len == 1 {
      SumFirst(lens, |lens|, 1);
    } else {
      FirstCodeIsSum(lens, len - 1);
      RowTotal(lens, |lens|, len - 1);
      SumScale(lens, |lens|, len, 0, len - 1, 1);
      ShlValues(Sum(lens, |lens|, len, 0, len - 1));
    }
  }

  lemma {:induction false} RowRank(lens: seq<nat>, n: nat, len: nat, s: nat)
    requires n <= |lens| && s <= |lens| && len >= 1
    ensures Sum(lens, n, len, s, len) ==
            Sum(lens, n, len, 0, len) + Count(lens, if s < n then s else n, len)
  {
    if n > 0 {
      RowRank(lens, n - 1, len, s);
    }
  }

  /** RFC 1951's assignment: codes of one length count up from the first code. */
  lemma CodewordIsRfc1951(lens: seq<nat>, s: nat)
    requires s < |lens| && lens[s] > 0
    ensures Codeword(lens, s) == FirstCode(lens, lens[s]) + Count(lens, s, lens[s])
  {
    FirstCodeIsSum(lens, lens[s]);
    RowRank(lens, |lens|, lens[s], s);
  }
}
