/** Shifts, powers of two and bitwise OR on naturals. Shifts recurse by doubling
    and halving, which keeps every fact about them linear. */
module Arith {

  datatype Option<+T> = None | Some(value: T)

  type Byte = x: int | 0 <= x < 256

  function Pow2(n: nat): (r: nat)
    ensures r > 0
  {
    if n == 0 then 1 else 2 * Pow2(n - 1)
  }

  function Shl(x: nat, n: nat): nat {
    if n == 0 then x else 2 * Shl(x, n - 1)
  }

  function Shr(x: nat, n: nat): nat {
    if n == 0 then x else Shr(x, n - 1) / 2
  }

  lemma Pow2Values()
    ensures Pow2(0) == 1 && Pow2(1) == 2 && Pow2(2) == 4 && Pow2(3) == 8 && Pow2(4) == 16
    ensures Pow2(5) == 32 && Pow2(6) == 64 && Pow2(7) == 128 && Pow2(8) == 256 && Pow2(9) == 512
    ensures Pow2(16) == 65536 && Pow2(32) == 0x1_0000_0000
  {
    assert Pow2(10) == 1024 && Pow2(13) == 8192;
    assert Pow2(20) == 1048576 && Pow2(24) == 16777216 && Pow2(28) == 268435456;
  }

  lemma {:induction false} Pow2Monotone(a: nat, b: nat)
    requires a <= b
    ensures Pow2(a) <= Pow2(b)
    decreases b
  {
    if a < b {
      Pow2Monotone(a, b - 1);
    }
  }

  lemma {:induction false} ShlOne(n: nat)
    ensures Shl(1, n) == Pow2(n)
  {
    if n > 0 {
      ShlOne(n - 1);
    }
  }

  lemma {:induction false} ShlZero(n: nat)
    ensures Shl(0, n) == 0
  {
    if n > 0 {
      ShlZero(n - 1);
    }
  }

  lemma {:induction false} ShlShl(x: nat, a: nat, b: nat)
    ensures Shl(Shl(x, a), b) == Shl(x, a + b)
  {
    if b > 0 {
      ShlShl(x, a, b - 1);
    }
  }

  lemma {:induction false} ShlSum(x: nat, y: nat, n: nat)
    ensures Shl(x + y, n) == Shl(x, n) + Shl(y, n)
  {
    if n > 0 {
      ShlSum(x, y, n - 1);
    }
  }

  lemma {:induction false} ShlMonotone(x: nat, y: nat, n: nat)
    requires x <= y
    ensures Shl(x, n) <= Shl(y, n)
  {
    ShlSum(x, y - x, n);
  }

  /** A value below 2^a shifted left by b stays below 2^(a+b). */
  lemma ShlBound(x: nat, a: nat, b: nat)
    requires x < Pow2(a)
    ensures Shl(x, b) + Pow2(b) <= Pow2(a + b)
  {
    ShlMonotone(x + 1, Pow2(a), b);
    ShlSum(x, 1, b);
    ShlOne(b);
    ShlOne(a);
    ShlShl(1, a, b);
    ShlOne(a + b);
  }

  lemma ShlValues(x: nat)
    ensures Shl(x, 1) == 2 * x && Shl(x, 2) == 4 * x && Shl(x, 3) == 8 * x && Shl(x, 4) == 16 * x
    ensures Shl(x, 7) == 128 * x && Shl(x, 8) == 256 * x && Shl(x, 9) == 512 * x
  {
    assert Shl(x, 2) == 2 * Shl(x, 1);
    assert Shl(x, 3) == 2 * Shl(x, 2);
    assert Shl(x, 4) == 2 * Shl(x, 3);
    assert Shl(x, 5) == 2 * Shl(x, 4);
    assert Shl(x, 6) == 2 * Shl(x, 5);
    assert Shl(x, 7) == 2 * Shl(x, 6);
    assert Shl(x, 8) == 2 * Shl(x, 7);
  }

  lemma {:induction false} ShrShr(x: nat, a: nat, b: nat)
    ensures Shr(Shr(x, a), b) == Shr(x, a + b)
  {
    if b > 0 {
      ShrShr(x, a, b - 1);
    }
  }

  /** Shifting right drops what lies below the kept bits. */
  lemma {:induction false} ShrShl(x: nat, r: nat, n: nat)
    requires r < Pow2(n)
    ensures Shr(Shl(x, n) + r, n) == x
  {
    if n > 0 {
      var z := Shl(x, n) + r;
      assert z / 2 == Shl(x, n - 1) + r / 2;
      ShrShl(x, r / 2, n - 1);
      ShrShr(z, 1, n - 1);
      assert Shr(z, 1) == z / 2;
    }
  }

  lemma {:induction false} ShrBound(x: nat, a: nat, b: nat)
    requires x < Pow2(a + b)
    ensures Shr(x, b) < Pow2(a)
  {
    if b > 0 {
      ShrShr(x, 1, b - 1);
      assert Shr(x, 1) == x / 2;
      ShrBound(x / 2, a, b - 1);
    }
  }

  /** Every value is its high part shifted back plus fewer than 2^n. */
  lemma {:induction false} ShrParts(x: nat, n: nat)
    ensures Shl(Shr(x, n), n) <= x < Shl(Shr(x, n), n) + Pow2(n)
  {
    if n > 0 {
      ShrParts(x, n - 1);
      var h := Shr(x, n - 1);
      ShlSum(2 * (h / 2), h % 2, n - 1);
      ShlDouble(h / 2, n - 1);
      if h % 2 == 1 {
        ShlOne(n - 1);
      } else {
        ShlZero(n - 1);
      }
    }
  }

  lemma {:induction false} ShlDouble(x: nat, n: nat)
    ensures Shl(2 * x, n) == 2 * Shl(x, n)
  {
    if n > 0 {
      ShlDouble(x, n - 1);
    }
  }

  /** The value below bit n. */
  function Low(x: nat, n: nat): (r: nat)
    ensures r < Pow2(n)
    ensures x == Shl(Shr(x, n), n) + r
  {
    ShrParts(x, n);
    x - Shl(Shr(x, n), n)
  }

  /** Truncation of a shifted value to a 32-bit word drops what left the word. */
  lemma Truncate32(a: nat, r: nat)
    requires r < 0x1_0000_0000
    ensures (Shl(a, 32) + r) % 0x1_0000_0000 == r
  {
    Shl32(a);
  }

  lemma Shl16(a: nat)
    ensures Shl(a, 16) == 65536 * a
  {
    ShlShl(a, 8, 8);
    ShlValues(a);
    ShlValues(256 * a);
  }

  lemma Shl32(a: nat)
    ensures Shl(a, 32) == 0x1_0000_0000 * a
  {
    ShlShl(a, 16, 16);
    Shl16(a);
    Shl16(65536 * a);
  }

  /** In a word of w bits that starts with x (n bits) and y (k bits), the top n
      bits are x, and shifting left by n brings y to the top. */
  lemma TopBits(x: nat, y: nat, n: nat, k: nat, w: nat)
    requires n + k <= w && y < Pow2(k)
    ensures Shr(Shl(Shl(x, k) + y, w - n - k), w - n) == x
    ensures Shl(Shl(Shl(x, k) + y, w - n - k), n) == Shl(x, w) + Shl(y, w - k)
    ensures Shl(y, w - k) < Pow2(w)
  {
    var s := w - n - k;
    ShlSum(Shl(x, k), y, s);
    ShlShl(x, k, s);
    ShlBound(y, k, s);
    ShrShl(x, Shl(y, s), w - n);
    ShlSum(Shl(x, w - n), Shl(y, s), n);
    ShlShl(x, w - n, n);
    ShlShl(y, s, n);
    ShlBound(y, k, w - k);
  }

  /** ORing an m-bit value right below the n cached bits of a w-bit word. */
  lemma AppendBits(p: nat, v: nat, n: nat, m: nat, w: nat)
    requires n + m <= w && v < Pow2(m)
    ensures BitOr(Shl(p, w - n), Shl(v, w - n - m)) == Shl(Shl(p, m) + v, w - n - m)
  {
    ShlBound(v, m, w - n - m);
    BitOrDisjoint(p, Shl(v, w - n - m), w - n);
    ShlShl(p, m, w - n - m);
    ShlSum(Shl(p, m), v, w - n - m);
  }

  /** The bitwise OR of two naturals, bit by bit. */
  function BitOr(a: nat, b: nat): nat
    decreases a + b
  {
    if a == 0 && b == 0 then 0
    else (if a % 2 == 1 || b % 2 == 1 then 1 else 0) + 2 * BitOr(a / 2, b / 2)
  }

  /** OR adds when one operand has only zero bits where the other has any. */
  lemma {:induction false} BitOrDisjoint(a: nat, b: nat, k: nat)
    requires b < Pow2(k)
    ensures BitOr(Shl(a, k), b) == Shl(a, k) + b
    decreases k, a
  {
    if k == 0 {
      BitOrZero(a);
    } else {
      BitOrDisjoint(a, b / 2, k - 1);
    }
  }

  lemma {:induction false} BitOrZero(a: nat)
    ensures BitOr(a, 0) == a
  {
    if a != 0 {
      BitOrZero(a / 2);
    }
  }

  lemma MulGrows(k: int, d: nat)
    requires k >= 1
    ensures k * d >= d
  {
  }

  lemma UniqueRemainder(q: int, r: nat, p: int, s: nat, d: nat)
    requires q * d + r == p * d + s && r < d && s < d
    ensures r == s
  {
    if q > p {
      assert (q - p) * d == s - r;
      MulGrows(q - p, d);
    } else if p > q {
      assert (p - q) * d == r - s;
      MulGrows(p - q, d);
    }
  }

  /** Stepping back by a whole period keeps the phase. */
  lemma ModPeriod(j: nat, d: nat)
    requires 0 < d <= j
    ensures (j - d) % d == j % d
  {
    var q, p := j / d, (j - d) / d;
    assert j == q * d + j % d;
    assert j == p * d + d + (j - d) % d;
    assert (p + 1) * d == p * d + d;
    UniqueRemainder(q, j % d, p + 1, (j - d) % d, d);
  }

  lemma ProductGrows(n: nat, a: int, b: int)
    requires a <= b
    ensures n * a <= n * b
  {
    assert n * b - n * a == n * (b - a);
  }

  const TWO_63: int := 0x8000_0000_0000_0000

  predicate Int64(v: int) {
    -TWO_63 <= v < TWO_63
  }

  lemma Regroup<T>(a: seq<T>, b: seq<T>, c: seq<T>)
    ensures a + b + c == a + (b + c)
  {
  }

  /** What a sum is in signed 64 bits. */
  function Wrap64(v: int): (r: int)
    ensures Int64(r)
    ensures Int64(v) ==> r == v
  {
    (v + TWO_63) % (2 * TWO_63) - TWO_63
  }

  lemma OnceWrapped(sum: int)
    requires TWO_63 <= sum < 3 * TWO_63
    ensures Wrap64(sum) == sum - 2 * TWO_63
  {
  }

  lemma WrapAgain(a: int, b: int)
    ensures Wrap64(Wrap64(a) + b) == Wrap64(a + b)
  {
    hide Wrap64;
    var k := Turns(a);
    WrapPeriod(a + b, k);
    assert Wrap64(a) + b == a + b - 2 * TWO_63 * k;
  }

  /** How often a sum has wrapped. */
  lemma Turns(a: int) returns (k: int)
    ensures Wrap64(a) == a - 2 * TWO_63 * k
  {
    k := (a + TWO_63) / (2 * TWO_63);
  }

  lemma WrapPeriod(a: int, k: int)
    ensures Wrap64(a - 2 * TWO_63 * k) == Wrap64(a)
  {
  }
}
