/** Powers of two, bitwise operators on naturals, and the modular facts the
    other modules share. */
module Bits {

  function Pow2(k: nat): (p: nat)
    ensures p >= 1
  {
    if k == 0 then 1 else 2 * Pow2(k - 1)
  }

  predicate IsPow2(n: nat) {
    n == 1 || (n > 1 && n % 2 == 0 && IsPow2(n / 2))
  }

  lemma {:induction false} Pow2IsPow2(k: nat)
    ensures IsPow2(Pow2(k))
  {
    if k > 0 { Pow2IsPow2(k - 1); }
  }

  lemma {:induction false} Pow2Exponent(n: nat) returns (k: nat)
    requires IsPow2(n)
    ensures n == Pow2(k)
  {
    if n == 1 {
      k := 0;
    } else {
      k := Pow2Exponent(n / 2);
      k := k + 1;
    }
  }

  /** The C operator `&` on unsigned integers. */
  function BitAnd(x: nat, y: nat): nat {
    if x == 0 || y == 0 then 0
    else 2 * BitAnd(x / 2, y / 2) + (if x % 2 == 1 && y % 2 == 1 then 1 else 0)
  }

  /** The C operator `|` on unsigned integers. */
  function BitOr(x: nat, y: nat): nat {
    if x == 0 then y
    else if y == 0 then x
    else 2 * BitOr(x / 2, y / 2) + (if x % 2 == 1 || y % 2 == 1 then 1 else 0)
  }

  /** Bit `i` of `x`. */
  predicate TestBit(x: nat, i: nat) {
    if i == 0 then x % 2 == 1 else TestBit(x / 2, i - 1)
  }

  lemma {:induction false} TestBitAnd(x: nat, y: nat, i: nat)
    ensures TestBit(BitAnd(x, y), i) <==> TestBit(x, i) && TestBit(y, i)
  {
    if x == 0 || y == 0 {
      TestBitZero(i);
    } else if i > 0 {
      TestBitAnd(x / 2, y / 2, i - 1);
      assert BitAnd(x, y) / 2 == BitAnd(x / 2, y / 2);
    }
  }

  lemma {:induction false} TestBitOr(x: nat, y: nat, i: nat)
    ensures TestBit(BitOr(x, y), i) <==> TestBit(x, i) || TestBit(y, i)
  {
    if x == 0 || y == 0 {
      TestBitZero(i);
    } else if i > 0 {
      TestBitOr(x / 2, y / 2, i - 1);
      assert BitOr(x, y) / 2 == BitOr(x / 2, y / 2);
    }
  }

  lemma {:induction false} TestBitZero(i: nat)
    ensures !TestBit(0, i)
  {
    if i > 0 { TestBitZero(i - 1); }
  }

  /** Testing a bit with its mask. */
  lemma {:induction false} AndPow2(x: nat, i: nat)
    ensures BitAnd(x, Pow2(i)) == if TestBit(x, i) then Pow2(i) else 0
  {
    if x == 0 {
      TestBitZero(i);
    } else if i > 0 {
      AndPow2(x / 2, i - 1);
    }
  }

  lemma {:induction false} OrBelow(x: nat, y: nat, k: nat)
    requires x < Pow2(k) && y < Pow2(k)
    ensures BitOr(x, y) < Pow2(k)
  {
    if x > 0 && y > 0 { OrBelow(x / 2, y / 2, k - 1); }
  }

  lemma {:induction false} AndAtMost(x: nat, y: nat)
    ensures BitAnd(x, y) <= x
  {
    if x > 0 && y > 0 { AndAtMost(x / 2, y / 2); }
  }

  lemma HalfMod(x: nat, p: nat)
    requires p >= 1
    ensures x % (2 * p) == 2 * (x / 2 % p) + x % 2
  {
    var q := x / 2;
    var d, r := q / p, q % p;
    assert q == d * p + r;
    assert x == d * (2 * p) + (2 * r + x % 2);
    ModUnique(x, 2 * p, d, 2 * r + x % 2);
  }

  lemma MulAtLeast(k: int, m: nat)
    ensures k >= 1 ==> k * m >= m
    ensures k <= -1 ==> k * m + m <= 0
  {
  }

  lemma ModUnique(x: int, m: nat, d: int, r: int)
    requires m > 0 && x == d * m + r && 0 <= r < m
    ensures x % m == r && x / m == d
  {
    var d', r' := x / m, x % m;
    assert (d - d') * m == r' - r by {
      assert x == m * d' + r';
      assert (d - d') * m == d * m - m * d';
    }
    MulAtLeast(d - d', m);
  }

  /** Masking with `2^k - 1` is the remainder modulo `2^k`. */
  lemma {:induction false} MaskIsMod(x: nat, k: nat)
    ensures BitAnd(x, Pow2(k) - 1) == x % Pow2(k)
  {
    if k > 0 {
      var p := Pow2(k - 1);
      assert (2 * p - 1) / 2 == p - 1;
      MaskIsMod(x / 2, k - 1);
      HalfMod(x, p);
    }
  }

  lemma MaskSize(x: nat, size: nat)
    requires IsPow2(size)
    ensures size >= 1 && BitAnd(x, size - 1) == Cell(x, size)
  {
    var k := Pow2Exponent(size);
    MaskIsMod(x, k);
    CellIsMod(x, size);
  }

  /** Disjoint bit fields: or-ing `b < 2^k` under `a * 2^k` is addition. */
  lemma {:induction false} OrIsAdd(a: nat, b: nat, k: nat)
    requires b < Pow2(k)
    ensures BitOr(a * Pow2(k), b) == a * Pow2(k) + b
  {
    if k == 0 {
      assert a * Pow2(k) == a;
    } else {
      var p := Pow2(k - 1);
      assert a * Pow2(k) == 2 * (a * p);
      assert a * Pow2(k) / 2 == a * p;
      OrIsAdd(a, b / 2, k - 1);
    }
  }

  lemma {:induction false} Pow2Monotone(i: nat, j: nat)
    requires i <= j
    ensures Pow2(i) <= Pow2(j)
    decreases j - i
  {
    if i < j { Pow2Monotone(i, j - 1); }
  }

  lemma {:induction false} Pow2Add(i: nat, j: nat)
    ensures Pow2(i + j) == Pow2(i) * Pow2(j)
  {
    if i > 0 {
      Pow2Add(i - 1, j);
      assert 2 * (Pow2(i - 1) * Pow2(j)) == (2 * Pow2(i - 1)) * Pow2(j);
    }
  }

  /** Reducing modulo a multiple of `m` first does not change the remainder modulo `m`. */
  lemma ModMultiple(x: nat, c: nat, m: nat)
    requires m > 0 && c > 0
    ensures c * m > 0 && x % (c * m) % m == x % m
  {
    assert c * m > 0;
    var d, r := x / (c * m), x % (c * m);
    var e := r / m;
    assert x == (d * c + e) * m + r % m by {
      assert d * (c * m) == (d * c) * m;
      assert (d * c + e) * m == (d * c) * m + e * m;
    }
    ModUnique(x, m, d * c + e, r % m);
  }

  /** The cell a running counter `i` falls in, in a ring of `m` cells: `i` modulo
      `m`, by repeated subtraction (`CellIsMod`). */
  function Cell(i: nat, m: nat): (c: nat)
    requires m > 0
    ensures c < m
    decreases i
  {
    if i < m then i else Cell(i - m, m)
  }

  lemma {:induction false} CellIsMod(i: nat, m: nat)
    requires m > 0
    ensures Cell(i, m) == i % m
    decreases i
  {
    if i < m {
      ModUnique(i, m, 0, i);
    } else {
      CellIsMod(i - m, m);
      var d, r := (i - m) / m, (i - m) % m;
      assert i == (d + 1) * m + r;
      ModUnique(i, m, d + 1, r);
    }
  }

  lemma {:induction false} CellAdd(x: nat, j: nat, m: nat)
    requires m > 0
    ensures Cell(x + j, m) == Cell(Cell(x, m) + j, m)
    decreases x
  {
    if x >= m { CellAdd(x - m, j, m); }
  }

  /** The cell `k < m` places after, and before, that of counter `x`. */
  lemma {:induction false} CellNear(x: nat, k: nat, m: nat)
    requires k < m
    ensures Cell(x + k, m) == if Cell(x, m) + k < m then Cell(x, m) + k else Cell(x, m) + k - m
    ensures k <= x ==> Cell(x - k, m) == if k <= Cell(x, m) then Cell(x, m) - k else Cell(x, m) + m - k
  {
    CellAdd(x, k, m);
    if k <= x { CellAdd(x - k, k, m); }
  }

  /** Two counters less than `m` apart fall in different cells. */
  lemma {:induction false} CellDistinct(a: nat, b: nat, m: nat)
    requires a < b < a + m
    ensures Cell(a, m) != Cell(b, m)
    decreases a
  {
    if a >= m { CellDistinct(a - m, b - m, m); }
  }

  /** A ring whose length is a multiple of `m` keeps cells modulo `m`. */
  lemma {:induction false} CellOfMultiple(x: nat, c: nat, m: nat)
    requires m > 0 && c > 0
    ensures c * m > 0 && Cell(Cell(x, c * m), m) == Cell(x, m)
  {
    assert c * m > 0;
    CellIsMod(x, c * m);
    CellIsMod(Cell(x, c * m), m);
    CellIsMod(x, m);
    ModMultiple(x, c, m);
  }
}
