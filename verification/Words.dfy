/** Machine words as natural numbers: powers of two, bitwise exclusive or, and the counting
    arguments that turn "distinct" into "every value occurs". Shifts are `* Pow2(k)` and
    `/ Pow2(k)`; masking with 2^k - 1 is `% Pow2(k)`. */
module Words {

  function Pow2(n: nat): (p: nat)
    ensures p >= 1
  {
    if n == 0 then 1 else 2 * Pow2(n - 1)
  }

  ghost predicate IsPow2(m: nat) {
    exists n: nat :: m == Pow2(n)
  }

  const TWO32: nat := 0x1_0000_0000
  const TWO64: nat := 0x1_0000_0000_0000_0000

  /** A 32-bit word, wrapped round. */
  function Wrap32(x: int): (r: nat)
    ensures r < TWO32
  {
    x % TWO32
  }

  /** `x & (n - 1)`, n being a power of two. */
  function Masked(x: nat, n: nat): (r: nat)
    requires n >= 1
    ensures r < n
  {
    x % n
  }

  type Byte = x: int | 0 <= x < 256

  function Min(x: int, y: int): int { if x < y then x else y }

  /** Bitwise exclusive or, least significant bit first. */
  function Xor(x: nat, y: nat): nat {
    if x == 0 && y == 0 then 0
    else 2 * Xor(x / 2, y / 2) + (if x % 2 != y % 2 then 1 else 0)
  }

  lemma {:induction false} XorCancels(x: nat, y: nat)
    ensures Xor(Xor(x, y), y) == x
    decreases x + y
  {
    if x == 0 && y == 0 {
    } else {
      XorCancels(x / 2, y / 2);
      var z := Xor(x, y);
      assert z / 2 == Xor(x / 2, y / 2);
    }
  }

  lemma XorInjective(x: nat, x': nat, y: nat)
    requires Xor(x, y) == Xor(x', y)
    ensures x == x'
  {
    XorCancels(x, y);
    XorCancels(x', y);
  }

  lemma {:induction false} XorBound(x: nat, y: nat, n: nat)
    requires x < Pow2(n) && y < Pow2(n)
    ensures Xor(x, y) < Pow2(n)
  {
    if n > 0 {
      XorBound(x / 2, y / 2, n - 1);
    }
  }

  lemma {:induction false} Pow2Add(m: nat, n: nat)
    ensures Pow2(m + n) == Pow2(m) * Pow2(n)
  {
    if m > 0 {
      Pow2Add(m - 1, n);
      assert Pow2(m + n) == 2 * Pow2(m - 1 + n);
    }
  }

  lemma {:induction false} Pow2Monotone(m: nat, n: nat)
    requires m <= n
    ensures Pow2(m) <= Pow2(n)
    ensures m < n ==> 2 * Pow2(m) <= Pow2(n)
    decreases n - m
  {
    if m < n {
      Pow2Monotone(m, n - 1);
    }
  }

  lemma Pow2Strict(m: nat, n: nat)
    requires Pow2(m) < Pow2(n)
    ensures m < n
  {
    if n <= m {
      Pow2Monotone(n, m);
    }
  }

  lemma Pow2Constants()
    ensures Pow2(3) == 8 && Pow2(5) == 32 && Pow2(6) == 64 && Pow2(8) == 256 && Pow2(30) == 0x4000_0000
    ensures Pow2(31) == 0x8000_0000 && Pow2(32) == TWO32 && Pow2(64) == TWO64
  {
    assert Pow2(16) == 65536;
    Pow2Add(16, 14);
    assert Pow2(14) == 16384;
    Pow2Add(16, 16);
    Pow2Add(32, 32);
  }

  /** `x << k`, before any wrapping */
  function Shl(x: nat, k: nat): nat { x * Pow2(k) }

  /** `x >> k` */
  function Shr(x: nat, k: nat): (r: nat)
    ensures r <= x
  {
    DivAtMost(x, Pow2(k));
    x / Pow2(k)
  }

  lemma DivAtMost(x: nat, m: nat)
    requires m >= 1
    ensures 0 <= x / m <= x
  {
    var q := x / m;
    assert x == q * m + x % m;
    MultipleBounds(q, m);
    MultipleBounds(m - 1, q);
    assert (m - 1) * q == q * m - q;
  }

  lemma DivBelow(x: nat, m: nat, p: nat)
    requires p >= 1 && x < m * p
    ensures x / p < m
  {
    var q := x / p;
    assert x == q * p + x % p;
    MultipleBounds(m - q, p);
    assert (m - q) * p == m * p - q * p;
  }

  lemma DivDiv(x: nat, p: nat, q: nat)
    requires p >= 1 && q >= 1
    ensures p * q >= 1 && (x / p) / q == x / (p * q)
  {
    var a, r := x / p, x % p;
    DivAtMost(x, p);
    DivAtMost(a, q);
    QuotientOfDigits(x, p, q, a, r, a / q, a % q);
  }

  lemma QuotientOfDigits(x: nat, p: nat, q: nat, a: nat, r: nat, b: nat, t: nat)
    requires x == a * p + r && a == b * q + t && r < p && t < q
    ensures p * q >= 1 && x / (p * q) == b
  {
    MultipleBounds(q, p);
    Digits(b, q, t, p, r);
    ModUnique(x, p * q, b, t * p + r);
  }

  lemma Digits(b: int, q: nat, t: nat, p: nat, r: nat)
    requires t < q && r < p
    ensures (b * q + t) * p + r == b * (p * q) + (t * p + r)
    ensures 0 <= t * p + r < p * q
  {
    MultipleBounds(q - t, p);
    assert (q - t) * p == q * p - t * p;
    assert (b * q + t) * p == (b * q) * p + t * p;
    Associate(b, p, q);
  }

  /** Reducing modulo a multiple first changes nothing. */
  lemma ModMod(x: int, m: nat, q: nat)
    requires m > 0 && q > 0
    ensures (x % (m * q)) % m == x % m
  {
    var t := x / (m * q);
    assert x == t * (m * q) + x % (m * q);
    assert t * (m * q) == m * (t * q) by { Associate(t, m, q); }
    ModShift(x % (m * q), m, t * q);
  }

  lemma Associate(t: int, m: int, q: int)
    ensures t * (m * q) == m * (t * q)
  {
  }

  lemma ModShift(x: int, m: nat, k: int)
    requires m > 0
    ensures (x + m * k) % m == x % m
  {
    var q := x / m;
    var r := x % m;
    assert x + m * k == (q + k) * m + r by {
      assert (q + k) * m == q * m + k * m;
    }
    ModUnique(x + m * k, m, q + k, r);
  }

  lemma ModUnique(x: int, m: nat, q: int, r: nat)
    requires x == q * m + r && r < m
    ensures x / m == q && x % m == r
  {
    var q', r' := x / m, x % m;
    assert (q - q') * m == r' - r;
    MultipleBounds(q - q', m);
  }

  lemma MultipleBounds(k: int, m: nat)
    ensures k >= 1 ==> k * m >= m
    ensures k <= -1 ==> k * m + m <= 0
  {
  }

  /** Equal residues differ by a multiple of the modulus. */
  lemma ModEqual(x: int, y: int, m: nat)
    requires m > 0
    ensures x % m == y % m <==> (x - y) % m == 0
  {
    if x % m == y % m {
      var k := x / m - y / m;
      assert x - y == 0 + m * k by { assert m * k == m * (x / m) - m * (y / m); }
      ModShift(0, m, k);
    } else if (x - y) % m == 0 {
      var k := (x - y) / m;
      assert x == y + m * k;
      ModShift(y, m, k);
    }
  }

  lemma ModAdd(x: int, y: int, m: nat)
    requires m > 0
    ensures (x % m + y) % m == (x + y) % m
  {
    assert x + y == (x % m + y) + m * (x / m);
    ModShift(x % m + y, m, x / m);
  }

  /** Adding a fixed word is injective modulo the word size. */
  lemma AddInjective(s: int, w: nat, w': nat, m: nat)
    requires w < m && w' < m && (s + w) % m == (s + w') % m
    ensures w == w'
  {
    ModEqual(s + w, s + w', m);
    if w > w' {
      ModUnique(w - w', m, 0, w - w');
    } else if w < w' {
      ModEqual(s + w', s + w, m);
      ModUnique(w' - w, m, 0, w' - w);
    }
  }

  /** An odd factor can be cancelled modulo a power of two. */
  lemma {:induction false} OddCancels(d: int, odd: int, n: nat)
    requires odd % 2 == 1 && (d * odd) % Pow2(n) == 0
    ensures d % Pow2(n) == 0
    decreases n
  {
    if n > 0 {
      var p := Pow2(n - 1);
      var k := (d * odd) / Pow2(n);
      assert d * odd == k * (2 * p);
      assert d % 2 == 0 by { OddEven(d, odd, k * p); }
      var e := d / 2;
      assert e * odd == k * p;
      ModShift(0, p, k);
      OddCancels(e, odd, n - 1);
      var j := e / p;
      assert d == 2 * (j * p) == 0 + Pow2(n) * j;
      ModShift(0, Pow2(n), j);
    }
  }

  lemma OddEven(d: int, odd: int, half: int)
    requires odd % 2 == 1 && d * odd == half * 2
    ensures d % 2 == 0
  {
    var o := odd / 2;
    assert d * odd == d * (2 * o + 1) == 2 * (d * o) + d;
  }

  ghost predicate Distinct(s: seq<int>) {
    forall i, j :: 0 <= i < j < |s| ==> s[i] != s[j]
  }

  function Range(n: nat): (r: set<int>)
    ensures forall x :: x in r <==> 0 <= x < n
  {
    if n == 0 then {} else Range(n - 1) + {n - 1}
  }

  lemma {:induction false} RangeSize(n: nat)
    ensures |Range(n)| == n
  {
    if n > 0 {
      RangeSize(n - 1);
    }
  }

  function Elements(s: seq<int>): (e: set<int>)
    ensures forall x :: x in e <==> x in s
  {
    set x | x in s
  }

  lemma {:induction false} DistinctSize(s: seq<int>)
    requires Distinct(s)
    ensures |Elements(s)| == |s|
  {
    if s != [] {
      var t := s[..|s| - 1];
      DistinctSize(t);
      assert s == t + [s[|s| - 1]];
      assert Elements(s) == Elements(t) + {s[|s| - 1]};
    }
  }

  /** The pigeonhole principle: n distinct values below n leave none out. */
  lemma DistinctCovers(s: seq<int>, n: nat, y: nat)
    requires |s| == n && Distinct(s) && (forall i :: 0 <= i < n ==> 0 <= s[i] < n) && y < n
    ensures y in s
  {
    DistinctSize(s);
    RangeSize(n);
    if y !in s {
      SubsetSize(Elements(s), Range(n) - {y});
    }
  }

  lemma {:induction false} SubsetSize<T>(a: set<T>, b: set<T>)
    requires a <= b
    ensures |a| <= |b|
  {
    if a != {} {
      var x :| x in a;
      SubsetSize(a - {x}, b - {x});
    }
  }
}
