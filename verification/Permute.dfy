/** The permutation that spreads the scramble table: twenty rounds of multiply-by-odd and
    xor-shift on an n-bit word. */
module Permute {
  import opened Words

  /** `x = (x + (x << c)) & mask` in 32-bit arithmetic. */
  function AddShift(x: nat, c: nat, nbits: nat): (r: nat)
    ensures r < Pow2(nbits)
  {
    ((x + Shl(x, c) % TWO32) % TWO32) % Pow2(nbits)
  }

  /** `x = x ^ (x >> c)` */
  function XorShift(x: nat, c: nat): nat { Xor(x, Shr(x, c)) }

  function Round(x: nat, nbits: nat): nat {
    XorShift(AddShift(XorShift(AddShift(x, 1 + nbits / 2, nbits), 1 + nbits / 3), 1 + nbits / 4, nbits), 1 + nbits / 5)
  }

  function Rounds(x: nat, nbits: nat, i: nat): nat {
    if i == 0 then x else Round(Rounds(x, nbits, i - 1), nbits)
  }

  function Permuted(x: nat, nbits: nat): nat { Rounds(x, nbits, 20) }

  method Permute(x0: nat, nbits: nat) returns (x: nat)
    requires nbits <= 31
    ensures x == Permuted(x0, nbits)
  {
    var const2, const3, const4, const5 := 1 + nbits / 2, 1 + nbits / 3, 1 + nbits / 4, 1 + nbits / 5;
    x := x0;
    for i := 0 to 20
      invariant x == Rounds(x0, nbits, i)
    {
      x := AddShift(x, const2, nbits);
      x := XorShift(x, const3);
      x := AddShift(x, const4, nbits);
      x := XorShift(x, const5);
    }
  }

  // ---- Each step is injective on n-bit words ------------------------------------------------

  /** The 32-bit wrap-around does not show in the low bits. */
  lemma AddShiftIsSum(x: nat, c: nat, nbits: nat)
    requires nbits <= 32
    ensures AddShift(x, c, nbits) == (x + Shl(x, c)) % Pow2(nbits)
  {
    hide Pow2, Shl;
    SplitWord(nbits);
    AddModMod(x, Shl(x, c), Pow2(nbits), Pow2(32 - nbits), TWO32);
  }

  lemma SplitWord(nbits: nat)
    requires nbits <= 32
    ensures TWO32 == Pow2(nbits) * Pow2(32 - nbits)
  {
    Pow2Add(nbits, 32 - nbits);
    Pow2Constants();
  }

  lemma AddModMod(x: nat, y: nat, m: nat, q: nat, mq: nat)
    requires m >= 1 && q >= 1 && mq == m * q && mq >= 1
    ensures ((x + y % mq) % mq) % m == (x + y) % m
  {
    ModAdd(y, x, mq);
    ModMod(x + y, m, q);
  }

  lemma SumIsProduct(x: nat, c: nat, odd: nat)
    requires odd == 1 + Pow2(c)
    ensures x + Shl(x, c) == x * odd
  {
    hide Pow2;
  }

  /** x times an odd number, on nbits bits. */
  function OddMultiple(x: nat, c: nat, nbits: nat): nat {
    var product: nat := x * (1 + Pow2(c));
    product % Pow2(nbits)
  }

  /** A round, without the 32-bit wrap-around: an odd multiple, folded, and the same again. */
  lemma RoundIs(x: nat, nbits: nat)
    requires nbits <= 32
    ensures var q := XorShift(OddMultiple(x, 1 + nbits / 2, nbits), 1 + nbits / 3);
      Round(x, nbits) == XorShift(OddMultiple(q, 1 + nbits / 4, nbits), 1 + nbits / 5)
  {
    hide AddShift, OddMultiple, XorShift;
    AddShiftIsProduct(x, 1 + nbits / 2, nbits);
    AddShiftIsProduct(XorShift(AddShift(x, 1 + nbits / 2, nbits), 1 + nbits / 3), 1 + nbits / 4, nbits);
  }

  lemma AddShiftIsProduct(x: nat, c: nat, nbits: nat)
    requires nbits <= 32
    ensures AddShift(x, c, nbits) == OddMultiple(x, c, nbits)
  {
    hide AddShift, Pow2, Shl;
    AddShiftIsSum(x, c, nbits);
    SumIsProduct(x, c, 1 + Pow2(c));
  }

  lemma On4(x: nat)
    ensures OddMultiple(x, 3, 4) == 9 * x % 16 && OddMultiple(x, 2, 4) == 5 * x % 16
    ensures XorShift(x, 2) == Xor(x, x / 4) && XorShift(x, 1) == Xor(x, x / 2)
  {
    hide Xor;
    assert Pow2(1) == 2 && Pow2(2) == 4 && Pow2(3) == 8 && Pow2(4) == 16;
  }

  lemma RoundOn4(x: nat, q: nat, y: nat)
    requires Xor(9 * x % 16, 9 * x % 16 / 4) == q && Xor(5 * q % 16, 5 * q % 16 / 2) == y
    ensures Round(x, 4) == y
  {
    hide *;
    RoundIs(x, 4);
    On4(x);
    On4(9 * x % 16);
    On4(q);
    On4(5 * q % 16);
  }

  lemma XorTable()
    ensures Xor(1, 0) == 1 && Xor(2, 0) == 2 && Xor(3, 1) == 2 && Xor(4, 1) == 5 && Xor(4, 2) == 6
    ensures Xor(5, 1) == 4 && Xor(5, 2) == 7 && Xor(6, 1) == 7 && Xor(7, 1) == 6 && Xor(7, 3) == 4
    ensures Xor(8, 4) == 12 && Xor(9, 2) == 11 && Xor(9, 4) == 13 && Xor(10, 2) == 8 && Xor(10, 5) == 15
    ensures Xor(11, 5) == 14 && Xor(12, 3) == 15 && Xor(12, 6) == 10 && Xor(14, 3) == 13 && Xor(14, 7) == 9
    ensures Xor(15, 3) == 12
  {
  }

  lemma OneRound(i: nat, x: nat, q: nat, y: nat)
    requires Rounds(1, 4, i) == x
    requires Xor(9 * x % 16, 9 * x % 16 / 4) == q && Xor(5 * q % 16, 5 * q % 16 / 2) == y
    ensures Rounds(1, 4, i + 1) == y
  {
    RoundOn4(x, q, y);
    hide Round, Xor;
  }

  /** The orbit of 1 closes after eleven rounds; nine lead from 1 to 12. */
  lemma OrbitOf1()
    ensures Rounds(1, 4, 9) == 12 && Rounds(1, 4, 11) == 1
  {
    hide Xor, Rounds;
    XorTable();
    assert Rounds(1, 4, 0) == 1 by {
      NoRounds(1, 4);
    }
    OneRound(0, 1, 11, 4);
    OneRound(1, 4, 5, 13);
    OneRound(2, 13, 4, 6);
    OneRound(3, 6, 7, 2);
    OneRound(4, 2, 2, 15);
    OneRound(5, 15, 6, 9);
    OneRound(6, 9, 1, 7);
    OneRound(7, 7, 12, 10);
    OneRound(8, 10, 8, 12);
    OneRound(9, 12, 15, 14);
    OneRound(10, 14, 13, 1);
  }

  lemma NoRounds(x: nat, nbits: nat)
    ensures Rounds(x, nbits, 0) == x
  {
  }

  lemma {:induction false} MoreRounds(x: nat, nbits: nat, i: nat, j: nat)
    ensures Rounds(x, nbits, i + j) == Rounds(Rounds(x, nbits, i), nbits, j)
  {
    hide Round;
    if j > 0 {
      MoreRounds(x, nbits, i, j - 1);
    }
  }

  /** Twenty rounds, or a number that differs from it by a multiple of eleven. */
  lemma TwentyRounds()
    ensures Permuted(1, 4) == 12
  {
    hide Rounds;
    OrbitOf1();
    MoreRounds(1, 4, 11, 9);
  }

  lemma AddShiftInjective(x: nat, y: nat, c: nat, nbits: nat)
    requires 1 <= c && nbits <= 32 && x < Pow2(nbits) && y < Pow2(nbits)
    requires AddShift(x, c, nbits) == AddShift(y, c, nbits)
    ensures x == y
  {
    hide AddShift, Pow2, Shl;
    AddShiftIsSum(x, c, nbits);
    AddShiftIsSum(y, c, nbits);
    var odd := 1 + Pow2(c);
    OddFactor(c);
    SumIsProduct(x, c, odd);
    SumIsProduct(y, c, odd);
    SameProduct(x + Shl(x, c), x * odd, y + Shl(y, c), y * odd, Pow2(nbits));
    ProductInjective(x, y, odd, nbits);
  }

  lemma SameProduct(s: nat, p: nat, s': nat, p': nat, m: nat)
    requires m >= 1 && s == p && s' == p' && s % m == s' % m
    ensures p % m == p' % m
  {
  }

  lemma OddFactor(c: nat)
    requires c >= 1
    ensures (1 + Pow2(c)) % 2 == 1
  {
    ModUnique(1 + Pow2(c), 2, Pow2(c - 1), 1);
  }

  lemma ProductInjective(x: nat, y: nat, odd: nat, nbits: nat)
    requires odd % 2 == 1 && x < Pow2(nbits) && y < Pow2(nbits)
    requires (x * odd) % Pow2(nbits) == (y * odd) % Pow2(nbits)
    ensures x == y
  {
    ModEqual(x * odd, y * odd, Pow2(nbits));
    assert x * odd - y * odd == (x - y) * odd;
    OddCancels(x - y, odd, nbits);
    ModEqual(x, y, Pow2(nbits));
    ModUnique(x, Pow2(nbits), 0, x);
    ModUnique(y, Pow2(nbits), 0, y);
  }

  lemma {:induction false} XorShiftInjective(x: nat, y: nat, c: nat)
    requires 1 <= c && XorShift(x, c) == XorShift(y, c)
    ensures x == y
    decreases x + y
  {
    if x != 0 || y != 0 {
      HalfXorShift(x, c);
      HalfXorShift(y, c);
      XorShiftInjective(x / 2, y / 2, c);
      ShiftOfHalf(x, c);
      ShiftOfHalf(y, c);
    }
  }

  lemma HalfXorShift(x: nat, c: nat)
    ensures XorShift(x, c) / 2 == XorShift(x / 2, c)
    ensures XorShift(x, c) % 2 == (x % 2 + Shr(x, c) % 2) % 2
  {
    hide Pow2, Xor, Shr;
    XorHalves(x, Shr(x, c));
    HalfShift(x, c);
  }

  lemma HalfShift(x: nat, c: nat)
    ensures Shr(x, c) / 2 == Shr(x / 2, c)
  {
    hide Pow2;
    HalfOfShift(x, Pow2(c));
  }

  lemma XorHalves(x: nat, y: nat)
    ensures Xor(x, y) / 2 == Xor(x / 2, y / 2)
    ensures Xor(x, y) % 2 == (x % 2 + y % 2) % 2
  {
    hide Xor;
    var d := if x % 2 != y % 2 then 1 else 0;
    XorDigits(x, y, d);
    ModUnique(Xor(x, y), 2, Xor(x / 2, y / 2), d);
  }

  lemma XorDigits(x: nat, y: nat, d: nat)
    requires d == if x % 2 != y % 2 then 1 else 0
    ensures Xor(x, y) == Xor(x / 2, y / 2) * 2 + d
  {
  }

  lemma HalfOfShift(x: nat, p: nat)
    requires p >= 1
    ensures (x / p) / 2 == (x / 2) / p
  {
    DivDiv(x, p, 2);
    DivDiv(x, 2, p);
    assert p * 2 == 2 * p;
  }

  lemma ShiftOfHalf(x: nat, c: nat)
    requires c >= 1
    ensures Shr(x, c) == Shr(x / 2, c - 1)
  {
    DivDiv(x, 2, Pow2(c - 1));
  }

  lemma XorShiftBound(x: nat, c: nat, nbits: nat)
    requires x < Pow2(nbits)
    ensures XorShift(x, c) < Pow2(nbits)
  {
    XorBound(x, Shr(x, c), nbits);
  }

  lemma RoundInjective(x: nat, y: nat, nbits: nat)
    requires nbits <= 32 && x < Pow2(nbits) && y < Pow2(nbits) && Round(x, nbits) == Round(y, nbits)
    ensures x == y
  {
    hide AddShift, XorShift;
    var x1, y1 := AddShift(x, 1 + nbits / 2, nbits), AddShift(y, 1 + nbits / 2, nbits);
    var x2, y2 := XorShift(x1, 1 + nbits / 3), XorShift(y1, 1 + nbits / 3);
    var x3, y3 := AddShift(x2, 1 + nbits / 4, nbits), AddShift(y2, 1 + nbits / 4, nbits);
    XorShiftInjective(x3, y3, 1 + nbits / 5);
    XorShiftBound(x1, 1 + nbits / 3, nbits);
    XorShiftBound(y1, 1 + nbits / 3, nbits);
    AddShiftInjective(x2, y2, 1 + nbits / 4, nbits);
    XorShiftInjective(x1, y1, 1 + nbits / 3);
    AddShiftInjective(x, y, 1 + nbits / 2, nbits);
  }

  lemma RoundBound(x: nat, nbits: nat)
    ensures Round(x, nbits) < Pow2(nbits)
  {
    hide AddShift, XorShift;
    var x1 := AddShift(x, 1 + nbits / 2, nbits);
    XorShiftBound(AddShift(XorShift(x1, 1 + nbits / 3), 1 + nbits / 4, nbits), 1 + nbits / 5, nbits);
  }

  lemma {:induction false} RoundsInjective(x: nat, y: nat, nbits: nat, i: nat)
    requires nbits <= 32 && x < Pow2(nbits) && y < Pow2(nbits)
    requires Rounds(x, nbits, i) == Rounds(y, nbits, i)
    ensures x == y
  {
    hide Round;
    if i > 0 {
      RoundsBound(x, nbits, i - 1);
      RoundsBound(y, nbits, i - 1);
      RoundInjective(Rounds(x, nbits, i - 1), Rounds(y, nbits, i - 1), nbits);
      RoundsInjective(x, y, nbits, i - 1);
    }
  }

  lemma RoundsBound(x: nat, nbits: nat, i: nat)
    requires i > 0 || x < Pow2(nbits)
    ensures Rounds(x, nbits, i) < Pow2(nbits)
  {
    hide Round;
    if i > 0 {
      RoundBound(Rounds(x, nbits, i - 1), nbits);
    }
  }

  lemma {:induction false} RoundsOfZero(nbits: nat, i: nat)
    ensures Rounds(0, nbits, i) == 0
  {
    if i > 0 {
      RoundsOfZero(nbits, i - 1);
      ModUnique(0, Pow2(nbits), 0, 0);
      ZeroSteps(1 + nbits / 2, nbits);
      ZeroSteps(1 + nbits / 3, nbits);
      ZeroSteps(1 + nbits / 4, nbits);
      ZeroSteps(1 + nbits / 5, nbits);
    }
  }

  lemma ZeroSteps(c: nat, nbits: nat)
    ensures AddShift(0, c, nbits) == 0 && XorShift(0, c) == 0
  {
    ModUnique(0, Pow2(nbits), 0, 0);
  }

  ghost predicate IsImage(z: nat, nbits: nat) {
    exists x: nat :: x < Pow2(nbits) && Permuted(x, nbits) == z
  }

  /** permute is a bijection on 0..2^nbits - 1 that fixes 0. */
  lemma PermuteBijective(nbits: nat)
    requires nbits <= 31
    ensures Permuted(0, nbits) == 0
    ensures forall x: nat :: Permuted(x, nbits) < Pow2(nbits)
    ensures forall x: nat, y: nat :: x < Pow2(nbits) && y < Pow2(nbits) && Permuted(x, nbits) == Permuted(y, nbits) ==>
      x == y
    ensures forall z: nat :: z < Pow2(nbits) ==> IsImage(z, nbits)
  {
    hide Rounds;
    RoundsOfZero(nbits, 20);
    forall x: nat ensures Permuted(x, nbits) < Pow2(nbits) {
      RoundsBound(x, nbits, 20);
    }
    forall x: nat, y: nat | x < Pow2(nbits) && y < Pow2(nbits) && Permuted(x, nbits) == Permuted(y, nbits)
      ensures x == y
    {
      RoundsInjective(x, y, nbits, 20);
    }
    hide Permuted;
    var s: seq<int> := seq(Pow2(nbits), i requires 0 <= i => Permuted(i, nbits));
    forall z: nat | z < Pow2(nbits) ensures IsImage(z, nbits) {
      DistinctCovers(s, Pow2(nbits), z);
      var i :| 0 <= i < |s| && s[i] == z;
      assert Permuted(i, nbits) == z;
    }
  }

  // ---- The scramble table -------------------------------------------------------------------

  const SCRAMBLE_LEN: nat := 256

  /** The least i, not below the given one, with 2^i >= v. */
  function LogFrom(v: nat, i: nat): (r: nat)
    ensures r >= i && v <= Pow2(r)
    decreases v - Pow2(i)
  {
    if Pow2(i) < v then LogFrom(v, i + 1) else i
  }

  function Log2u(v: nat): nat { LogFrom(v, 0) }

  method ComputeLog2u(v: nat) returns (i: nat)
    requires v <= 0x8000_0000
    ensures i == Log2u(v)
    ensures i <= 31
  {
    Pow2Constants();
    i := 0;
    while Pow2(i) < v
      invariant LogFrom(v, i) == Log2u(v) && i <= 31
      decreases v - Pow2(i)
    {
      Pow2Strict(i, 31);
      i := i + 1;
    }
  }

  /** log2u is the ceiling of the binary logarithm. */
  lemma Log2uIsCeiling(v: nat, i: nat)
    ensures v <= Pow2(Log2u(v))
    ensures v <= Pow2(i) <==> Log2u(v) <= i
  {
    if v <= Pow2(i) {
      LogFromLeast(v, 0, i);
    } else {
      if Log2u(v) <= i {
        Pow2Monotone(Log2u(v), i);
      }
    }
  }

  lemma {:induction false} LogFromLeast(v: nat, j: nat, i: nat)
    requires v <= Pow2(i) && (j <= i || v <= Pow2(j))
    ensures LogFrom(v, j) <= i || LogFrom(v, j) == j
    decreases v - Pow2(j)
  {
    if Pow2(j) < v {
      if i <= j {
        Pow2Monotone(i, j);
      }
      LogFromLeast(v, j + 1, i);
    }
  }

  lemma Log2uOfPow2(n: nat)
    ensures Log2u(Pow2(n)) == n
  {
    Log2uIsCeiling(Pow2(n), n);
    if Log2u(Pow2(n)) < n {
      Pow2Monotone(Log2u(Pow2(n)), n);
    }
  }

  function Scramble(smax: nat): (s: seq<nat>)
    ensures |s| == SCRAMBLE_LEN
  {
    seq(SCRAMBLE_LEN, i requires 0 <= i => Permuted(i, Log2u(smax)))
  }

  method ScrambleInit(scramble: array<nat>, smax: nat)
    requires scramble.Length == SCRAMBLE_LEN && smax <= 0x8000_0000
    modifies scramble
    ensures scramble[..] == Scramble(smax)
  {
    hide Permuted;
    for i := 0 to SCRAMBLE_LEN
      invariant forall j :: 0 <= j < i ==> scramble[j] == Permuted(j, Log2u(smax))
    {
      var nbits := ComputeLog2u(smax);
      scramble[i] := Permute(i, nbits);
    }
    assert scramble[..] == Scramble(smax);
  }

  /** The table's values lie below smax; they are distinct when smax is at least 256 and cover
      all of 0..smax-1 when smax is at most 256. */
  lemma ScrambleSpreads(n: nat)
    requires n <= 31
    ensures forall i :: 0 <= i < 256 ==> Scramble(Pow2(n))[i] < Pow2(n)
    ensures Pow2(n) >= 256 ==> Distinct(Scramble(Pow2(n)))
    ensures Pow2(n) <= 256 ==> forall z: nat :: z < Pow2(n) ==> z in Scramble(Pow2(n))
  {
    hide Permuted, Log2u, Pow2;
    Log2uOfPow2(n);
    PermuteBijective(n);
    var s := Scramble(Pow2(n));
    if Pow2(n) <= 256 {
      forall z: nat | z < Pow2(n) ensures z in s {
        assert IsImage(z, n);
        var x: nat :| x < Pow2(n) && Permuted(x, n) == z;
        assert s[x] == z;
      }
    }
  }
}
