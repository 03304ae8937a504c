/** Bob Jenkins' 64-bit string hash: the reversible mixing step, the block loop and the
    fall-through handling of the last bytes. */
module Lookup8 {
  import opened Words

  /** The three 64-bit accumulators. */
  datatype Acc = Acc(a: nat, b: nat, c: nat)

  ghost predicate IsAcc(s: Acc) {
    s.a < TWO64 && s.b < TWO64 && s.c < TWO64
  }

  const GOLDEN: nat := 0x9e37_79b9_7f4a_7c13

  function Shl64(x: nat, k: nat): nat { Shl(x, k) % TWO64 }

  function Less(x: nat, y: nat, z: nat): (r: nat)
    ensures r < TWO64
  {
    (x - y - z) % TWO64
  }

  /** `a -= b; a -= c; a ^= (c >> k)` */
  function MixA(s: Acc, k: nat): Acc { s.(a := Xor(Less(s.a, s.b, s.c), Shr(s.c, k))) }

  /** `b -= c; b -= a; b ^= (a << k)` */
  function MixB(s: Acc, k: nat): Acc { s.(b := Xor(Less(s.b, s.c, s.a), Shl64(s.a, k))) }

  /** `c -= a; c -= b; c ^= (b >> k)` */
  function MixC(s: Acc, k: nat): Acc { s.(c := Xor(Less(s.c, s.a, s.b), Shr(s.b, k))) }

  function MixRow(s: Acc, ka: nat, kb: nat, kc: nat): Acc { MixC(MixB(MixA(s, ka), kb), kc) }

  function Mix64(s: Acc): Acc {
    MixRow(MixRow(MixRow(MixRow(s, 43, 9, 8), 38, 23, 5), 35, 49, 11), 12, 18, 22)
  }

  /** The twelve shifts, every second of three to the left. */
  const SHIFTS: seq<nat> := [43, 9, 8, 38, 23, 5, 35, 49, 11, 12, 18, 22]

  /** The accumulator in front loses the other two, is folded with the last and goes to the back. */
  function Folded(s: Acc, left: bool, k: nat): Acc {
    Acc(s.b, s.c, Xor(Less(s.a, s.b, s.c), if left then Shl64(s.c, k) else Shr(s.c, k)))
  }

  ghost function Steps(s: Acc, n: nat): Acc
    requires n <= 12
  {
    if n == 0 then s else Folded(Steps(s, n - 1), n % 3 == 2, SHIFTS[n - 1])
  }

  lemma RowIsSteps(s: Acc, ka: nat, kb: nat, kc: nat)
    ensures MixRow(s, ka, kb, kc) == Folded(Folded(Folded(s, false, ka), true, kb), false, kc)
  {
    hide Less, Shl64, Shr, Xor;
  }

  lemma RowAfter(s: Acc, n: nat)
    requires n == 0 || n == 3 || n == 6 || n == 9
    ensures Steps(s, n + 3) == MixRow(Steps(s, n), SHIFTS[n], SHIFTS[n + 1], SHIFTS[n + 2])
  {
    RowIsSteps(Steps(s, n), SHIFTS[n], SHIFTS[n + 1], SHIFTS[n + 2]);
    hide Folded, MixRow;
    var t := Steps(s, n);
    assert Steps(s, n + 1) == Folded(t, false, SHIFTS[n]);
    assert Steps(s, n + 2) == Folded(Steps(s, n + 1), true, SHIFTS[n + 1]);
  }

  lemma NoSteps(s: Acc)
    ensures Steps(s, 0) == s
  {
  }

  /** Twelve steps, after which the accumulators are back in their places. */
  lemma Mix64IsSteps(s: Acc)
    ensures Mix64(s) == Steps(s, 12)
  {
    hide Steps, MixRow;
    NoSteps(s);
    RowAfter(s, 0);
    RowAfter(s, 3);
    RowAfter(s, 6);
    RowAfter(s, 9);
  }

  // ---- The inverse of the mixing step -------------------------------------------------------

  function More(x: nat, y: nat, z: nat): (r: nat)
    ensures r < TWO64
  {
    (x + y + z) % TWO64
  }

  function UnmixA(s: Acc, k: nat): Acc { s.(a := More(Xor(s.a, Shr(s.c, k)), s.b, s.c)) }

  function UnmixB(s: Acc, k: nat): Acc { s.(b := More(Xor(s.b, Shl64(s.a, k)), s.c, s.a)) }

  function UnmixC(s: Acc, k: nat): Acc { s.(c := More(Xor(s.c, Shr(s.b, k)), s.a, s.b)) }

  function UnmixRow(s: Acc, ka: nat, kb: nat, kc: nat): Acc { UnmixA(UnmixB(UnmixC(s, kc), kb), ka) }

  function Unmix64(s: Acc): Acc {
    UnmixRow(UnmixRow(UnmixRow(UnmixRow(s, 12, 18, 22), 35, 49, 11), 38, 23, 5), 43, 9, 8)
  }

  lemma MoreLess(x: nat, y: nat, z: nat)
    requires x < TWO64
    ensures More(Less(x, y, z), y, z) == x
    ensures Less(More(x, y, z), y, z) == x
  {
    ModAdd(x - y - z, y + z, TWO64);
    ModAdd(x + y + z, 0 - y - z, TWO64);
  }

  lemma XorWord(x: nat, y: nat)
    requires x < TWO64 && y < TWO64
    ensures Xor(x, y) < TWO64
  {
    Pow2Constants();
    XorBound(x, y, 64);
  }

  lemma RowReversible(s: Acc, ka: nat, kb: nat, kc: nat)
    requires IsAcc(s)
    ensures IsAcc(MixRow(s, ka, kb, kc)) && UnmixRow(MixRow(s, ka, kb, kc), ka, kb, kc) == s
    ensures IsAcc(UnmixRow(s, ka, kb, kc)) && MixRow(UnmixRow(s, ka, kb, kc), ka, kb, kc) == s
  {
    StepsReversible(s, ka, kb, kc);
    var s1 := MixA(s, ka);
    StepsReversible(s1, ka, kb, kc);
    StepsReversible(MixB(s1, kb), ka, kb, kc);
    var u1 := UnmixC(s, kc);
    StepsReversible(u1, ka, kb, kc);
    StepsReversible(UnmixB(u1, kb), ka, kb, kc);
  }

  lemma StepsReversible(s: Acc, ka: nat, kb: nat, kc: nat)
    requires IsAcc(s)
    ensures IsAcc(MixA(s, ka)) && UnmixA(MixA(s, ka), ka) == s
    ensures IsAcc(MixB(s, kb)) && UnmixB(MixB(s, kb), kb) == s
    ensures IsAcc(MixC(s, kc)) && UnmixC(MixC(s, kc), kc) == s
    ensures IsAcc(UnmixA(s, ka)) && MixA(UnmixA(s, ka), ka) == s
    ensures IsAcc(UnmixB(s, kb)) && MixB(UnmixB(s, kb), kb) == s
    ensures IsAcc(UnmixC(s, kc)) && MixC(UnmixC(s, kc), kc) == s
  {
    WordSteps(s.a, s.b, s.c, Shr(s.c, ka));
    WordSteps(s.b, s.c, s.a, Shl64(s.a, kb));
    WordSteps(s.c, s.a, s.b, Shr(s.b, kc));
  }

  /** One accumulator's update, in either direction, undoes the other. */
  lemma WordSteps(x: nat, y: nat, z: nat, t: nat)
    requires x < TWO64 && t < TWO64
    ensures Xor(Less(x, y, z), t) < TWO64
    ensures More(Xor(Xor(Less(x, y, z), t), t), y, z) == x
    ensures Xor(Less(More(Xor(x, t), y, z), y, z), t) == x
  {
    XorWord(Less(x, y, z), t);
    XorCancels(Less(x, y, z), t);
    XorWord(x, t);
    MoreLess(x, y, z);
    MoreLess(Xor(x, t), y, z);
    XorCancels(x, t);
  }

  /** mix64 is a bijection on triples of 64-bit words. */
  lemma MixBijective(s: Acc)
    requires IsAcc(s)
    ensures IsAcc(Mix64(s)) && Unmix64(Mix64(s)) == s
    ensures IsAcc(Unmix64(s)) && Mix64(Unmix64(s)) == s
  {
    var s1 := MixRow(s, 43, 9, 8);
    var s2 := MixRow(s1, 38, 23, 5);
    var s3 := MixRow(s2, 35, 49, 11);
    RowReversible(s, 43, 9, 8);
    RowReversible(s1, 38, 23, 5);
    RowReversible(s2, 35, 49, 11);
    RowReversible(s3, 12, 18, 22);
    var u1 := UnmixRow(s, 12, 18, 22);
    var u2 := UnmixRow(u1, 35, 49, 11);
    var u3 := UnmixRow(u2, 38, 23, 5);
    RowReversible(s, 12, 18, 22);
    RowReversible(u1, 35, 49, 11);
    RowReversible(u2, 38, 23, 5);
    RowReversible(u3, 43, 9, 8);
  }

  lemma MixInjective(s: Acc, t: Acc)
    requires IsAcc(s) && IsAcc(t) && Mix64(s) == Mix64(t)
    ensures s == t
  {
    MixBijective(s);
    MixBijective(t);
  }

  // ---- Bytes and words ----------------------------------------------------------------------

  /** Little-endian value of a byte string. */
  function LE(s: seq<Byte>): nat {
    if s == [] then 0 else s[0] + 256 * LE(s[1..])
  }

  lemma {:induction false} LEInjective(s: seq<Byte>, t: seq<Byte>)
    requires |s| == |t| && LE(s) == LE(t)
    ensures s == t
  {
    if s != [] {
      LEInjective(s[1..], t[1..]);
      assert s == [s[0]] + s[1..] && t == [t[0]] + t[1..];
    }
  }

  lemma {:induction false} LEBound(s: seq<Byte>)
    ensures LE(s) < Pow2(8 * |s|)
  {
    if s != [] {
      LEBound(s[1..]);
      ByteUp(|s|);
    }
  }

  lemma {:induction false} LEAppend(s: seq<Byte>, x: Byte)
    ensures LE(s + [x]) == LE(s) + x * Pow2(8 * |s|)
  {
    if s != [] {
      LEAppend(s[1..], x);
      assert (s + [x])[1..] == s[1..] + [x] && (s + [x])[0] == s[0];
      ByteUp(|s|);
      AppendStep(s[0], LE(s[1..]), x, Pow2(8 * (|s| - 1)));
    } else {
      assert ([x])[1..] == [];
    }
  }

  lemma ByteUp(n: nat)
    requires n >= 1
    ensures Pow2(8 * n) == 256 * Pow2(8 * (n - 1))
  {
    hide Pow2;
    Pow2Add(8, 8 * (n - 1));
    Pow2Constants();
  }

  lemma AppendStep(b: nat, l: nat, x: nat, p: nat)
    ensures b + 256 * (l + x * p) == b + 256 * l + x * (256 * p)
  {
  }

  /** Eight key bytes as the loop body adds them up. */
  function Load8(k: seq<Byte>, i: nat): nat
    requires i + 8 <= |k|
  {
    var b := (j: nat) requires i + j < |k| => k[i + j] as nat;
    b(0) + b(1) * 0x100 + b(2) * 0x1_0000 + b(3) * 0x100_0000
    + b(4) * 0x1_0000_0000 + b(5) * 0x100_0000_0000 + b(6) * 0x1_0000_0000_0000
    + b(7) * 0x100_0000_0000_0000
  }

  lemma Load8IsLE(k: seq<Byte>, i: nat)
    requires i + 8 <= |k|
    ensures Load8(k, i) == LE(k[i..i + 8])
  {
    LESlice(k, i, i + 8);
    LESlice(k, i + 1, i + 8);
    LESlice(k, i + 2, i + 8);
    LESlice(k, i + 3, i + 8);
    LESlice(k, i + 4, i + 8);
    LESlice(k, i + 5, i + 8);
    LESlice(k, i + 6, i + 8);
    LESlice(k, i + 7, i + 8);
  }

  lemma LESlice(k: seq<Byte>, i: nat, j: nat)
    requires i < j <= |k|
    ensures LE(k[i..j]) == k[i] + 256 * LE(k[i + 1..j])
  {
    assert k[i..j][1..] == k[i + 1..j];
  }

  lemma Load8Word(k: seq<Byte>, i: nat)
    requires i + 8 <= |k|
    ensures Load8(k, i) < TWO64
  {
    Load8IsLE(k, i);
    LEBound(k[i..i + 8]);
    Pow2Constants();
  }

  // ---- The hash as a function ---------------------------------------------------------------

  function Start(level: nat): Acc { Acc(level, level, GOLDEN) }

  /** Addition of 64-bit words, wrapping round. */
  function Add64(x: nat, y: nat): (r: nat)
    ensures r < TWO64
  {
    (x + y) % TWO64
  }

  lemma Add64Add(x: nat, y: nat, z: nat)
    ensures Add64(Add64(x, y), z) == Add64(x, y + z)
  {
    ModAdd(x + y, z, TWO64);
  }

  lemma Add64Zero(x: nat)
    requires x < TWO64
    ensures Add64(x, 0) == x
  {
  }

  function AddWords(s: Acc, x: nat, y: nat, z: nat): Acc {
    Acc(Add64(s.a, x), Add64(s.b, y), Add64(s.c, z))
  }

  /** A key byte moved to its place in a word. */
  function Place(x: Byte, bits: nat): nat { Shl(x, bits) }

  /** One trip round the loop: 24 bytes starting at `i`. */
  function Block(s: Acc, k: seq<Byte>, i: nat): Acc
    requires i + 24 <= |k|
  {
    Mix64(AddWords(s, Load8(k, i), Load8(k, i + 8), Load8(k, i + 16)))
  }

  /** The accumulators after the first n blocks. */
  function Blocks(k: seq<Byte>, level: nat, n: nat): Acc
    requires 24 * n <= |k|
  {
    if n == 0 then Start(level) else Block(Blocks(k, level, n - 1), k, 24 * (n - 1))
  }

  /** `case n:` of the switch over the remaining bytes, with its fall-through to `case n - 1:`. */
  function TailCase(s: Acc, t: seq<Byte>, n: nat): Acc
    requires n <= |t|
    decreases n
  {
    if n == 0 then s
    else
      var x := t[n - 1];
      TailCase(if n >= 17 then AddWords(s, 0, 0, Place(x, 8 * (n - 16)))
               else if n >= 9 then AddWords(s, 0, Place(x, 8 * (n - 9)), 0)
               else AddWords(s, Place(x, 8 * (n - 1)), 0, 0),
               t, n - 1)
  }

  /** The accumulators when the hash returns. */
  function Final(k: seq<Byte>, level: nat): Acc {
    var n := |k| / 24;
    var s := Blocks(k, level, n);
    Mix64(TailCase(AddWords(s, 0, 0, |k|), k[24 * n..], |k| % 24))
  }

  function Hash(k: seq<Byte>, level: nat): nat { Final(k, level).c }

  /** The hash as the source computes it: whole blocks in a loop over a moving pointer, then the
      length and the remaining bytes. */
  method Lookup8(k: seq<Byte>, level: nat) returns (h: nat)
    requires level < TWO64
    ensures h == Hash(k, level)
    ensures h < TWO64
  {
    hide *;
    var a: nat, b: nat, c: nat := level, level, GOLDEN;
    var p: nat, len: nat := 0, |k|;
    ghost var n: nat := 0;
    NoBlocks(k, level);
    while len >= 24
      invariant p + len == |k| && p == 24 * n
      invariant Acc(a, b, c) == Blocks(k, level, n)
    {
      BlocksStep(k, level, n);
      a := Add64(a, Load8(k, p));
      b := Add64(b, Load8(k, p + 8));
      c := Add64(c, Load8(k, p + 16));
      var m := Mix64(Acc(a, b, c));
      a, b, c := m.a, m.b, m.c;
      p, len, n := p + 24, len - 24, n + 1;
    }
    FinalIs(k, level, n);
    c := Add64(c, |k|);
    h := Mix64(TailCase(Acc(a, b, c), k[p..], len)).c;
  }

  lemma NoBlocks(k: seq<Byte>, level: nat)
    ensures Blocks(k, level, 0) == Acc(level, level, GOLDEN)
  {
  }

  lemma BlocksStep(k: seq<Byte>, level: nat, n: nat)
    requires 24 * n + 24 <= |k|
    ensures var s, i := Blocks(k, level, n), 24 * n;
      Blocks(k, level, n + 1)
      == Mix64(Acc(Add64(s.a, Load8(k, i)), Add64(s.b, Load8(k, i + 8)), Add64(s.c, Load8(k, i + 16))))
  {
    hide Mix64, Load8, Add64;
  }

  /** After n whole blocks, with fewer than 24 bytes left, only the length and the tail are
      missing. */
  lemma FinalIs(k: seq<Byte>, level: nat, n: nat)
    requires 24 * n <= |k| < 24 * n + 24 && level < TWO64
    ensures var s := Blocks(k, level, n);
      Hash(k, level) == Mix64(TailCase(Acc(s.a, s.b, Add64(s.c, |k|)), k[24 * n..], |k| - 24 * n)).c
    ensures Hash(k, level) < TWO64
  {
    hide Mix64, Blocks, TailCase;
    var s := Blocks(k, level, n);
    assert n == |k| / 24 && |k| - 24 * n == |k| % 24;
    BlocksAreWords(k, level, n);
    Add64Zero(s.a);
    Add64Zero(s.b);
    var t := AddWords(s, 0, 0, |k|);
    TailIsWords(t, k[24 * n..], |k| % 24);
    MixBijective(TailCase(t, k[24 * n..], |k| % 24));
  }

  lemma {:induction false} BlocksAreWords(k: seq<Byte>, level: nat, n: nat)
    requires 24 * n <= |k| && level < TWO64
    ensures IsAcc(Blocks(k, level, n))
  {
    hide Block;
    if n > 0 {
      BlockIsWords(Blocks(k, level, n - 1), k, 24 * (n - 1));
    }
  }

  lemma BlockIsWords(s: Acc, k: seq<Byte>, i: nat)
    requires i + 24 <= |k|
    ensures IsAcc(Block(s, k, i))
  {
    hide Mix64, Load8, Add64;
    MixBijective(AddWords(s, Load8(k, i), Load8(k, i + 8), Load8(k, i + 16)));
  }

  // ---- What the remaining bytes add up to ---------------------------------------------------

  function Part(t: seq<Byte>, n: nat, lo: nat, hi: nat): seq<Byte>
    requires n <= |t| && lo <= hi
  {
    t[Min(lo, n)..Min(hi, n)]
  }

  /** Adding one more byte on top of a word. */
  lemma WordGrows(acc: nat, w: seq<Byte>, x: Byte)
    ensures Add64(Add64(acc, Place(x, 8 * |w|)), LE(w)) == Add64(acc, LE(w + [x]))
  {
    LEAppend(w, x);
    hide Pow2, Add64, LE;
    Add64Add(acc, Place(x, 8 * |w|), LE(w));
  }

  /** What the switch adds to the accumulators for a tail of n bytes: three little-endian words,
      the low byte of the third kept free for the key length. */
  function AddTail(s: Acc, t: seq<Byte>, n: nat): Acc
    requires n <= |t|
  {
    AddWords(s, LE(Part(t, n, 0, 8)), LE(Part(t, n, 8, 16)), LE([0] + Part(t, n, 16, 24)))
  }

  lemma TailStepC(s: Acc, t: seq<Byte>, n: nat)
    requires 17 <= n <= |t| && n <= 23 && IsAcc(s)
    ensures AddTail(AddWords(s, 0, 0, Place(t[n - 1], 8 * (n - 16))), t, n - 1) == AddTail(s, t, n)
  {
    var w := [0] + Part(t, n - 1, 16, 24);
    assert [0] + Part(t, n, 16, 24) == w + [t[n - 1]];
    assert Part(t, n, 0, 8) == Part(t, n - 1, 0, 8) && Part(t, n, 8, 16) == Part(t, n - 1, 8, 16);
    Add64Zero(s.a);
    Add64Zero(s.b);
    Add64Zero(s.c);
    hide LE, Pow2, Part, Add64;
    WordGrows(s.c, w, t[n - 1]);
  }

  lemma TailStepB(s: Acc, t: seq<Byte>, n: nat)
    requires 9 <= n <= |t| && n <= 16 && IsAcc(s)
    ensures AddTail(AddWords(s, 0, Place(t[n - 1], 8 * (n - 9)), 0), t, n - 1) == AddTail(s, t, n)
  {
    var w := Part(t, n - 1, 8, 16);
    assert Part(t, n, 8, 16) == w + [t[n - 1]];
    assert Part(t, n, 0, 8) == Part(t, n - 1, 0, 8) && Part(t, n, 16, 24) == Part(t, n - 1, 16, 24);
    Add64Zero(s.a);
    Add64Zero(s.b);
    Add64Zero(s.c);
    hide LE, Pow2, Part, Add64;
    WordGrows(s.b, w, t[n - 1]);
  }

  lemma TailStepA(s: Acc, t: seq<Byte>, n: nat)
    requires 1 <= n <= |t| && n <= 8 && IsAcc(s)
    ensures AddTail(AddWords(s, Place(t[n - 1], 8 * (n - 1)), 0, 0), t, n - 1) == AddTail(s, t, n)
  {
    var w := Part(t, n - 1, 0, 8);
    assert Part(t, n, 0, 8) == w + [t[n - 1]];
    assert Part(t, n, 8, 16) == Part(t, n - 1, 8, 16) && Part(t, n, 16, 24) == Part(t, n - 1, 16, 24);
    Add64Zero(s.a);
    Add64Zero(s.b);
    Add64Zero(s.c);
    hide LE, Pow2, Part, Add64;
    WordGrows(s.a, w, t[n - 1]);
  }

  lemma {:induction false} TailIsWords(s: Acc, t: seq<Byte>, n: nat)
    requires n <= |t| && n <= 23 && IsAcc(s)
    ensures TailCase(s, t, n) == AddTail(s, t, n)
    ensures IsAcc(TailCase(s, t, n))
    decreases n
  {
    if n == 0 {
      assert Part(t, 0, 0, 8) == [] && Part(t, 0, 8, 16) == [] && Part(t, 0, 16, 24) == [];
      assert LE([0]) == 0 && [0] + [] == [0];
    } else {
      hide AddTail, Pow2, Add64, Place;
      var x := t[n - 1];
      if n >= 17 {
        TailStepC(s, t, n);
        TailIsWords(AddWords(s, 0, 0, Place(x, 8 * (n - 16))), t, n - 1);
      } else if n >= 9 {
        TailStepB(s, t, n);
        TailIsWords(AddWords(s, 0, Place(x, 8 * (n - 9)), 0), t, n - 1);
      } else {
        TailStepA(s, t, n);
        TailIsWords(AddWords(s, Place(x, 8 * (n - 1)), 0, 0), t, n - 1);
      }
    }
  }

  // ---- Keys that cannot collide in all three accumulators -----------------------------------

  lemma Add64Injective(x: nat, y: nat, y': nat)
    requires y < TWO64 && y' < TWO64
    ensures Add64(x, y) == Add64(x, y') ==> y == y'
    ensures Add64(y, x) == Add64(y', x) ==> y == y'
  {
    if Add64(x, y) == Add64(x, y') {
      AddInjective(x, y, y', TWO64);
    }
  }

  lemma AddWordsInjective(s: Acc, x: nat, y: nat, z: nat, x': nat, y': nat, z': nat)
    requires x < TWO64 && y < TWO64 && z < TWO64 && x' < TWO64 && y' < TWO64 && z' < TWO64
    requires AddWords(s, x, y, z) == AddWords(s, x', y', z')
    ensures x == x' && y == y' && z == z'
  {
    Add64Injective(s.a, x, x');
    Add64Injective(s.b, y, y');
    Add64Injective(s.c, z, z');
  }

  lemma AccInjective(s: Acc, s': Acc, x: nat, y: nat, z: nat)
    requires IsAcc(s) && IsAcc(s') && AddWords(s, x, y, z) == AddWords(s', x, y, z)
    ensures s == s'
  {
    Add64Injective(x, s.a, s'.a);
    Add64Injective(y, s.b, s'.b);
    Add64Injective(z, s.c, s'.c);
  }

  /** Words of at most eight bytes fit an accumulator. */
  lemma LEWord(w: seq<Byte>)
    requires |w| <= 8
    ensures LE(w) < TWO64
  {
    LEBound(w);
    Pow2Monotone(8 * |w|, 64);
    Pow2Constants();
  }

  /** The last word with the key length in its low byte. */
  function Third(t: seq<Byte>, n: Byte): seq<Byte>
    requires |t| <= 23
  {
    [n] + Part(t, |t|, 16, 24)
  }

  lemma LengthAndTail(s: Acc, t: seq<Byte>)
    requires |t| <= 23 && IsAcc(s)
    ensures AddTail(AddWords(s, 0, 0, |t|), t, |t|)
         == AddWords(s, LE(Part(t, |t|, 0, 8)), LE(Part(t, |t|, 8, 16)), LE(Third(t, |t|)))
  {
    var z := Part(t, |t|, 16, 24);
    assert ([0] + z)[1..] == z && ([|t|] + z)[1..] == z;
    Add64Zero(s.a);
    Add64Zero(s.b);
    Add64Add(s.c, |t|, LE([0] + z));
  }

  /** Equal words have equal bytes, so the three words and the length give back the tail. */
  lemma WordsGiveTail(s: Acc, t: seq<Byte>, n: Byte, t': seq<Byte>, n': Byte)
    requires |t| <= 23 && |t'| <= 23
    requires (|t| == n && |t'| == n') || |t| == |t'|
    requires AddWords(s, LE(Part(t, |t|, 0, 8)), LE(Part(t, |t|, 8, 16)), LE(Third(t, n)))
          == AddWords(s, LE(Part(t', |t'|, 0, 8)), LE(Part(t', |t'|, 8, 16)), LE(Third(t', n')))
    ensures t == t'
  {
    var x, y, z := Part(t, |t|, 0, 8), Part(t, |t|, 8, 16), Part(t, |t|, 16, 24);
    var x', y', z' := Part(t', |t'|, 0, 8), Part(t', |t'|, 8, 16), Part(t', |t'|, 16, 24);
    LEWord(x);
    LEWord(y);
    LEWord([n] + z);
    LEWord(x');
    LEWord(y');
    LEWord([n'] + z');
    AddWordsInjective(s, LE(x), LE(y), LE([n] + z), LE(x'), LE(y'), LE([n'] + z'));
    LowByte([n] + z, [n'] + z');
    LEInjective(x, x');
    LEInjective(y, y');
    LEInjective([n] + z, [n'] + z');
    assert z == ([n] + z)[1..] && z' == ([n'] + z')[1..];
    PartsMakeWhole(t);
    PartsMakeWhole(t');
  }

  lemma LowByte(w: seq<Byte>, w': seq<Byte>)
    requires w != [] && w' != [] && LE(w) == LE(w')
    ensures w[0] == w'[0]
  {
  }

  lemma PartsMakeWhole(t: seq<Byte>)
    requires |t| <= 23
    ensures t == Part(t, |t|, 0, 8) + Part(t, |t|, 8, 16) + Part(t, |t|, 16, 24)
  {
  }

  /** The tail of a key of at most 23 bytes together with its length determines the key. */
  lemma TailsDiffer(s: Acc, t: seq<Byte>, t': seq<Byte>)
    requires |t| <= 23 && |t'| <= 23 && t != t' && IsAcc(s)
    ensures AddTail(AddWords(s, 0, 0, |t|), t, |t|) != AddTail(AddWords(s, 0, 0, |t'|), t', |t'|)
  {
    hide LE, Part;
    LengthAndTail(s, t);
    LengthAndTail(s, t');
    if AddTail(AddWords(s, 0, 0, |t|), t, |t|) == AddTail(AddWords(s, 0, 0, |t'|), t', |t'|) {
      WordsGiveTail(s, t, |t|, t', |t'|);
    }
  }

  /** Two different keys of at most 23 bytes always leave lookup8 in different states. */
  lemma ShortKeysDiffer(k: seq<Byte>, k': seq<Byte>, level: nat)
    requires |k| <= 23 && |k'| <= 23 && k != k' && level < TWO64
    ensures Final(k, level) != Final(k', level)
  {
    hide Mix64, AddTail, LE, Add64;
    var s := Start(level);
    assert k[0..] == k && k'[0..] == k';
    TailIsWords(AddWords(s, 0, 0, |k|), k, |k|);
    TailIsWords(AddWords(s, 0, 0, |k'|), k', |k'|);
    TailsDiffer(s, k, k');
    if Final(k, level) == Final(k', level) {
      MixInjective(TailCase(AddWords(s, 0, 0, |k|), k, |k|), TailCase(AddWords(s, 0, 0, |k'|), k', |k'|));
    }
  }

  lemma BlockWords(k: seq<Byte>, i: nat)
    requires i + 24 <= |k|
    ensures Load8(k, i) < TWO64 && Load8(k, i + 8) < TWO64 && Load8(k, i + 16) < TWO64
    ensures k[i..i + 24] == k[i..i + 8] + k[i + 8..i + 16] + k[i + 16..i + 24]
  {
    Load8Word(k, i);
    Load8Word(k, i + 8);
    Load8Word(k, i + 16);
  }

  /** A block maps different states to different states, and different bytes to different states. */
  lemma BlockInjective(s: Acc, s': Acc, k: seq<Byte>, k': seq<Byte>, i: nat)
    requires IsAcc(s) && IsAcc(s') && i + 24 <= |k| && i + 24 <= |k'|
    requires (s == s') != (k[i..i + 24] == k'[i..i + 24])
    ensures Block(s, k, i) != Block(s', k', i)
  {
    var x, y, z := Load8(k, i), Load8(k, i + 8), Load8(k, i + 16);
    var x', y', z' := Load8(k', i), Load8(k', i + 8), Load8(k', i + 16);
    BlockWords(k, i);
    BlockWords(k', i);
    hide Mix64, Load8, LE, Add64;
    if Block(s, k, i) == Block(s', k', i) {
      MixInjective(AddWords(s, x, y, z), AddWords(s', x', y', z'));
      if s == s' {
        AddWordsInjective(s, x, y, z, x', y', z');
        Load8Decides(k, k', i);
        Load8Decides(k, k', i + 8);
        Load8Decides(k, k', i + 16);
      } else {
        SliceLoads(k, k', i);
        AccInjective(s, s', x, y, z);
      }
    }
  }

  lemma Load8Decides(k: seq<Byte>, k': seq<Byte>, i: nat)
    requires i + 8 <= |k| && i + 8 <= |k'| && Load8(k, i) == Load8(k', i)
    ensures k[i..i + 8] == k'[i..i + 8]
  {
    Load8IsLE(k, i);
    Load8IsLE(k', i);
    LEInjective(k[i..i + 8], k'[i..i + 8]);
  }

  lemma SliceAgrees(k: seq<Byte>, k': seq<Byte>, lo: nat, hi: nat)
    requires lo <= hi <= |k| && hi <= |k'| && k[lo..hi] == k'[lo..hi]
    ensures forall y :: lo <= y < hi ==> k[y] == k'[y]
  {
    forall y | lo <= y < hi ensures k[y] == k'[y] {
      assert k[y] == k[lo..hi][y - lo] && k'[y] == k'[lo..hi][y - lo];
    }
  }

  lemma SliceLoads(k: seq<Byte>, k': seq<Byte>, i: nat)
    requires i + 24 <= |k| && i + 24 <= |k'| && k[i..i + 24] == k'[i..i + 24]
    ensures Load8(k, i) == Load8(k', i) && Load8(k, i + 8) == Load8(k', i + 8) && Load8(k, i + 16) == Load8(k', i + 16)
  {
    SliceAgrees(k, k', i, i + 24);
  }

  /** All differences between two keys of equal length lie in the 24 bytes from 24 * j. */
  ghost predicate DifferOnlyIn(k: seq<Byte>, k': seq<Byte>, j: nat) {
    && |k| == |k'|
    && (forall i :: 0 <= i < |k| && !(24 * j <= i < 24 * j + 24) ==> k[i] == k'[i])
  }

  function Window(k: seq<Byte>, m: nat): seq<Byte>
    requires 24 * m + 24 <= |k|
  {
    k[24 * m..24 * m + 24]
  }

  lemma Windows(k: seq<Byte>, k': seq<Byte>, j: nat, m: nat)
    requires k != k' && DifferOnlyIn(k, k', j) && 24 * m + 24 <= |k|
    ensures (Window(k, m) == Window(k', m)) == (m != j)
  {
    if m == j && Window(k, m) == Window(k', m) {
      SliceAgrees(k, k', 24 * m, 24 * m + 24);
    }
  }

  /** Of the whole windows of two keys, exactly the j-th differs. */
  ghost predicate OneWindowDiffers(k: seq<Byte>, k': seq<Byte>, j: nat) {
    && |k| == |k'|
    && (forall m: nat {:trigger Window(k, m)} :: 24 * m + 24 <= |k| ==> (Window(k, m) == Window(k', m)) == (m != j))
  }

  ghost predicate SameAfter(k: seq<Byte>, k': seq<Byte>, level: nat, n: nat)
    requires 24 * n <= |k| == |k'|
  {
    Blocks(k, level, n) == Blocks(k', level, n)
  }

  lemma {:induction false} BlocksTrackDifference(k: seq<Byte>, k': seq<Byte>, level: nat, j: nat, n: nat)
    requires level < TWO64 && OneWindowDiffers(k, k', j) && 24 * n <= |k|
    ensures SameAfter(k, k', level, n) <==> n <= j
  {
    hide SameAfter;
    if n == 0 {
      NoBlocksYet(k, k', level);
    } else {
      BlocksTrackDifference(k, k', level, j, n - 1);
      assert Window(k, n - 1) == Window(k', n - 1) <==> n - 1 != j;
      BlockTracks(k, k', level, n - 1);
    }
  }

  lemma NoBlocksYet(k: seq<Byte>, k': seq<Byte>, level: nat)
    requires |k| == |k'|
    ensures SameAfter(k, k', level, 0)
  {
  }

  /** The next block keeps equal states equal on equal bytes, and different states different. */
  lemma BlockTracks(k: seq<Byte>, k': seq<Byte>, level: nat, m: nat)
    requires level < TWO64 && 24 * m + 24 <= |k| == |k'|
    requires SameAfter(k, k', level, m) || Window(k, m) == Window(k', m)
    ensures SameAfter(k, k', level, m + 1) <==> SameAfter(k, k', level, m) && Window(k, m) == Window(k', m)
  {
    hide Mix64, Load8, AddWords;
    var s, s' := Blocks(k, level, m), Blocks(k', level, m);
    if s == s' && Window(k, m) == Window(k', m) {
      SliceLoads(k, k', 24 * m);
    } else {
      BlocksAreWords(k, level, m);
      BlocksAreWords(k', level, m);
      BlockInjective(s, s', k, k', 24 * m);
    }
  }

  /** Two different keys of the same length whose differences are confined to one 24-byte block,
      or to the bytes after the last whole block, always leave lookup8 in different states. */
  lemma LocalChangeDiffers(k: seq<Byte>, k': seq<Byte>, level: nat, j: nat)
    requires level < TWO64 && k != k' && DifferOnlyIn(k, k', j)
    ensures Final(k, level) != Final(k', level)
  {
    hide Mix64, Load8, AddTail, TailCase, Add64;
    var n := |k| / 24;
    var s, s' := Blocks(k, level, n), Blocks(k', level, n);
    var t, t' := k[24 * n..], k'[24 * n..];
    forall m: nat | 24 * m + 24 <= |k|
      ensures (Window(k, m) == Window(k', m)) == (m != j)
    {
      Windows(k, k', j, m);
    }
    BlocksTrackDifference(k, k', level, j, n);
    BlocksAreWords(k, level, n);
    BlocksAreWords(k', level, n);
    var u, u' := AddWords(s, 0, 0, |k|), AddWords(s', 0, 0, |k|);
    TailIsWords(u, t, |t|);
    TailIsWords(u', t', |t'|);
    if Final(k, level) == Final(k', level) {
      MixInjective(TailCase(u, t, |t|), TailCase(u', t', |t'|));
      if n <= j {
        assert k[..24 * n] == k'[..24 * n];
        assert t != t' by { assert k == k[..24 * n] + t && k' == k'[..24 * n] + t'; }
        SameLengthTails(u, t, t');
      } else {
        assert t == t';
        AddTailInjective(u, u', t);
        AccInjective(s, s', 0, 0, |k|);
      }
    }
  }

  lemma SameLengthTails(u: Acc, t: seq<Byte>, t': seq<Byte>)
    requires |t| == |t'| <= 23 && t != t'
    ensures AddTail(u, t, |t|) != AddTail(u, t', |t'|)
  {
    if AddTail(u, t, |t|) == AddTail(u, t', |t'|) {
      WordsGiveTail(u, t, 0, t', 0);
    }
  }

  lemma AddTailInjective(u: Acc, u': Acc, t: seq<Byte>)
    requires IsAcc(u) && IsAcc(u') && |t| <= 23 && AddTail(u, t, |t|) == AddTail(u', t, |t|)
    ensures u == u'
  {
    AccInjective(u, u', LE(Part(t, |t|, 0, 8)), LE(Part(t, |t|, 8, 16)), LE([0] + Part(t, |t|, 16, 24)));
  }
}
