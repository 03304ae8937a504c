/** From strings to a perfect hash: hash each string to a pair (a,b), retry with other salts and
    larger tables until the pairs are distinct and the mapping succeeds, then read off the table. */
module PerfectTables {
  import opened Words
  import opened PerfectHash
  import opened PerfectSearch
  import opened Mappings
  import Lookup8
  import Permute

  const RETRY_INITKEY: nat := 2048
  const RETRY_PERFECT: nat := 4

  /** `len_k` is a 32-bit field, so only this much of a string is hashed by the builder. */
  function Truncated(name: seq<Byte>): seq<Byte> {
    TruncatedLength(|name|);
    name[..|name| % TWO32]
  }

  lemma TruncatedLength(n: nat)
    ensures 0 <= n % TWO32 <= n
  {
  }

  /** a: the top bits of the hash. */
  function AOf(hash: nat, alen: nat): nat {
    var loga := Permute.Log2u(alen);
    if 0 < loga <= 64 then Shr(hash, 64 - loga) else 0
  }

  /** b: the low bits of the hash, blen being a power of two. */
  function BOf(hash: nat, blen: nat): nat {
    if blen > 1 then hash % blen else 0
  }

  function HashedKey(k: Key, alen: nat, blen: nat, salt: nat): Key {
    var hash := Lookup8.Hash(Truncated(k.name), salt);
    k.(a := AOf(hash, alen), b := BOf(hash, blen))
  }

  /** The keys carry the pairs of this alen, blen and salt. */
  ghost predicate Hashed(ks: seq<Key>, alen: nat, blen: nat, salt: nat) {
    forall x :: 0 <= x < |ks| ==> ks[x] == HashedKey(ks[x], alen, blen, salt)
  }

  ghost predicate SameNames(ks: seq<Key>, ks': seq<Key>) {
    |ks| == |ks'| && (forall x :: 0 <= x < |ks| ==> ks[x].name == ks'[x].name)
  }

  method InitNorm(keys: array<Key>, alen: nat, blen: nat, salt: nat)
    requires 1 <= alen <= 0x8000_0000 && blen >= 1 && salt < TWO64
    modifies keys
    ensures SameNames(old(keys[..]), keys[..]) && Hashed(keys[..], alen, blen, salt)
  {
    hide Lookup8.Hash, Permute.Log2u, Truncated;
    var loga := Permute.ComputeLog2u(alen);
    for i := 0 to keys.Length
      invariant SameNames(old(keys[..]), keys[..])
      invariant forall x :: 0 <= x < i ==> keys[x] == HashedKey(keys[x], alen, blen, salt)
    {
      var hash := Lookup8.Lookup8(Truncated(keys[i].name), salt);
      var a := if loga > 0 then Shr(hash, 64 - loga) else 0;
      var b := if blen > 1 then hash % blen else 0;
      keys[i] := keys[i].(a := a, b := b);
    }
  }

  /** Two keys hash to the same (a,b). */
  ghost predicate SamePair(h: Key, k: Key, alen: nat, blen: nat, salt: nat) {
    && HashedKey(h, alen, blen, salt).a == HashedKey(k, alen, blen, salt).a
    && HashedKey(h, alen, blen, salt).b == HashedKey(k, alen, blen, salt).b
  }

  ghost predicate PairsDiffer(ks: seq<Key>, alen: nat, blen: nat, salt: nat) {
    forall i, j :: 0 <= i < j < |ks| ==> !SamePair(ks[i], ks[j], alen, blen, salt)
  }

  lemma PairsDifferDistinct(ks: seq<Key>, alen: nat, blen: nat, salt: nat)
    requires Hashed(ks, alen, blen, salt)
    ensures DistinctPairs(ks, |ks|) <==> PairsDiffer(ks, alen, blen, salt)
  {
    hide HashedKey;
    assert forall i, j :: 0 <= i < j < |ks| ==>
      (SamePair(ks[i], ks[j], alen, blen, salt) <==> ks[i].a == ks[j].a && ks[i].b == ks[j].b);
  }

  lemma PairsOfNames(ks: seq<Key>, ks': seq<Key>, alen: nat, blen: nat, salt: nat)
    requires SameNames(ks, ks')
    ensures PairsDiffer(ks, alen, blen, salt) <==> PairsDiffer(ks', alen, blen, salt)
  {
    hide AOf, BOf, Truncated, Lookup8.Hash;
    assert forall i, j :: 0 <= i < j < |ks| ==>
      SamePair(ks[i], ks[j], alen, blen, salt) == SamePair(ks'[i], ks'[j], alen, blen, salt);
  }

  /** Doubling blen keeps distinct pairs distinct, so the retry with the same salt passes. */
  lemma DoublingKeepsDistinct(ks: seq<Key>, alen: nat, blen: nat, salt: nat)
    requires blen >= 1 && PairsDiffer(ks, alen, blen, salt)
    ensures PairsDiffer(ks, alen, 2 * blen, salt)
  {
    hide SamePair;
    forall i, j | 0 <= i < j < |ks| ensures !SamePair(ks[i], ks[j], alen, 2 * blen, salt) {
      HalvingKeepsSame(ks[i], ks[j], alen, blen, salt);
    }
  }

  lemma HalvingKeepsSame(h: Key, k: Key, alen: nat, blen: nat, salt: nat)
    requires blen >= 1
    ensures SamePair(h, k, alen, 2 * blen, salt) ==> SamePair(h, k, alen, blen, salt)
  {
    hide AOf, BOf, Truncated, Lookup8.Hash;
    var x, y := Lookup8.Hash(Truncated(h.name), salt), Lookup8.Hash(Truncated(k.name), salt);
    if BOf(x, 2 * blen) == BOf(y, 2 * blen) {
      LowerB(x, y, blen);
    }
  }

  lemma LowerB(h: nat, k: nat, blen: nat)
    requires blen >= 1 && BOf(h, 2 * blen) == BOf(k, 2 * blen)
    ensures BOf(h, blen) == BOf(k, blen)
  {
    ModMod(h, blen, 2);
    ModMod(k, blen, 2);
  }

  // ---- The pairs fit the tables -------------------------------------------------------------

  lemma PairBounds(k: Key, alen: nat, blen: nat, salt: nat, n: nat)
    requires alen == Pow2(n) && n <= 31 && blen >= 1 && salt < TWO64
    ensures HashedKey(k, alen, blen, salt).a < alen && HashedKey(k, alen, blen, salt).b < blen
  {
    hide Lookup8.Hash, AOf, BOf, Pow2;
    var hash := Lookup8.Hash(Truncated(k.name), salt);
    HashIsWord(Truncated(k.name), salt);
    ABelow(hash, n);
    BBelow(hash, blen);
  }

  lemma ABelow(hash: nat, n: nat)
    requires hash < TWO64 && n <= 31
    ensures AOf(hash, Pow2(n)) < Pow2(n)
  {
    hide Permute.Log2u, Pow2, Shr;
    Permute.Log2uOfPow2(n);
    if n > 0 {
      TopBits(hash, n);
    }
  }

  lemma BBelow(hash: nat, blen: nat)
    requires blen >= 1
    ensures BOf(hash, blen) < blen
  {
  }

  lemma HashIsWord(k: seq<Byte>, salt: nat)
    requires salt < TWO64
    ensures Lookup8.Hash(k, salt) < TWO64
  {
    Lookup8.FinalIs(k, salt, |k| / 24);
  }

  lemma TopBits(hash: nat, n: nat)
    requires hash < TWO64 && n <= 64
    ensures Shr(hash, 64 - n) < Pow2(n)
  {
    Pow2Add(n, 64 - n);
    Pow2Constants();
    hide Pow2;
    DivBelow(hash, Pow2(n), Pow2(64 - n));
  }

  // ---- What one try depends on: the strings, alen, blen, the salt and the scramble table ------

  function NamesOf(ks: seq<Key>): (names: seq<seq<Byte>>)
    ensures |names| == |ks| && forall x :: 0 <= x < |ks| ==> names[x] == ks[x].name
  {
    seq(|ks|, x requires 0 <= x < |ks| => ks[x].name)
  }

  /** The strings as hashed keys, in no lists. */
  function KeysOf(names: seq<seq<Byte>>, alen: nat, blen: nat, salt: nat): (ks: seq<Key>)
    ensures |ks| == |names|
  {
    seq(|names|, x requires 0 <= x < |names| => HashedKey(Key(names[x], 0, 0, NULL), alen, blen, salt))
  }

  /** The strings have different pairs. */
  ghost predicate Separates(names: seq<seq<Byte>>, alen: nat, blen: nat, salt: nat) {
    DistinctPairs(KeysOf(names, alen, blen, salt), |names|)
  }

  /** A try can succeed: the pairs differ and the groups have a mapping. */
  ghost predicate Works(names: seq<seq<Byte>>, smax: nat, alen: nat, blen: nat, salt: nat) {
    && Separates(names, alen, blen, salt)
    && Mappable(KeysOf(names, alen, blen, salt), Permute.Scramble(smax), blen)
  }

  lemma HashedKeys(ks: seq<Key>, alen: nat, blen: nat, salt: nat)
    requires Hashed(ks, alen, blen, salt)
    ensures SamePairs(ks, KeysOf(NamesOf(ks), alen, blen, salt))
    ensures SamePairs(KeysOf(NamesOf(ks), alen, blen, salt), ks)
    ensures Separates(NamesOf(ks), alen, blen, salt) <==> DistinctPairs(ks, |ks|)
  {
    hide AOf, BOf, Truncated, Lookup8.Hash;
    var hs := KeysOf(NamesOf(ks), alen, blen, salt);
    forall x | 0 <= x < |ks| ensures hs[x].name == ks[x].name && hs[x].a == ks[x].a && hs[x].b == ks[x].b {
      assert ks[x] == HashedKey(ks[x], alen, blen, salt);
    }
    hide HashedKey, Hashed, KeysOf;
    DistinctSame(ks, hs, |ks|);
  }

  lemma SeparatesIsPairsDiffer(ks: seq<Key>, alen: nat, blen: nat, salt: nat)
    ensures Separates(NamesOf(ks), alen, blen, salt) <==> PairsDiffer(ks, alen, blen, salt)
  {
    var hs := KeysOf(NamesOf(ks), alen, blen, salt);
    forall x | 0 <= x < |ks| ensures hs[x].name == ks[x].name && hs[x] == HashedKey(hs[x], alen, blen, salt) {
    }
    hide KeysOf, HashedKey, PairsDiffer, DistinctPairs;
    PairsDifferDistinct(hs, alen, blen, salt);
    PairsOfNames(hs, ks, alen, blen, salt);
  }

  /** perfect's failure and success, in these terms. */
  lemma Unworkable(ks: seq<Key>, tb: seq<BStuff>, smax: nat, alen: nat, blen: nat, salt: nat)
    requires Hashed(ks, alen, blen, salt) && |tb| == blen
    requires WellFormed(Problem(ks, Permute.Scramble(smax), smax))
    requires Lists(Problem(ks, Permute.Scramble(smax), smax), tb)
    requires Stuck(Problem(ks, Permute.Scramble(smax), smax), tb)
    ensures !Works(NamesOf(ks), smax, alen, blen, salt)
  {
    hide Hashed, Mappable, Lists, Stuck, KeysOf, Separates, Permute.Scramble;
    var scramble, hs := Permute.Scramble(smax), KeysOf(NamesOf(ks), alen, blen, salt);
    StuckUnmappable(Problem(ks, scramble, smax), tb);
    HashedKeys(ks, alen, blen, salt);
    if Mappable(hs, scramble, blen) {
      MappableOfPairs(hs, ks, scramble, blen);
    }
  }

  lemma Worked(ks: seq<Key>, tb: seq<BStuff>, smax: nat, alen: nat, blen: nat, salt: nat)
    requires Hashed(ks, alen, blen, salt) && |tb| == blen
    requires WellFormed(Problem(ks, Permute.Scramble(smax), smax))
    requires Lists(Problem(ks, Permute.Scramble(smax), smax), tb)
    requires AllFit(Problem(ks, Permute.Scramble(smax), smax), tb)
    ensures Works(NamesOf(ks), smax, alen, blen, salt)
  {
    hide Hashed, Mappable, Lists, AllFit, KeysOf, Permute.Scramble;
    var scramble := Permute.Scramble(smax);
    AllFitMappable(Problem(ks, scramble, smax), tb);
    HashedKeys(ks, alen, blen, salt);
    MappableOfPairs(ks, KeysOf(NamesOf(ks), alen, blen, salt), scramble, blen);
  }

  /** With one group there is nothing to collide with: different pairs are all it takes. */
  lemma OneGroupWorks(names: seq<seq<Byte>>, smax: nat, alen: nat, salt: nat)
    ensures Works(names, smax, alen, 1, salt) <==> Separates(names, alen, 1, salt)
  {
    hide AOf, Truncated, Lookup8.Hash, Permute.Scramble, Separates;
    var ks, vals := KeysOf(names, alen, 1, salt), [0];
    assert forall x :: 0 <= x < |ks| ==> ks[x].b == 0;
    hide HashedKey, KeysOf;
    assert forall c :: 0 <= c < |ks| ==> !Before(ks, ks[c].b, 0);
    assert FirstFits(ks, Permute.Scramble(smax), vals);
  }

  // ---- findhash -----------------------------------------------------------------------------

  function SaltOf(si: nat): (s: nat)
    ensures s < TWO64
  {
    (si * Lookup8.GOLDEN) % TWO64
  }

  /** The multiplier is odd, so different si give different salts. */
  const GOLDEN_INVERSE: nat := 0x3fbd_78d0_fbf0_ae1b

  lemma SaltsDiffer(si: nat)
    requires si < TWO64
    ensures (SaltOf(si) * GOLDEN_INVERSE) % TWO64 == si
  {
    var q, c := (si * Lookup8.GOLDEN) / TWO64, (Lookup8.GOLDEN * GOLDEN_INVERSE) / TWO64;
    assert Lookup8.GOLDEN * GOLDEN_INVERSE == c * TWO64 + 1;
    ModUnique(SaltOf(si) * GOLDEN_INVERSE, TWO64, si * c - q * GOLDEN_INVERSE, si);
  }

  /** Found, no perfect hash at this size, or the allowance of tries is used up. */
  datatype Outcome = Found | NotFound | Unfinished

  /** initalen's first guess at blen, by how full the table is to be. */
  function InitialBlen(nkeys: nat, smax: nat): nat {
    var guess := if 5 * nkeys <= 3 * smax then smax / 16 else if 5 * nkeys <= 4 * smax then smax / 8 else smax / 4;
    if guess < 1 then 1 else guess
  }

  lemma InitialBlenFits(nkeys: nat, n: nat)
    ensures IsPow2(InitialBlen(nkeys, Pow2(n))) && 1 <= InitialBlen(nkeys, Pow2(n)) <= Pow2(n)
    ensures 5 * nkeys <= 3 * Pow2(n) && n >= 4 ==> 16 * InitialBlen(nkeys, Pow2(n)) == Pow2(n)
    ensures 3 * Pow2(n) < 5 * nkeys <= 4 * Pow2(n) && n >= 3 ==> 8 * InitialBlen(nkeys, Pow2(n)) == Pow2(n)
    ensures 4 * Pow2(n) < 5 * nkeys && n >= 2 ==> 4 * InitialBlen(nkeys, Pow2(n)) == Pow2(n)
  {
    if n >= 2 {
      Pow2Add(n - 2, 2);
    }
    if n >= 3 {
      Pow2Add(n - 3, 3);
    }
    if n >= 4 {
      Pow2Add(n - 4, 4);
    }
    PowerQuotient(n, 2);
    PowerQuotient(n, 3);
    PowerQuotient(n, 4);
    assert Pow2(2) == 4 && Pow2(3) == 8 && Pow2(4) == 16;
    assert IsPow2(1) by { assert Pow2(0) == 1; }
  }

  lemma PowerQuotient(n: nat, d: nat)
    ensures n >= d ==> Pow2(n) / Pow2(d) == Pow2(n - d)
    ensures n < d ==> Pow2(n) / Pow2(d) == 0
  {
    if n >= d {
      Pow2Add(n - d, d);
      ModUnique(Pow2(n), Pow2(d), Pow2(n - d), 0);
    } else {
      Pow2Monotone(n, d);
      ModUnique(Pow2(n), Pow2(d), 0, Pow2(n));
    }
  }

  lemma DoubleFits(blen: nat, n: nat)
    requires IsPow2(blen) && blen < Pow2(n)
    ensures IsPow2(2 * blen) && 2 * blen <= Pow2(n)
    ensures blen >= 1
  {
    var m: nat :| blen == Pow2(m);
    Pow2Strict(m, n);
    Pow2Monotone(m, n);
    assert 2 * blen == Pow2(m + 1);
  }

  /** Table sizes as findhash keeps them. */
  ghost predicate Sizes(alen: nat, blen: nat, smax: nat) {
    && IsPow2(alen) && alen <= smax && (smax >= 2 ==> alen >= 2)
    && IsPow2(blen) && 1 <= blen <= smax
  }

  /** A finished search: distinct pairs, and every group at its first fit. */
  ghost predicate Solution(ks: seq<Key>, tb: seq<BStuff>, scramble: seq<nat>, smax: nat, alen: nat, blen: nat,
                           salt: nat)
  {
    var p := Problem(ks, scramble, smax);
    && Sizes(alen, blen, smax)
    && |tb| == blen && salt < TWO64
    && Hashed(ks, alen, blen, salt)
    && WellFormed(p) && Lists(p, tb) && AllFit(p, tb)
  }

  /** initnorm and inittab for one salt. */
  method HashAndList(tabb: array<BStuff>, keys: array<Key>, alen: nat, salt: nat, ghost smax: nat, ghost n: nat,
                     ghost scramble: seq<nat>) returns (ok: bool)
    requires smax == Pow2(n) && n <= 31 && Sizes(alen, tabb.Length, smax) && salt < TWO64
    requires scramble == Permute.Scramble(smax)
    modifies tabb, keys
    ensures SameNames(old(keys[..]), keys[..])
    ensures Hashed(keys[..], alen, tabb.Length, salt)
    ensures ok <==> PairsDiffer(old(keys[..]), alen, tabb.Length, salt)
    ensures ok ==> WellFormed(Problem(keys[..], scramble, smax))
    ensures ok ==> Lists(Problem(keys[..], scramble, smax), tabb[..]) && Unmapped(tabb[..])
  {
    hide *;
    ghost var ks0 := keys[..];
    SizeFacts(alen, tabb.Length, n);
    InitNorm(keys, alen, tabb.Length, salt);
    ghost var ks1 := keys[..];
    KeysFit(ks1, alen, tabb.Length, salt, n);
    ok := InitTab(tabb, keys, false);
    Relist(ks0, ks1, keys[..], alen, tabb.Length, salt);
    if ok {
      Ready(keys[..], tabb[..], scramble, alen, salt, n);
    }
  }

  lemma SizeFacts(alen: nat, blen: nat, n: nat)
    requires n <= 31 && Sizes(alen, blen, Pow2(n))
    ensures 1 <= alen <= 0x8000_0000 && blen >= 1
  {
    Pow2Monotone(n, 31);
    Pow2Constants();
  }

  lemma KeysFit(ks: seq<Key>, alen: nat, blen: nat, salt: nat, n: nat)
    requires n <= 31 && Sizes(alen, blen, Pow2(n)) && salt < TWO64 && Hashed(ks, alen, blen, salt)
    ensures forall x :: 0 <= x < |ks| ==> ks[x].a < Pow2(n) && ks[x].b < blen
  {
    hide HashedKey;
    var m: nat :| alen == Pow2(m);
    if m > 31 {
      Pow2Monotone(32, m);
      Pow2Monotone(n, 31);
    }
    forall x | 0 <= x < |ks| ensures ks[x].a < Pow2(n) && ks[x].b < blen {
      PairBounds(ks[x], alen, blen, salt, m);
    }
  }

  /** Linking the keys changes neither their names nor their pairs. */
  lemma Relist(ks0: seq<Key>, ks1: seq<Key>, ks2: seq<Key>, alen: nat, blen: nat, salt: nat)
    requires blen >= 1 && SameNames(ks0, ks1) && Hashed(ks1, alen, blen, salt) && SamePairs(ks1, ks2)
    ensures SameNames(ks0, ks2) && Hashed(ks2, alen, blen, salt)
    ensures DistinctPairs(ks2, |ks2|) <==> PairsDiffer(ks0, alen, blen, salt)
  {
    hide AOf, BOf, Truncated, Lookup8.Hash;
    assert forall x :: 0 <= x < |ks1| ==> ks2[x].name == ks1[x].name == ks0[x].name;
    assert Hashed(ks2, alen, blen, salt) by {
      assert forall x :: 0 <= x < |ks1| ==>
        ks2[x].a == ks1[x].a && ks2[x].b == ks1[x].b && ks1[x] == HashedKey(ks1[x], alen, blen, salt);
    }
    hide HashedKey, PairsDiffer, DistinctPairs;
    PairsDifferDistinct(ks2, alen, blen, salt);
    PairsOfNames(ks0, ks2, alen, blen, salt);
  }

  lemma Ready(ks: seq<Key>, tb: seq<BStuff>, scramble: seq<nat>, alen: nat, salt: nat, n: nat)
    requires n <= 31 && Sizes(alen, |tb|, Pow2(n)) && salt < TWO64 && Hashed(ks, alen, |tb|, salt)
    requires DistinctPairs(ks, |ks|) && Listed(ks, tb, |ks|) && Unmapped(tb) && scramble == Permute.Scramble(Pow2(n))
    ensures WellFormed(Problem(ks, scramble, Pow2(n))) && Lists(Problem(ks, scramble, Pow2(n)), tb)
  {
    hide Hashed, Permute.Scramble;
    KeysFit(ks, alen, |tb|, salt, n);
    Permute.ScrambleSpreads(n);
  }

  // ---- The schedule of tries ----------------------------------------------------------------

  /** One turn of findhash's loop. */
  datatype Try = Try(alen: nat, blen: nat, si: nat)

  ghost predicate TrySeparates(names: seq<seq<Byte>>, t: Try) {
    Separates(names, t.alen, t.blen, SaltOf(t.si))
  }

  ghost predicate TryWorks(names: seq<seq<Byte>>, smax: nat, t: Try) {
    Works(names, smax, t.alen, t.blen, SaltOf(t.si))
  }

  function Last(trail: seq<Try>): Try
    requires trail != []
  {
    trail[|trail| - 1]
  }

  function ButLast(trail: seq<Try>): seq<Try>
    requires trail != []
  {
    trail[..|trail| - 1]
  }

  /** The tries whose pairs were not all different. */
  ghost function Unseparated(names: seq<seq<Byte>>, trail: seq<Try>): nat {
    if trail == [] then 0
    else Unseparated(names, ButLast(trail)) + if TrySeparates(names, Last(trail)) then 0 else 1
  }

  /** How often RETRY_INITKEY such tries have come together. */
  ghost function Round(names: seq<seq<Byte>>, trail: seq<Try>): nat {
    Unseparated(names, trail) / RETRY_INITKEY
  }

  /** The tries of a round, at this blen, whose pairs were all different. */
  ghost function Separated(names: seq<seq<Byte>>, trail: seq<Try>, blen: nat, round: nat): nat {
    if trail == [] then 0
    else Separated(names, ButLast(trail), blen, round)
         + if TrySeparates(names, Last(trail)) && Last(trail).blen == blen && Round(names, trail) == round then 1 else 0
  }

  /** RETRY_PERFECT salts separated the keys at this blen, the last try being one of them. */
  ghost predicate Exhausted(names: seq<seq<Byte>>, trail: seq<Try>)
    requires trail != []
  {
    && TrySeparates(names, Last(trail))
    && Separated(names, trail, Last(trail).blen, Round(names, trail)) >= RETRY_PERFECT
  }

  /** RETRY_INITKEY more salts failed to separate the keys, the last try being one of them. */
  ghost predicate RoundOver(names: seq<seq<Byte>>, trail: seq<Try>)
    requires trail != []
  {
    !TrySeparates(names, Last(trail)) && Unseparated(names, trail) % RETRY_INITKEY == 0
  }

  /** The try that follows those of trail: the next salt, or the same with blen doubled when it is
      known to separate the keys. */
  ghost predicate Follows(names: seq<seq<Byte>>, smax: nat, trail: seq<Try>, next: Try)
    requires trail != []
  {
    var t := Last(trail);
    if Exhausted(names, trail) then
      t.blen < smax && next == Try(t.alen, 2 * t.blen, t.si)
    else
      && next.si == (t.si + 1) % TWO32
      && next.alen == (if RoundOver(names, trail) && t.alen < smax then 2 * t.alen else t.alen)
      && next.blen == (if RoundOver(names, trail) && t.alen >= smax && t.blen < smax then 2 * t.blen else t.blen)
  }

  /** The tries findhash makes, as long as none works. */
  ghost predicate Schedule(names: seq<seq<Byte>>, smax: nat, trail: seq<Try>) {
    && (trail != [] ==> trail[0] == Try(smax, InitialBlen(|names|, smax), 1))
    && (forall k :: 1 <= k < |trail| ==> Follows(names, smax, trail[..k], trail[k]))
  }

  ghost predicate NoneWorks(names: seq<seq<Byte>>, smax: nat, trail: seq<Try>) {
    forall k :: 0 <= k < |trail| ==> !TryWorks(names, smax, trail[k])
  }

  /** findhash returns 0 after these tries. */
  ghost predicate GivenUp(names: seq<seq<Byte>>, smax: nat, trail: seq<Try>) {
    trail != [] && Exhausted(names, trail) && Last(trail).blen >= smax
  }

  /** These tries fail, and there is no other: the search is given up or the allowance used. */
  ghost predicate Fruitless(names: seq<seq<Byte>>, smax: nat, tries: nat, trail: seq<Try>) {
    && Schedule(names, smax, trail) && NoneWorks(names, smax, trail)
    && |trail| <= tries && (|trail| == tries || GivenUp(names, smax, trail))
  }

  /** The last of these tries is the first that works. */
  ghost predicate Fruitful(names: seq<seq<Byte>>, smax: nat, tries: nat, trail: seq<Try>) {
    && Schedule(names, smax, trail) && 1 <= |trail| <= tries
    && NoneWorks(names, smax, ButLast(trail)) && TryWorks(names, smax, Last(trail))
  }

  ghost predicate NoHash(names: seq<seq<Byte>>, smax: nat, tries: nat) {
    exists trail :: Fruitless(names, smax, tries, trail)
  }

  /** The schedule leaves no choice. */
  lemma {:induction false} ScheduleDetermined(names: seq<seq<Byte>>, smax: nat, t1: seq<Try>, t2: seq<Try>, n: nat)
    requires Schedule(names, smax, t1) && Schedule(names, smax, t2) && n <= |t1| && n <= |t2|
    ensures t1[..n] == t2[..n]
  {
    hide Follows;
    if n > 0 {
      ScheduleDetermined(names, smax, t1, t2, n - 1);
      assert t1[..n] == t1[..n - 1] + [t1[n - 1]] && t2[..n] == t2[..n - 1] + [t2[n - 1]];
      if n > 1 {
        OneFollows(names, smax, t1[..n - 1], t1[n - 1], t2[n - 1]);
      }
    }
  }

  lemma OneFollows(names: seq<seq<Byte>>, smax: nat, trail: seq<Try>, next: Try, next2: Try)
    requires trail != [] && Follows(names, smax, trail, next) && Follows(names, smax, trail, next2)
    ensures next == next2
  {
    hide Exhausted, RoundOver;
  }

  /** alen stays at smax, so the branch that doubles it is never taken. */
  lemma {:induction false} AlenStays(names: seq<seq<Byte>>, smax: nat, trail: seq<Try>, k: nat)
    requires Schedule(names, smax, trail) && k < |trail|
    ensures trail[k].alen == smax
  {
    if k > 0 {
      AlenStays(names, smax, trail, k - 1);
      assert Follows(names, smax, trail[..k], trail[k]) && Last(trail[..k]) == trail[k - 1];
    }
  }

  /** A search does not both succeed and fail. */
  lemma FruitfulOrNot(names: seq<seq<Byte>>, smax: nat, tries: nat, trail: seq<Try>)
    requires Fruitful(names, smax, tries, trail)
    ensures !NoHash(names, smax, tries)
  {
    hide Fruitful, Fruitless;
    if NoHash(names, smax, tries) {
      var other :| Fruitless(names, smax, tries, other);
      Different(names, smax, tries, trail, other);
    }
  }

  lemma Different(names: seq<seq<Byte>>, smax: nat, tries: nat, trail: seq<Try>, other: seq<Try>)
    requires Fruitful(names, smax, tries, trail)
    ensures !Fruitless(names, smax, tries, other)
  {
    hide Follows, TryWorks, Exhausted;
    if Schedule(names, smax, other) {
      var n := Min(|trail|, |other|);
      ScheduleDetermined(names, smax, trail, other, n);
      if |trail| <= |other| {
        assert trail[..n][n - 1] == other[..n][n - 1] && TryWorks(names, smax, other[n - 1]);
      } else {
        NothingFollows(names, smax, trail, n);
        assert trail[..n] == other;
      }
    }
  }

  lemma NothingFollows(names: seq<seq<Byte>>, smax: nat, trail: seq<Try>, n: nat)
    requires Schedule(names, smax, trail) && n < |trail|
    ensures !GivenUp(names, smax, trail[..n])
  {
    hide Exhausted;
    if n > 0 {
      assert Follows(names, smax, trail[..n], trail[n]);
    }
  }

  /** With blen doubled, the salt that separated the keys still does: the retry gets to perfect. */
  lemma RetrySeparates(names: seq<seq<Byte>>, smax: nat, trail: seq<Try>, next: Try)
    requires trail != [] && Last(trail).blen >= 1
    requires Exhausted(names, trail) && Follows(names, smax, trail, next)
    ensures TrySeparates(names, next)
  {
    var t := Last(trail);
    var ks := seq(|names|, x requires 0 <= x < |names| => Key(names[x], 0, 0, NULL));
    assert NamesOf(ks) == names;
    hide PairsDiffer, Separates;
    SeparatesIsPairsDiffer(ks, t.alen, t.blen, SaltOf(t.si));
    SeparatesIsPairsDiffer(ks, t.alen, 2 * t.blen, SaltOf(t.si));
    DoublingKeepsDistinct(ks, t.alen, t.blen, SaltOf(t.si));
  }

  // ---- The counters of findhash are those of the schedule -----------------------------------

  /** Before try t. */
  ghost predicate Searching(names: seq<seq<Byte>>, smax: nat, trail: seq<Try>, t: Try,
                            badInitkey: nat, badPerfect: nat)
  {
    && Schedule(names, smax, trail + [t]) && NoneWorks(names, smax, trail)
    && (forall k :: 0 <= k < |trail| ==> trail[k].blen <= t.blen)
    && badInitkey == Unseparated(names, trail) % RETRY_INITKEY
    && badPerfect == Separated(names, trail, t.blen, Round(names, trail)) < RETRY_PERFECT
  }

  lemma SearchStart(names: seq<seq<Byte>>, smax: nat, blen: nat)
    requires blen == InitialBlen(|names|, smax)
    ensures Searching(names, smax, [], Try(smax, blen, 1), 0, 0)
  {
  }

  lemma Extend(names: seq<seq<Byte>>, smax: nat, trail: seq<Try>, t: Try, next: Try)
    requires Schedule(names, smax, trail + [t]) && Follows(names, smax, trail + [t], next)
    ensures Schedule(names, smax, trail + [t] + [next])
  {
    hide Follows;
    var all := trail + [t] + [next];
    forall k | 1 <= k < |all| ensures Follows(names, smax, all[..k], all[k]) {
      if k < |trail| + 1 {
        assert all[..k] == (trail + [t])[..k];
      } else {
        assert all[..k] == trail + [t];
      }
    }
  }

  lemma CountOne(names: seq<seq<Byte>>, trail: seq<Try>, t: Try)
    ensures ButLast(trail + [t]) == trail && Last(trail + [t]) == t
    ensures Unseparated(names, trail + [t]) == Unseparated(names, trail) + if TrySeparates(names, t) then 0 else 1
    ensures forall b, r ::
      Separated(names, trail + [t], b, r) == Separated(names, trail, b, r) + Hit(names, trail, t, b, r)
  {
    assert ButLast(trail + [t]) == trail;
  }

  ghost function Hit(names: seq<seq<Byte>>, trail: seq<Try>, t: Try, blen: nat, round: nat): nat {
    if TrySeparates(names, t) && t.blen == blen && Round(names, trail + [t]) == round then 1 else 0
  }

  lemma {:induction false} NoneLarger(names: seq<seq<Byte>>, trail: seq<Try>, blen: nat, round: nat)
    requires forall k :: 0 <= k < |trail| ==> trail[k].blen < blen
    ensures Separated(names, trail, blen, round) == 0
  {
    if trail != [] {
      NoneLarger(names, ButLast(trail), blen, round);
    }
  }

  lemma {:induction false} NoneLater(names: seq<seq<Byte>>, trail: seq<Try>, blen: nat, round: nat)
    requires Round(names, trail) < round
    ensures Separated(names, trail, blen, round) == 0
  {
    if trail != [] {
      NoneLater(names, ButLast(trail), blen, round);
    }
  }

  /** Counting to RETRY_INITKEY. */
  lemma RoundStep(u: nat)
    ensures u % RETRY_INITKEY + 1 >= RETRY_INITKEY <==> (u + 1) % RETRY_INITKEY == 0
    ensures u % RETRY_INITKEY + 1 < RETRY_INITKEY ==>
      (u + 1) % RETRY_INITKEY == u % RETRY_INITKEY + 1 && (u + 1) / RETRY_INITKEY == u / RETRY_INITKEY
    ensures u % RETRY_INITKEY + 1 >= RETRY_INITKEY ==> (u + 1) / RETRY_INITKEY == u / RETRY_INITKEY + 1
  {
  }

  lemma Resume(names: seq<seq<Byte>>, smax: nat, trail: seq<Try>, t: Try, next: Try, badInitkey: nat, badPerfect: nat)
    requires Schedule(names, smax, trail + [t]) && NoneWorks(names, smax, trail) && !TryWorks(names, smax, t)
    requires forall k :: 0 <= k < |trail| ==> trail[k].blen <= t.blen
    requires Follows(names, smax, trail + [t], next) && next.blen >= t.blen
    requires badInitkey == Unseparated(names, trail + [t]) % RETRY_INITKEY
    requires badPerfect == Separated(names, trail + [t], next.blen, Round(names, trail + [t])) < RETRY_PERFECT
    ensures Searching(names, smax, trail + [t], next, badInitkey, badPerfect)
  {
    hide TryWorks, Follows, Unseparated, Separated, Round, Schedule;
    Extend(names, smax, trail, t, next);
  }

  /** After a try whose pairs were not all different. */
  lemma NotSeparated(names: seq<seq<Byte>>, smax: nat, trail: seq<Try>, t: Try, badInitkey: nat, badPerfect: nat)
    requires Searching(names, smax, trail, t, badInitkey, badPerfect) && !TrySeparates(names, t)
    requires !TryWorks(names, smax, t)
    ensures badInitkey + 1 < RETRY_INITKEY ==>
      Searching(names, smax, trail + [t], Try(t.alen, t.blen, (t.si + 1) % TWO32), badInitkey + 1, badPerfect)
    ensures badInitkey + 1 >= RETRY_INITKEY && t.alen < smax ==>
      Searching(names, smax, trail + [t], Try(2 * t.alen, t.blen, (t.si + 1) % TWO32), 0, 0)
    ensures badInitkey + 1 >= RETRY_INITKEY && t.alen >= smax ==>
      Searching(names, smax, trail + [t],
                Try(t.alen, if t.blen < smax then 2 * t.blen else t.blen, (t.si + 1) % TWO32), 0, 0)
  {
    hide TryWorks, TrySeparates, Separated, Schedule, NoneWorks;
    var trail' := trail + [t];
    var over := badInitkey + 1 >= RETRY_INITKEY;
    var next := Try(if over && t.alen < smax then 2 * t.alen else t.alen,
                    if over && t.alen >= smax && t.blen < smax then 2 * t.blen else t.blen, (t.si + 1) % TWO32);
    OneUnseparated(names, trail, t);
    hide Unseparated, Round, RoundOver, Exhausted;
    assert Follows(names, smax, trail', next);
    if over {
      NoneLater(names, trail, next.blen, Round(names, trail'));
    }
    Resume(names, smax, trail, t, next, if over then 0 else badInitkey + 1, if over then 0 else badPerfect);
  }

  lemma OneUnseparated(names: seq<seq<Byte>>, trail: seq<Try>, t: Try)
    requires !TrySeparates(names, t)
    ensures !Exhausted(names, trail + [t]) && Last(trail + [t]) == t
    ensures forall b, r :: Separated(names, trail + [t], b, r) == Separated(names, trail, b, r)
    ensures var bad := Unseparated(names, trail) % RETRY_INITKEY; var over := bad + 1 >= RETRY_INITKEY;
      && RoundOver(names, trail + [t]) == over
      && Unseparated(names, trail + [t]) % RETRY_INITKEY == (if over then 0 else bad + 1)
      && Round(names, trail + [t]) == Round(names, trail) + (if over then 1 else 0)
  {
    CountOne(names, trail, t);
    hide TrySeparates, Unseparated, Separated;
    RoundStep(Unseparated(names, trail));
  }

  /** After a try whose pairs were all different but had no mapping. */
  lemma NotMapped(names: seq<seq<Byte>>, smax: nat, trail: seq<Try>, t: Try, badInitkey: nat, badPerfect: nat)
    requires Searching(names, smax, trail, t, badInitkey, badPerfect) && TrySeparates(names, t)
    requires !TryWorks(names, smax, t)
    ensures badPerfect + 1 < RETRY_PERFECT ==>
      Searching(names, smax, trail + [t], Try(t.alen, t.blen, (t.si + 1) % TWO32), badInitkey, badPerfect + 1)
    ensures badPerfect + 1 >= RETRY_PERFECT && 1 <= t.blen < smax ==>
      Searching(names, smax, trail + [t], Try(t.alen, 2 * t.blen, t.si), badInitkey, 0)
    ensures badPerfect + 1 >= RETRY_PERFECT && t.blen >= smax ==>
      Schedule(names, smax, trail + [t]) && NoneWorks(names, smax, trail + [t]) && GivenUp(names, smax, trail + [t])
  {
    hide TryWorks, TrySeparates, Separated, Schedule;
    var trail' := trail + [t];
    OneSeparated(names, trail, t);
    hide Unseparated, Round, RoundOver, Exhausted;
    if badPerfect + 1 < RETRY_PERFECT {
      Resume(names, smax, trail, t, Try(t.alen, t.blen, (t.si + 1) % TWO32), badInitkey, badPerfect + 1);
    } else if 1 <= t.blen < smax {
      NoneLarger(names, trail', 2 * t.blen, Round(names, trail'));
      Resume(names, smax, trail, t, Try(t.alen, 2 * t.blen, t.si), badInitkey, 0);
    }
  }

  lemma OneSeparated(names: seq<seq<Byte>>, trail: seq<Try>, t: Try)
    requires TrySeparates(names, t)
    ensures !RoundOver(names, trail + [t]) && Last(trail + [t]) == t
    ensures Unseparated(names, trail + [t]) == Unseparated(names, trail)
    ensures Round(names, trail + [t]) == Round(names, trail)
    ensures var n := Separated(names, trail, t.blen, Round(names, trail));
      && Separated(names, trail + [t], t.blen, Round(names, trail + [t])) == n + 1
      && Exhausted(names, trail + [t]) == (n + 1 >= RETRY_PERFECT)
  {
    CountOne(names, trail, t);
  }

  /** The allowance is used up. */
  lemma SearchOver(names: seq<seq<Byte>>, smax: nat, trail: seq<Try>, t: Try, badInitkey: nat, badPerfect: nat)
    requires Searching(names, smax, trail, t, badInitkey, badPerfect)
    ensures Fruitless(names, smax, |trail|, trail)
  {
    hide Follows;
    var all := trail + [t];
    assert forall k :: 0 <= k < |trail| ==> all[k] == trail[k] && all[..k] == trail[..k];
  }

  lemma SearchGivenUp(names: seq<seq<Byte>>, smax: nat, tries: nat, trail: seq<Try>)
    requires Schedule(names, smax, trail) && NoneWorks(names, smax, trail) && GivenUp(names, smax, trail)
    requires |trail| <= tries
    ensures Fruitless(names, smax, tries, trail)
  {
  }

  /** One salt: hash the keys, list them, and if their pairs differ look for the mapping. */
  method Attempt(tabb: array<BStuff>, tabh: array<int>, tabq: array<QStuff>, keys: array<Key>,
                 alen: nat, salt: nat, smax: nat, ghost n: nat, scramble: seq<nat>)
    returns (separated: bool, ok: bool)
    requires smax == Pow2(n) && n <= 31 && Sizes(alen, tabb.Length, smax) && salt < TWO64
    requires scramble == Permute.Scramble(smax)
    requires tabq.Length == tabb.Length + 1 && tabh.Length == smax
    modifies tabb, tabh, tabq, keys
    ensures SameNames(old(keys[..]), keys[..])
    ensures separated <==> Separates(NamesOf(old(keys[..])), alen, tabb.Length, salt)
    ensures ok <==> Works(NamesOf(old(keys[..])), smax, alen, tabb.Length, salt)
    ensures ok ==> Solution(keys[..], tabb[..], scramble, smax, alen, tabb.Length, salt)
    ensures keys.Length == 1 ==> ok
  {
    hide *;
    SizeFacts(alen, tabb.Length, n);
    OneKeySeparated(keys[..], alen, tabb.Length, salt);
    ghost var ks0 := keys[..];
    separated := HashAndList(tabb, keys, alen, salt, smax, n, scramble);
    SeparatesIsPairsDiffer(ks0, alen, tabb.Length, salt);
    SameNamesOf(ks0, keys[..]);
    ok := false;
    if separated {
      ghost var ks := keys[..];
      ok := Perfect(Problem(keys[..], scramble, smax), tabb, tabh, tabq);
      if ok {
        Solved(ks, tabb[..], scramble, smax, alen, tabb.Length, salt);
        Worked(ks, tabb[..], smax, alen, tabb.Length, salt);
      } else {
        OneKeyNotStuck(Problem(ks, scramble, smax), tabb[..]);
        Unworkable(ks, tabb[..], smax, alen, tabb.Length, salt);
      }
    } else {
      NotSeparatedFails(NamesOf(ks0), smax, alen, tabb.Length, salt);
    }
  }

  lemma SameNamesOf(ks: seq<Key>, ks': seq<Key>)
    requires SameNames(ks, ks')
    ensures NamesOf(ks') == NamesOf(ks)
  {
  }

  lemma NotSeparatedFails(names: seq<seq<Byte>>, smax: nat, alen: nat, blen: nat, salt: nat)
    ensures Works(names, smax, alen, blen, salt) ==> Separates(names, alen, blen, salt)
  {
  }

  lemma OneKeySeparated(ks: seq<Key>, alen: nat, blen: nat, salt: nat)
    requires blen >= 1
    ensures |ks| == 1 ==> PairsDiffer(ks, alen, blen, salt)
  {
  }

  lemma OneKeyNotStuck(p: Problem, tb: seq<BStuff>)
    requires WellFormed(p) && Lists(p, tb) && Stuck(p, tb)
    ensures |p.ks| != 1
  {
    var b :| 0 <= b < |tb| && tb[b].listlen > 0 && (forall i :: 0 <= i < 256 ==> Clash(p, tb, b, i));
    assert Clash(p, tb, b, 0);
  }

  method NewTables(blen: nat) returns (tabb: array<BStuff>, tabq: array<QStuff>)
    ensures fresh(tabb) && fresh(tabq) && tabb.Length == blen && tabq.Length == blen + 1
  {
    tabb := new BStuff[blen](i => BStuff(0, NULL, 0, 0));
    tabq := new QStuff[blen + 1](i => QStuff(NULL, 0, 0, 0));
  }

  /** findhash. The loop need not end, for no salt may ever separate the keys, so it is given an
      allowance of tries. */
  method FindHash(keys: array<Key>, smax: nat, ghost n: nat, tries: nat)
    returns (outcome: Outcome, tabb: array<BStuff>, alen: nat, blen: nat, salt: nat, scramble: seq<nat>,
             ghost trail: seq<Try>)
    requires smax == Pow2(n) && n <= 31
    modifies keys
    ensures SameNames(old(keys[..]), keys[..])
    ensures outcome.Found? ==> Solution(keys[..], tabb[..], scramble, smax, alen, blen, salt)
    ensures outcome.Found? ==>
      && Fruitful(NamesOf(old(keys[..])), smax, tries, trail)
      && alen == Last(trail).alen && blen == Last(trail).blen && salt == SaltOf(Last(trail).si)
    ensures !outcome.Found? ==> Fruitless(NamesOf(old(keys[..])), smax, tries, trail)
    ensures outcome.NotFound? ==> GivenUp(NamesOf(old(keys[..])), smax, trail)
    ensures outcome.Unfinished? ==> |trail| == tries
    ensures keys.Length == 1 && tries > 0 ==> outcome.Found?
  {
    hide *;
    ghost var ks0, names := keys[..], NamesOf(keys[..]);
    StartSizes(keys.Length, n);
    alen, blen := smax, InitialBlen(keys.Length, smax);
    var scrambleTable := new nat[Permute.SCRAMBLE_LEN](i => 0);
    Permute.ScrambleInit(scrambleTable, smax);
    scramble := scrambleTable[..];
    var maxalen := smax;
    var tabq;
    tabb, tabq := NewTables(blen);
    var tabh := new int[smax](i => NULL);
    var badInitkey: nat, badPerfect: nat, si: nat, left := 0, 0, 1, tries;
    salt := 0;
    trail := [];
    NamesRefl(ks0);
    SearchStart(names, smax, blen);
    while left > 0
      invariant fresh(tabb) && fresh(tabq) && fresh(tabh)
      invariant tabb.Length == blen && tabq.Length == blen + 1 && tabh.Length == smax
      invariant blen >= 1 && Sizes(alen, blen, smax) && scramble == Permute.Scramble(smax)
      invariant SameNames(ks0, keys[..]) && si < TWO32
      invariant |trail| == tries - left && Searching(names, smax, trail, Try(alen, blen, si), badInitkey, badPerfect)
      invariant keys.Length == 1 ==> left == tries
    {
      left := left - 1;
      salt := SaltOf(si);
      ghost var ks1, t := keys[..], Try(alen, blen, si);
      SameNamesOf(ks0, ks1);
      var separated, ok := Attempt(tabb, tabh, tabq, keys, alen, salt, smax, n, scramble);
      NamesTrans(ks0, ks1, keys[..]);
      TryIs(names, smax, t);
      if ok {
        SearchDone(names, smax, tries, trail, t, badInitkey, badPerfect);
        trail := trail + [t];
        outcome := Found;
        return;
      }
      if !separated {
        NotSeparated(names, smax, trail, t, badInitkey, badPerfect);
        badInitkey := badInitkey + 1;
        if badInitkey >= RETRY_INITKEY {
          if alen < maxalen {
            DoubleAlen(alen, blen, n);
            alen := alen * 2;
          } else if blen < smax {
            DoubleBlen(alen, blen, n);
            blen := blen * 2;
            tabb, tabq := NewTables(blen);
          }
          badInitkey, badPerfect := 0, 0;
        }
      } else {
        NotMapped(names, smax, trail, t, badInitkey, badPerfect);
        badPerfect := badPerfect + 1;
        if badPerfect >= RETRY_PERFECT {
          if blen < smax {
            DoubleBlen(alen, blen, n);
            blen := blen * 2;
            tabb, tabq := NewTables(blen);
            SameSalt(si);
            si := (si - 1) % TWO32;
          } else {
            trail := trail + [t];
            SearchGivenUp(names, smax, tries, trail);
            outcome := NotFound;
            return;
          }
          badPerfect := 0;
        }
      }
      trail := trail + [t];
      si := (si + 1) % TWO32;
    }
    SearchOver(names, smax, trail, Try(alen, blen, si), badInitkey, badPerfect);
    outcome := Unfinished;
  }

  /** `--si` and the loop's `++si` cancel, also when they wrap. */
  lemma SameSalt(si: nat)
    requires si < TWO32
    ensures ((si - 1) % TWO32 + 1) % TWO32 == si
  {
  }

  lemma TryIs(names: seq<seq<Byte>>, smax: nat, t: Try)
    ensures TrySeparates(names, t) <==> Separates(names, t.alen, t.blen, SaltOf(t.si))
    ensures TryWorks(names, smax, t) <==> Works(names, smax, t.alen, t.blen, SaltOf(t.si))
  {
  }

  lemma SearchDone(names: seq<seq<Byte>>, smax: nat, tries: nat, trail: seq<Try>, t: Try, badInitkey: nat,
                   badPerfect: nat)
    requires Searching(names, smax, trail, t, badInitkey, badPerfect) && |trail| < tries && TryWorks(names, smax, t)
    ensures Fruitful(names, smax, tries, trail + [t]) && Last(trail + [t]) == t
  {
    assert ButLast(trail + [t]) == trail;
  }

  lemma Solved(ks: seq<Key>, tb: seq<BStuff>, scramble: seq<nat>, smax: nat, alen: nat, blen: nat, salt: nat)
    requires Sizes(alen, blen, smax) && |tb| == blen >= 1 && salt < TWO64 && Hashed(ks, alen, blen, salt)
    requires WellFormed(Problem(ks, scramble, smax)) && Lists(Problem(ks, scramble, smax), tb)
    requires AllFit(Problem(ks, scramble, smax), tb)
    ensures Solution(ks, tb, scramble, smax, alen, blen, salt)
  {
  }

  lemma StartSizes(nkeys: nat, n: nat)
    requires n <= 31
    ensures Pow2(n) <= 0x8000_0000 && InitialBlen(nkeys, Pow2(n)) >= 1 && 1 < TWO32
    ensures Sizes(Pow2(n), InitialBlen(nkeys, Pow2(n)), Pow2(n))
  {
    hide InitialBlen, Pow2;
    InitialBlenFits(nkeys, n);
    AllPowers(n);
  }

  lemma AllPowers(n: nat)
    requires n <= 31
    ensures IsPow2(Pow2(n)) && Pow2(n) <= 0x8000_0000
  {
    hide Pow2;
    Pow2Monotone(n, 31);
    Pow2Constants();
  }

  lemma NamesRefl(ks: seq<Key>)
    ensures SameNames(ks, ks)
  {
  }

  lemma NamesTrans(ks0: seq<Key>, ks1: seq<Key>, ks2: seq<Key>)
    requires SameNames(ks0, ks1) && SameNames(ks1, ks2)
    ensures SameNames(ks0, ks2)
  {
  }

  lemma DoubleAlen(alen: nat, blen: nat, n: nat)
    requires Sizes(alen, blen, Pow2(n)) && alen < Pow2(n)
    ensures Sizes(alen * 2, blen, Pow2(n))
  {
    DoubleFits(alen, n);
    assert 2 * alen == alen * 2;
  }

  lemma DoubleBlen(alen: nat, blen: nat, n: nat)
    requires Sizes(alen, blen, Pow2(n)) && blen < Pow2(n)
    ensures blen * 2 >= 1 && Sizes(alen, blen * 2, Pow2(n))
  {
    DoubleFits(blen, n);
    assert 2 * blen == blen * 2;
  }

  // ---- make_perfect and the hash its reader computes ----------------------------------------

  /** The finished tables; a capacity of 0 says that none was found. */
  datatype PerfectTable = PerfectTable(capacity: nat, occupied: nat, shift: nat, mask: nat, salt: nat,
                                       tab: seq<nat>, scramble: seq<nat>)

  const NONE: PerfectTable := PerfectTable(0, 0, 0, 0, 0, [], [])

  /** The tables have the shape their reader relies on. */
  ghost predicate Shaped(t: PerfectTable) {
    && IsPow2(t.capacity) && t.capacity <= 0x8000_0000
    && t.shift <= 64 && Pow2(64 - t.shift) <= t.capacity
    && |t.scramble| == 256
    && (forall i :: 0 <= i < 256 ==> t.scramble[i] < t.capacity)
    && |t.tab| == t.mask + 1
    && (forall i :: 0 <= i < |t.tab| ==> t.tab[i] < 256)
  }

  /** The reader's hash. A shift by the full word width is undefined, so it is excluded. */
  function ReadHash(t: PerfectTable, key: seq<Byte>): nat
    requires Shaped(t) && t.shift < 64
  {
    var val := Lookup8.Hash(key, t.salt);
    Xor(Shr(val, t.shift) % TWO32, t.scramble[t.tab[val % (t.mask + 1)]])
  }

  /** Every string whatever hashes to a slot of the table. */
  lemma ReadHashBound(t: PerfectTable, key: seq<Byte>)
    requires Shaped(t) && t.shift < 64 && t.salt < TWO64
    ensures ReadHash(t, key) < t.capacity
  {
    hide Lookup8.Hash, Pow2, Shr, Xor;
    var n: nat :| t.capacity == Pow2(n);
    HashIsWord(key, t.salt);
    var val := Lookup8.Hash(key, t.salt);
    TopBits(val, 64 - t.shift);
    var i := val % (t.mask + 1);
    var a, s := Shr(val, t.shift), t.scramble[t.tab[i]];
    assert a % TWO32 == a;
    XorBound(a, s, n);
  }

  /** The reader's hash sends different strings of the list to different slots of the table. */
  ghost predicate PerfectFor(t: PerfectTable, strings: seq<seq<Byte>>)
    requires Shaped(t) && t.shift < 64
  {
    && (forall i, j :: 0 <= i < j < |strings| ==> ReadHash(t, strings[i]) != ReadHash(t, strings[j]))
  }

  ghost predicate FitLength(strings: seq<seq<Byte>>) {
    forall i :: 0 <= i < |strings| ==> |strings[i]| < TWO32
  }

  function TableOf(tb: seq<BStuff>, scramble: seq<nat>, smax: nat, nkeys: nat, alen: nat, salt: nat): PerfectTable
    requires |tb| >= 1 && Permute.Log2u(alen) <= 64
  {
    PerfectTable(smax, nkeys, 64 - Permute.Log2u(alen), |tb| - 1, salt,
                 seq(|tb|, i requires 0 <= i < |tb| => tb[i].val), scramble)
  }

  lemma PairIs(val: nat, alen: nat, blen: nat)
    requires 1 <= Permute.Log2u(alen) <= 31 && blen >= 1
    ensures AOf(val, alen) == Shr(val, 64 - Permute.Log2u(alen)) && BOf(val, blen) == val % blen
  {
    hide Permute.Log2u;
  }

  lemma KeyPair(ks: seq<Key>, alen: nat, blen: nat, salt: nat, x: nat)
    requires blen >= 1 && Hashed(ks, alen, blen, salt) && x < |ks| && |ks[x].name| < TWO32
    ensures ks[x].a == AOf(Lookup8.Hash(ks[x].name, salt), alen)
    ensures ks[x].b == BOf(Lookup8.Hash(ks[x].name, salt), blen)
  {
    hide AOf, BOf, Lookup8.Hash;
    assert Truncated(ks[x].name) == ks[x].name;
  }

  lemma TableFacts(tb: seq<BStuff>, scramble: seq<nat>, smax: nat, nkeys: nat, alen: nat, salt: nat)
    requires |tb| >= 1 && Permute.Log2u(alen) <= 31 && |scramble| == 256 && IsPow2(smax) && smax <= 0x8000_0000
    requires Pow2(Permute.Log2u(alen)) <= smax && (forall i :: 0 <= i < 256 ==> scramble[i] < smax)
    requires forall b :: 0 <= b < |tb| ==> tb[b].val < 256
    ensures var t := TableOf(tb, scramble, smax, nkeys, alen, salt);
      && Shaped(t) && t.shift == 64 - Permute.Log2u(alen) && t.mask + 1 == |tb| && t.scramble == scramble
      && t.salt == salt && t.capacity == smax && t.occupied == nkeys && |t.tab| == |tb|
      && (forall b :: 0 <= b < |tb| ==> t.tab[b] == tb[b].val)
  {
    hide Permute.Log2u, IsPow2;
  }

  /** What the builder hashes is what the reader will hash. */
  lemma ReadHashIsBuilt(ks: seq<Key>, tb: seq<BStuff>, scramble: seq<nat>, smax: nat, alen: nat, blen: nat, salt: nat,
                        x: nat)
    requires smax <= 0x8000_0000 && Solution(ks, tb, scramble, smax, alen, blen, salt) && alen >= 2
    requires x < |ks| && |ks[x].name| < TWO32
    ensures Permute.Log2u(alen) <= 31
    ensures var t := TableOf(tb, scramble, smax, |ks|, alen, salt);
      Shaped(t) && t.shift < 64 && ReadHash(t, ks[x].name) == HashOf(Problem(ks, scramble, smax), tb, x)
  {
    hide AllFit, Lookup8.Hash, Permute.Log2u, HashedKey, Chain, Threaded, DistinctPairs, Members, AOf, BOf, TableOf,
         Shr, Xor, Shaped;
    LogBounds(alen, smax);
    var val := Lookup8.Hash(ks[x].name, salt);
    TableFacts(tb, scramble, smax, |ks|, alen, salt);
    KeyPair(ks, alen, blen, salt, x);
    PairIs(val, alen, blen);
    var t := TableOf(tb, scramble, smax, |ks|, alen, salt);
    assert Shr(val, t.shift) == ks[x].a < smax;
    assert Shr(val, t.shift) % TWO32 == ks[x].a;
  }

  lemma LogBounds(alen: nat, smax: nat)
    requires IsPow2(alen) && alen <= smax <= 0x8000_0000
    ensures Permute.Log2u(alen) <= 31 && Pow2(Permute.Log2u(alen)) <= smax
    ensures alen >= 2 <==> Permute.Log2u(alen) >= 1
  {
    var n: nat :| alen == Pow2(n);
    Permute.Log2uOfPow2(n);
    Pow2Constants();
    if n > 31 {
      Pow2Monotone(32, n);
    }
  }

  /** The keys were made from these strings. */
  ghost predicate Named(ks: seq<Key>, strings: seq<seq<Byte>>) {
    |ks| == |strings| && (forall x :: 0 <= x < |ks| ==> ks[x].name == strings[x])
  }

  lemma NamedSame(ks0: seq<Key>, ks: seq<Key>, strings: seq<seq<Byte>>)
    requires Named(ks0, strings) && SameNames(ks0, ks)
    ensures Named(ks, strings) && |ks| == |strings| && NamesOf(ks0) == strings
  {
  }

  /** A solution yields tables that are perfect for the keys, as their reader sees them. */
  lemma SolutionIsPerfect(strings: seq<seq<Byte>>, ks: seq<Key>, tb: seq<BStuff>, scramble: seq<nat>,
                          smax: nat, alen: nat, blen: nat, salt: nat)
    requires 2 <= smax <= 0x8000_0000 && Solution(ks, tb, scramble, smax, alen, blen, salt)
    requires Named(ks, strings) && FitLength(strings) && |strings| > 0
    ensures Permute.Log2u(alen) <= 31
    ensures var t := TableOf(tb, scramble, smax, |ks|, alen, salt);
      Shaped(t) && t.shift < 64 && PerfectFor(t, strings)
  {
    SolutionFacts(ks, tb, scramble, smax, alen, blen, salt);
    hide Solution, TableOf, ReadHash, HashOf, WellFormed, Lists, AllFit, Shaped, Permute.Log2u;
    var p := Problem(ks, scramble, smax);
    forall x | 0 <= x < |ks|
      ensures Permute.Log2u(alen) <= 31
      ensures var t := TableOf(tb, scramble, smax, |ks|, alen, salt);
              Shaped(t) && t.shift < 64 && ReadHash(t, strings[x]) == HashOf(p, tb, x)
    {
      ReadHashIsBuilt(ks, tb, scramble, smax, alen, blen, salt, x);
    }
    ReadHashIsBuilt(ks, tb, scramble, smax, alen, blen, salt, 0);
    var t := TableOf(tb, scramble, smax, |ks|, alen, salt);
    forall x, y | 0 <= x < y < |ks| ensures ReadHash(t, strings[x]) != ReadHash(t, strings[y]) {
      AllFitInjective(p, tb, x, y);
    }
    CapacityIs(tb, scramble, smax, |ks|, alen, salt);
  }

  lemma CapacityIs(tb: seq<BStuff>, scramble: seq<nat>, smax: nat, nkeys: nat, alen: nat, salt: nat)
    requires |tb| >= 1 && Permute.Log2u(alen) <= 64
    ensures TableOf(tb, scramble, smax, nkeys, alen, salt).capacity == smax
  {
  }

  lemma SolutionFacts(ks: seq<Key>, tb: seq<BStuff>, scramble: seq<nat>, smax: nat, alen: nat, blen: nat, salt: nat)
    requires smax <= 0x8000_0000 && Solution(ks, tb, scramble, smax, alen, blen, salt)
    ensures var p := Problem(ks, scramble, smax); WellFormed(p) && Lists(p, tb) && AllFit(p, tb)
    ensures |tb| >= 1 && Permute.Log2u(alen) <= 31 && (smax >= 2 ==> alen >= 2)
  {
    hide AllFit, Permute.Log2u, Hashed;
    LogBounds(alen, smax);
  }

  /** getkeys: one key per string. */
  method GetKeys(strings: seq<seq<Byte>>) returns (keys: array<Key>)
    ensures fresh(keys) && keys.Length == |strings|
    ensures Named(keys[..], strings)
  {
    keys := new Key[|strings|](i => Key([], 0, 0, NULL));
    for i := 0 to |strings|
      invariant forall x :: 0 <= x < i ==> keys[x].name == strings[x]
    {
      keys[i] := keys[i].(name := strings[i]);
    }
  }

  /** The first size tried: the least power of two that holds the strings. */
  function Smallest(nkeys: nat): nat { Pow2(Permute.Log2u(nkeys)) }

  /** The searches at both sizes fail. */
  ghost predicate Hopeless(strings: seq<seq<Byte>>, tries: nat) {
    NoHash(strings, Smallest(|strings|), tries) && NoHash(strings, 2 * Smallest(|strings|), tries)
  }

  /** The larger size is for when the search at the smaller one fails. */
  ghost function ChosenSize(strings: seq<seq<Byte>>, tries: nat): nat {
    if NoHash(strings, Smallest(|strings|), tries) then 2 * Smallest(|strings|) else Smallest(|strings|)
  }

  /** The table is that of the first try that works at its size. */
  ghost predicate FoundBy(strings: seq<seq<Byte>>, tries: nat, t: PerfectTable, trail: seq<Try>) {
    && Fruitful(strings, t.capacity, tries, trail)
    && t.mask + 1 == Last(trail).blen && t.salt == SaltOf(Last(trail).si)
  }

  lemma Sizing(strings: seq<seq<Byte>>, tries: nat)
    ensures Smallest(|strings|) == Pow2(Permute.Log2u(|strings|))
    ensures Hopeless(strings, tries)
       <==> NoHash(strings, Smallest(|strings|), tries) && NoHash(strings, 2 * Smallest(|strings|), tries)
    ensures ChosenSize(strings, tries)
      == if NoHash(strings, Smallest(|strings|), tries) then 2 * Smallest(|strings|) else Smallest(|strings|)
  {
  }

  /** What findhash's outcome says of the search. */
  lemma Searched(names: seq<seq<Byte>>, smax: nat, tries: nat, trail: seq<Try>)
    ensures Fruitful(names, smax, tries, trail) ==> !NoHash(names, smax, tries)
    ensures Fruitless(names, smax, tries, trail) ==> NoHash(names, smax, tries)
  {
    hide Fruitful, Fruitless;
    if Fruitful(names, smax, tries, trail) {
      FruitfulOrNot(names, smax, tries, trail);
    }
  }

  lemma FoundTable(strings: seq<seq<Byte>>, tb: seq<BStuff>, scramble: seq<nat>, smax: nat, alen: nat, salt: nat,
                   tries: nat, trail: seq<Try>)
    requires |tb| >= 1 && Permute.Log2u(alen) <= 64 && Fruitful(strings, smax, tries, trail)
    requires |tb| == Last(trail).blen && salt == SaltOf(Last(trail).si)
    ensures FoundBy(strings, tries, TableOf(tb, scramble, smax, |strings|, alen, salt), trail)
  {
    hide Schedule, NoneWorks, TryWorks, Permute.Log2u;
  }

  /** make_perfect: try the smallest power of two that holds the keys, then its double. */
  method MakePerfect(strings: seq<seq<Byte>>, tries: nat) returns (t: PerfectTable)
    requires 1 <= |strings| <= 0x4000_0000
    ensures t.capacity != 0 ==> Shaped(t) && t.occupied == |strings|
    ensures t.capacity != 0 ==> t.mask < t.capacity && t.salt < TWO64
    ensures t.capacity != 0 && tries > 0 ==> (t.shift < 64 <==> |strings| >= 2)
    ensures t.capacity != 0 && t.shift < 64 && FitLength(strings) ==> PerfectFor(t, strings)
    ensures t.capacity == 0 <==> Hopeless(strings, tries)
    ensures t.capacity != 0 ==> t.capacity == ChosenSize(strings, tries)
    ensures t.capacity != 0 ==> exists trail :: FoundBy(strings, tries, t, trail)
  {
    hide *;
    Sizing(strings, tries);
    var keys := GetKeys(strings);
    ghost var ks0 := keys[..];
    var log := Permute.ComputeLog2u(|strings|);
    SizeOfTable(|strings|, log);
    var smax := Pow2(log);
    var outcome, tabb, alen, blen, salt, scramble, trail := FindHash(keys, smax, log, tries);
    NamedSame(ks0, keys[..], strings);
    Searched(strings, smax, tries, trail);
    if !outcome.Found? {
      ks0 := keys[..];
      smax := 2 * Pow2(log);
      outcome, tabb, alen, blen, salt, scramble, trail := FindHash(keys, smax, log + 1, tries);
      NamedSame(ks0, keys[..], strings);
      Searched(strings, smax, tries, trail);
    }
    if !outcome.Found? {
      t := NONE;
      NoneIsEmpty();
      return;
    }
    ShapedTable(keys[..], tabb[..], scramble, smax, alen, blen, salt);
    t := TableOf(tabb[..], scramble, smax, |strings|, alen, salt);
    FoundTable(strings, tabb[..], scramble, smax, alen, salt, tries, trail);
    if smax >= 2 && FitLength(strings) {
      SolutionIsPerfect(strings, keys[..], tabb[..], scramble, smax, alen, blen, salt);
    }
  }

  lemma NoneIsEmpty()
    ensures NONE.capacity == 0
  {
  }

  lemma SizeOfTable(nkeys: nat, log: nat)
    requires 1 <= nkeys <= 0x4000_0000 && log == Permute.Log2u(nkeys)
    ensures log <= 30 && nkeys <= Pow2(log) <= 0x4000_0000 && 2 * Pow2(log) == Pow2(log + 1)
    ensures nkeys >= 2 <==> Pow2(log) >= 2
  {
    Pow2Constants();
    Permute.Log2uIsCeiling(nkeys, 30);
    Permute.Log2uIsCeiling(nkeys, 0);
    Pow2Monotone(log, 30);
  }

  lemma ShapedTable(ks: seq<Key>, tb: seq<BStuff>, scramble: seq<nat>, smax: nat, alen: nat, blen: nat, salt: nat)
    requires smax <= 0x8000_0000 && Solution(ks, tb, scramble, smax, alen, blen, salt)
    ensures Permute.Log2u(alen) <= 31 && |tb| == blen >= 1 && smax > 0
    ensures var t := TableOf(tb, scramble, smax, |ks|, alen, salt);
      && Shaped(t) && t.occupied == |ks|
      && t.capacity == smax && t.mask < t.capacity && t.salt < TWO64
      && (t.shift < 64 <==> smax >= 2)
  {
    hide AllFit, Hashed, Permute.Log2u;
    LogBounds(alen, smax);
  }
}
