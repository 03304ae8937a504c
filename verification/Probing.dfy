/** Triangular probing over a power-of-two array of buckets, with tombstones and purgeable zero
    values: what a probe finds, and what putting or taking a key does to all other probes. */
module Probing {
  import opened Words

  datatype Bucket = Bucket(first: int, second: int)

  /** The template parameters: the two reserved keys, the hash, and whether entries with value
      zero may be dropped. */
  datatype Info = Info(emptyKey: int, tombstoneKey: int, hash: int -> int, purgeable: bool)

  ghost predicate GoodInfo(inf: Info) { inf.emptyKey != inf.tombstoneKey }

  predicate GoodKey(inf: Info, k: int) { k != inf.emptyKey && k != inf.tombstoneKey }

  predicate IsEmpty(inf: Info, b: Bucket) { b.first == inf.emptyKey }

  predicate IsTombstone(inf: Info, b: Bucket) { b.first == inf.tombstoneKey }

  predicate IsLive(inf: Info, b: Bucket) { GoodKey(inf, b.first) }

  /** A bucket that an insertion may take over before it reaches an empty one. */
  predicate IsReusable(inf: Info, b: Bucket) {
    IsTombstone(inf, b) || (inf.purgeable && b.second == 0)
  }

  // ---- The probe sequence -------------------------------------------------------------------

  function Tri(j: nat): nat { j * (j + 1) / 2 }

  lemma TriStep(j: nat)
    ensures Tri(j + 1) == Tri(j) + j + 1
  {
    EvenProduct(j);
    assert (j + 1) * (j + 2) == j * (j + 1) + 2 * (j + 1);
  }

  lemma EvenProduct(j: nat)
    ensures j * (j + 1) % 2 == 0
  {
    var h, r := j / 2, j % 2;
    if r == 0 {
      EvenFactor(j, h, j + 1);
    } else {
      EvenFactor(j + 1, h + 1, j);
    }
  }

  lemma EvenFactor(x: nat, h: nat, y: nat)
    requires x == 2 * h
    ensures x * y % 2 == 0 && y * x % 2 == 0
  {
    assert x * y == (h * y) * 2;
    ModUnique(x * y, 2, h * y, 0);
  }

  /** The j-th bucket probed for key k in a table of n buckets. */
  function ProbeAt(inf: Info, n: nat, k: int, j: nat): (i: nat)
    requires n >= 1
    ensures i < n
  {
    (inf.hash(k) + Tri(j)) % n
  }

  lemma TwicePow2(m: nat)
    ensures Pow2(m + 1) == 2 * Pow2(m)
  {
  }

  /** The first n triangular offsets are distinct modulo n, a power of two. */
  lemma TriDistinct(h: int, i: nat, j: nat, m: nat)
    requires i < j < Pow2(m)
    ensures (h + Tri(i)) % Pow2(m) != (h + Tri(j)) % Pow2(m)
  {
    hide Tri, Pow2;
    var n := Pow2(m);
    TwicePow2(m);
    if (h + Tri(i)) % n == (h + Tri(j)) % n {
      ModEqual(h + Tri(j), h + Tri(i), n);
      var q := (Tri(j) - Tri(i)) / n;
      TwiceDifference(i, j);
      TwiceOver(Tri(j) - Tri(i), n, q);
      Factors(j - i, j + i + 1, m + 1, q);
    }
  }

  lemma TwiceOver(x: int, n: nat, q: int)
    requires n >= 1 && x % n == 0 && q == x / n
    ensures 2 * x == (2 * n) * q
  {
  }

  lemma TwiceDifference(i: nat, j: nat)
    ensures 2 * (Tri(j) - Tri(i)) == (j - i) * (j + i + 1)
  {
    EvenProduct(i);
    EvenProduct(j);
    assert (j - i) * (j + i + 1) == j * (j + 1) - i * (i + 1);
  }

  /** Of two factors below 2^n one is odd, so 2^n would have to divide the other. */
  lemma Factors(d: nat, s: nat, n: nat, q: int)
    requires 0 < d < Pow2(n) && 0 < s < Pow2(n) && (d + s) % 2 == 1
    ensures d * s != Pow2(n) * q
  {
    hide Pow2;
    if s % 2 == 1 {
      OddDivides(d, s, n);
    } else {
      Commutes(d, s);
      OddDivides(s, d, n);
    }
    if d * s == Pow2(n) * q {
      Divides(d * s, Pow2(n), q);
    }
  }

  lemma Commutes(d: int, s: int)
    ensures d * s == s * d
  {
  }

  lemma OddDivides(d: nat, odd: int, n: nat)
    requires odd % 2 == 1 && 0 < d < Pow2(n)
    ensures (d * odd) % Pow2(n) != 0
  {
    hide Pow2;
    ModUnique(d, Pow2(n), 0, d);
    if (d * odd) % Pow2(n) == 0 {
      OddCancels(d, odd, n);
    }
  }

  lemma Divides(x: int, p: nat, q: int)
    requires p >= 1 && x == p * q
    ensures x % p == 0
  {
    ModShift(0, p, q);
  }

  /** Every bucket is among the first n probed. */
  lemma ProbeCovers(inf: Info, m: nat, k: int, i: nat) returns (j: nat)
    requires i < Pow2(m)
    ensures j < Pow2(m) && ProbeAt(inf, Pow2(m), k, j) == i
  {
    hide Pow2;
    var n := Pow2(m);
    var s: seq<int> := seq(n, j requires 0 <= j => ProbeAt(inf, n, k, j));
    forall x, y | 0 <= x < y < n ensures s[x] != s[y] {
      TriDistinct(inf.hash(k), x, y, m);
    }
    DistinctCovers(s, n, i);
    var x :| 0 <= x < n && s[x] == i;
    j := x;
  }

  // ---- What a probe finds -------------------------------------------------------------------

  /** LookupBucketFor's outcome: the key's bucket, the bucket to put it in, or the fatal exit
      after NumBuckets probes. */
  datatype Probed = Found(i: nat) | Vacant(i: nat) | Fatal

  /** The probe from step j on, with the first reusable bucket passed, if any. */
  function Scan(inf: Info, b: seq<Bucket>, k: int, j: nat, reusable: int): Probed
    requires |b| >= 1 && -1 <= reusable < |b|
    decreases |b| - j
  {
    if j >= |b| then Fatal
    else
      var i := ProbeAt(inf, |b|, k, j);
      if b[i].first == k then Found(i)
      else if IsEmpty(inf, b[i]) then Vacant(if reusable != -1 then reusable else i)
      else Scan(inf, b, k, j + 1, if reusable == -1 && IsReusable(inf, b[i]) then i else reusable)
  }

  function Probe(inf: Info, b: seq<Bucket>, k: int): Probed
    requires |b| >= 1
  {
    Scan(inf, b, k, 0, -1)
  }

  /** No bucket before step j is empty or holds k. */
  ghost predicate Passes(inf: Info, b: seq<Bucket>, k: int, j: nat)
    requires |b| >= 1
  {
    forall x: nat :: x < j ==> !IsEmpty(inf, b[ProbeAt(inf, |b|, k, x)]) && b[ProbeAt(inf, |b|, k, x)].first != k
  }

  /** Bucket i is probed for k at a step before which no bucket is empty or holds k. */
  ghost predicate Reaches(inf: Info, b: seq<Bucket>, k: int, i: nat)
    requires |b| >= 1 && i < |b|
  {
    exists j: nat :: j < |b| && ProbeAt(inf, |b|, k, j) == i && Passes(inf, b, k, j)
  }

  ghost predicate Absent(inf: Info, b: seq<Bucket>, k: int) {
    forall i :: 0 <= i < |b| ==> b[i].first != k
  }

  ghost predicate Full(inf: Info, b: seq<Bucket>) {
    forall i :: 0 <= i < |b| ==> !IsEmpty(inf, b[i])
  }

  /** A key whose bucket can be reached is found there. */
  lemma {:induction false} ScanFinds(inf: Info, b: seq<Bucket>, k: int, i: nat, j: nat, s: nat, reusable: int)
    requires |b| >= 1 && GoodKey(inf, k) && -1 <= reusable < |b|
    requires s <= j < |b| && ProbeAt(inf, |b|, k, j) == i && b[i].first == k && Passes(inf, b, k, j)
    ensures Scan(inf, b, k, s, reusable) == Found(i)
    decreases j - s
  {
    hide ProbeAt;
    if s < j {
      var x := ProbeAt(inf, |b|, k, s);
      ScanFinds(inf, b, k, i, j, s + 1, if reusable == -1 && IsReusable(inf, b[x]) then x else reusable);
    }
  }

  /** What an unsuccessful probe returns can take the key. */
  ghost predicate CanTake(inf: Info, b: seq<Bucket>, k: int, i: nat)
    requires |b| >= 1
  {
    i < |b| && Reaches(inf, b, k, i) && (IsEmpty(inf, b[i]) || IsReusable(inf, b[i]))
  }

  lemma {:induction false} ScanOutcome(inf: Info, b: seq<Bucket>, k: int, s: nat, reusable: int)
    requires |b| >= 1 && -1 <= reusable < |b| && s <= |b| && Passes(inf, b, k, s)
    requires reusable != -1 ==> CanTake(inf, b, k, reusable)
    ensures match Scan(inf, b, k, s, reusable)
      case Found(i) => i < |b| && b[i].first == k
      case Vacant(i) => CanTake(inf, b, k, i)
      case Fatal => Passes(inf, b, k, |b|)
    decreases |b| - s
  {
    hide ProbeAt;
    if s < |b| {
      var x := ProbeAt(inf, |b|, k, s);
      if b[x].first != k {
        assert Reaches(inf, b, k, x);
        if !IsEmpty(inf, b[x]) {
          ScanOutcome(inf, b, k, s + 1, if reusable == -1 && IsReusable(inf, b[x]) then x else reusable);
        }
      }
    }
  }

  /** The fatal exit is reached exactly when no bucket is empty and none holds the key. */
  lemma ProbeFatal(inf: Info, b: seq<Bucket>, k: int, m: nat)
    requires |b| == Pow2(m)
    ensures Probe(inf, b, k) == Fatal <==> Full(inf, b) && Absent(inf, b, k)
  {
    hide ProbeAt, Pow2, Reaches;
    ScanOutcome(inf, b, k, 0, -1);
    if Probe(inf, b, k) == Fatal {
      forall i | 0 <= i < |b| ensures !IsEmpty(inf, b[i]) && b[i].first != k {
        var j := ProbeCovers(inf, m, k, i);
      }
    } else if Full(inf, b) && Absent(inf, b, k) {
      ScanFull(inf, b, k, 0, -1);
    }
  }

  /** Bucket i is the first, in the order of probing, that is empty or can be reused, and the chain
      of k does not end before it. */
  ghost predicate FirstFree(inf: Info, b: seq<Bucket>, k: int, i: nat)
    requires |b| >= 1 && i < |b|
  {
    && (IsEmpty(inf, b[i]) || b[i].first == inf.tombstoneKey || (inf.purgeable && b[i].second == 0))
    && (exists j: nat :: j < |b| && ProbeAt(inf, |b|, k, j) == i && Passes(inf, b, k, j) && NoneReusable(inf, b, k, j))
  }

  ghost predicate NoneReusable(inf: Info, b: seq<Bucket>, k: int, j: nat)
    requires |b| >= 1
  {
    forall x: nat :: x < j ==>
      var e := b[ProbeAt(inf, |b|, k, x)]; e.first != inf.tombstoneKey && !(inf.purgeable && e.second == 0)
  }

  lemma {:induction false} ScanFirst(inf: Info, b: seq<Bucket>, k: int, s: nat, reusable: int)
    requires |b| >= 1 && -1 <= reusable < |b| && s <= |b| && Passes(inf, b, k, s)
    requires if reusable == -1 then NoneReusable(inf, b, k, s) else FirstFree(inf, b, k, reusable)
    ensures match Scan(inf, b, k, s, reusable)
      case Vacant(i) => i < |b| && FirstFree(inf, b, k, i)
      case _ => true
    decreases |b| - s
  {
    hide ProbeAt;
    if s < |b| {
      var x := ProbeAt(inf, |b|, k, s);
      if b[x].first != k && !IsEmpty(inf, b[x]) {
        ScanFirst(inf, b, k, s + 1, if reusable == -1 && IsReusable(inf, b[x]) then x else reusable);
      }
    }
  }

  /** An unsuccessful probe reuses the first bucket that it can. */
  lemma ProbeTakesFirst(inf: Info, b: seq<Bucket>, k: int, i: nat)
    requires |b| >= 1 && Probe(inf, b, k) == Vacant(i)
    ensures i < |b| && FirstFree(inf, b, k, i)
  {
    hide ProbeAt, Scan, FirstFree;
    ScanFirst(inf, b, k, 0, -1);
  }

  lemma {:induction false} ScanFull(inf: Info, b: seq<Bucket>, k: int, s: nat, reusable: int)
    requires |b| >= 1 && -1 <= reusable < |b| && Full(inf, b) && Absent(inf, b, k)
    ensures Scan(inf, b, k, s, reusable) == Fatal
    decreases |b| - s
  {
    hide ProbeAt;
    if s < |b| {
      var x := ProbeAt(inf, |b|, k, s);
      ScanFull(inf, b, k, s + 1, if reusable == -1 && IsReusable(inf, b[x]) then x else reusable);
    }
  }

  // ---- Tables -------------------------------------------------------------------------------

  ghost predicate Unique(inf: Info, b: seq<Bucket>) {
    forall i, j :: 0 <= i < j < |b| && IsLive(inf, b[i]) ==> b[i].first != b[j].first
  }

  /** Every live key is where probing for it leads. */
  ghost predicate Hashed(inf: Info, b: seq<Bucket>)
    requires |b| >= 1
  {
    forall i :: 0 <= i < |b| && IsLive(inf, b[i]) ==> Reaches(inf, b, b[i].first, i)
  }

  ghost predicate IsTable(inf: Info, b: seq<Bucket>) {
    GoodInfo(inf) && IsPow2(|b|) && |b| >= 1 && Unique(inf, b) && Hashed(inf, b)
  }

  ghost function Contents(inf: Info, b: seq<Bucket>): (c: map<int, int>)
    requires Unique(inf, b)
  {
    map i | 0 <= i < |b| && IsLive(inf, b[i]) :: b[i].first := b[i].second
  }

  /** A lookup is exact: it finds precisely the keys of the table, each in its own bucket, and
      otherwise a bucket that can take the key. */
  lemma ProbeExact(inf: Info, b: seq<Bucket>, k: int)
    requires IsTable(inf, b) && GoodKey(inf, k)
    ensures match Probe(inf, b, k)
      case Found(i) => i < |b| && b[i].first == k && k in Contents(inf, b) && Contents(inf, b)[k] == b[i].second
      case Vacant(i) => CanTake(inf, b, k, i) && k !in Contents(inf, b) && Absent(inf, b, k)
      case Fatal => k !in Contents(inf, b) && Full(inf, b) && Absent(inf, b, k)
  {
    hide ProbeAt, Reaches;
    var m: nat :| |b| == Pow2(m);
    ScanOutcome(inf, b, k, 0, -1);
    ProbeFatal(inf, b, k, m);
    forall i | 0 <= i < |b| && b[i].first == k ensures Probe(inf, b, k) == Found(i) {
      ReachedIsFound(inf, b, i);
    }
  }

  lemma ReachedIsFound(inf: Info, b: seq<Bucket>, i: nat)
    requires IsTable(inf, b) && i < |b| && IsLive(inf, b[i])
    ensures Probe(inf, b, b[i].first) == Found(i)
  {
    hide ProbeAt;
    assert Reaches(inf, b, b[i].first, i);
    var j: nat :| j < |b| && ProbeAt(inf, |b|, b[i].first, j) == i && Passes(inf, b, b[i].first, j);
    ScanFinds(inf, b, b[i].first, i, j, 0, -1);
  }

  /** Changing one bucket breaks no chain, if the bucket is not emptied, takes no key that is
      elsewhere, and its own new key, if it is live, leads to it. */
  lemma ChangeKeepsChains(inf: Info, b: seq<Bucket>, b': seq<Bucket>, i: nat)
    requires IsTable(inf, b) && i < |b| && |b'| == |b| && b' == b[i := b'[i]]
    requires !IsEmpty(inf, b'[i])
    requires forall x :: 0 <= x < |b| && x != i && IsLive(inf, b'[i]) ==> b[x].first != b'[i].first
    requires IsLive(inf, b'[i]) ==> Reaches(inf, b, b'[i].first, i)
    ensures IsTable(inf, b')
  {
    hide Reaches;
    forall x | 0 <= x < |b'| && IsLive(inf, b'[x]) ensures Reaches(inf, b', b'[x].first, x) {
      ReachKept(inf, b, b', b'[x].first, x, i);
    }
  }

  /** Putting a key into a bucket that can take it leaves every other key's chain whole, also when
      the bucket held another key with a purgeable zero. */
  lemma PutKeepsTable(inf: Info, b: seq<Bucket>, b': seq<Bucket>, k: int, v: int, i: nat)
    requires IsTable(inf, b) && GoodKey(inf, k) && CanTake(inf, b, k, i) && Absent(inf, b, k)
    requires b' == b[i := Bucket(k, v)]
    ensures IsTable(inf, b')
    ensures Contents(inf, b') == (Contents(inf, b) - {b[i].first})[k := v]
  {
    hide Reaches, Hashed, Contents;
    ChangeKeepsChains(inf, b, b', i);
    SameElsewhere(inf, b, b', i);
    LiveContents(inf, b', i);
    OnlyBuckets(inf, b, k);
    var c, c' := (Contents(inf, b) - {b[i].first})[k := v], Contents(inf, b');
    assert forall x :: x in c' ==> x in c;
    assert forall x :: x in c ==> x in c' && c'[x] == c[x];
  }

  lemma LiveContents(inf: Info, b: seq<Bucket>, i: nat)
    requires Unique(inf, b) && i < |b| && IsLive(inf, b[i])
    ensures b[i].first in Contents(inf, b) && Contents(inf, b)[b[i].first] == b[i].second
  {
  }

  lemma OnlyBuckets(inf: Info, b: seq<Bucket>, k: int)
    requires Unique(inf, b) && Absent(inf, b, k)
    ensures k !in Contents(inf, b)
  {
  }

  /** A chain survives a change of one bucket that leaves it non-empty and without the key, or
      that changes only the chain's end. */
  lemma ReachKept(inf: Info, b: seq<Bucket>, b': seq<Bucket>, k: int, x: nat, i: nat)
    requires |b| == |b'| >= 1 && i < |b| && x < |b| && Reaches(inf, b, k, x)
    requires forall y :: 0 <= y < |b| && y != i ==> b'[y] == b[y]
    requires !IsEmpty(inf, b'[i]) && (b'[i].first != k || x == i)
    ensures Reaches(inf, b', k, x)
  {
    hide ProbeAt;
    var j: nat :| j < |b| && ProbeAt(inf, |b|, k, j) == x && Passes(inf, b, k, j);
    if b'[i].first == k {
      ShortenChain(inf, b, b', k, x, j);
    } else {
      assert Passes(inf, b', k, j);
    }
  }

  /** Only the first visit to a bucket matters. */
  lemma {:induction false} ShortenChain(inf: Info, b: seq<Bucket>, b': seq<Bucket>, k: int, x: nat, j: nat)
    requires |b| == |b'| >= 1 && x < |b| && j < |b| && ProbeAt(inf, |b|, k, j) == x && Passes(inf, b, k, j)
    requires forall y :: 0 <= y < |b| && y != x ==> b'[y] == b[y]
    ensures Reaches(inf, b', k, x)
  {
    hide ProbeAt;
    if t: nat :| t < j && ProbeAt(inf, |b|, k, t) == x {
      ShortenChain(inf, b, b', k, x, t);
    } else {
      assert Passes(inf, b', k, j);
    }
  }

  lemma SameElsewhere(inf: Info, b: seq<Bucket>, b': seq<Bucket>, i: nat)
    requires |b| == |b'| && i < |b| && Unique(inf, b) && Unique(inf, b')
    requires forall y :: 0 <= y < |b| && y != i ==> b'[y] == b[y]
    ensures forall x :: x in Contents(inf, b) && x != b[i].first && x != b'[i].first ==>
      x in Contents(inf, b') && Contents(inf, b')[x] == Contents(inf, b)[x]
    ensures forall x :: x in Contents(inf, b') && x != b'[i].first ==> x in Contents(inf, b) && x != b[i].first
  {
    forall x | x in Contents(inf, b') && x != b'[i].first ensures x in Contents(inf, b) && x != b[i].first {
      var y :| 0 <= y < |b'| && IsLive(inf, b'[y]) && b'[y].first == x;
      assert b[y] == b'[y] && y != i;
    }
  }

  /** Erasing leaves a tombstone, so that the chains through the bucket stay whole. */
  lemma TakeKeepsTable(inf: Info, b: seq<Bucket>, b': seq<Bucket>, i: nat, v: int)
    requires IsTable(inf, b) && i < |b| && IsLive(inf, b[i]) && b' == b[i := Bucket(inf.tombstoneKey, v)]
    ensures IsTable(inf, b')
    ensures Contents(inf, b') == Contents(inf, b) - {b[i].first}
  {
    hide Reaches, Hashed, Contents;
    ChangeKeepsChains(inf, b, b', i);
    SameElsewhere(inf, b, b', i);
    NoReserved(inf, b);
    NoReserved(inf, b');
    var c, c' := Contents(inf, b) - {b[i].first}, Contents(inf, b');
    assert forall x :: x in c' ==> x in c;
    assert forall x :: x in c ==> x in c' && c'[x] == c[x];
  }

  /** The reserved keys are never in the table. */
  lemma NoReserved(inf: Info, b: seq<Bucket>)
    requires Unique(inf, b)
    ensures forall x :: x in Contents(inf, b) ==> GoodKey(inf, x)
  {
  }

  /** Changing a live bucket's value changes just that. */
  lemma SetKeepsTable(inf: Info, b: seq<Bucket>, b': seq<Bucket>, i: nat, v: int)
    requires IsTable(inf, b) && i < |b| && IsLive(inf, b[i]) && b' == b[i := Bucket(b[i].first, v)]
    ensures IsTable(inf, b')
    ensures Contents(inf, b') == Contents(inf, b)[b[i].first := v]
  {
    assert Reaches(inf, b, b[i].first, i);
    ChangeKeepsChains(inf, b, b', i);
    SetContents(inf, b, b', i, v);
  }

  lemma SetContents(inf: Info, b: seq<Bucket>, b': seq<Bucket>, i: nat, v: int)
    requires Unique(inf, b) && Unique(inf, b') && i < |b| && IsLive(inf, b[i]) && b' == b[i := Bucket(b[i].first, v)]
    ensures Contents(inf, b') == Contents(inf, b)[b[i].first := v]
  {
    hide Unique, Contents;
    SameElsewhere(inf, b, b', i);
    LiveContents(inf, b', i);
    LiveContents(inf, b, i);
    var c, c' := Contents(inf, b)[b[i].first := v], Contents(inf, b');
    assert forall x :: x in c' ==> x in c;
    assert forall x :: x in c ==> x in c' && c'[x] == c[x];
  }
}
