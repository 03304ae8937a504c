/** An open-addressed hash table with tombstones, same-size rehashing, doubling and shrinking on
    clear. */
module DenseMaps {
  import opened Words
  import opened Probing
  import LeadingZeros

  // ---- Counting buckets ---------------------------------------------------------------------

  function One(p: bool): nat { if p then 1 else 0 }

  function LiveCount(inf: Info, b: seq<Bucket>): (n: nat)
    ensures n <= |b|
  {
    if b == [] then 0 else LiveCount(inf, b[..|b| - 1]) + One(IsLive(inf, b[|b| - 1]))
  }

  function TombstoneCount(inf: Info, b: seq<Bucket>): (n: nat)
    ensures n <= |b|
  {
    if b == [] then 0 else TombstoneCount(inf, b[..|b| - 1]) + One(IsTombstone(inf, b[|b| - 1]))
  }

  /** Live entries that a rehash drops. */
  function ZeroCount(inf: Info, b: seq<Bucket>): (n: nat)
    ensures n <= |b|
  {
    if b == [] then 0 else ZeroCount(inf, b[..|b| - 1]) + One(IsPurged(inf, b[|b| - 1]))
  }

  predicate IsPurged(inf: Info, b: Bucket) { IsLive(inf, b) && inf.purgeable && b.second == 0 }

  lemma {:induction false} CountChange(inf: Info, b: seq<Bucket>, i: nat, x: Bucket)
    requires i < |b|
    ensures LiveCount(inf, b[i := x]) == LiveCount(inf, b) - One(IsLive(inf, b[i])) + One(IsLive(inf, x))
    ensures TombstoneCount(inf, b[i := x])
         == TombstoneCount(inf, b) - One(IsTombstone(inf, b[i])) + One(IsTombstone(inf, x))
  {
    var n := |b| - 1;
    if i == n {
      assert b[i := x][..n] == b[..n];
    } else {
      CountChange(inf, b[..n], i, x);
      assert b[i := x][..n] == b[..n][i := x];
    }
  }

  /** The buckets that are neither live nor tombstones are the empty ones. */
  lemma {:induction false} SomeEmpty(inf: Info, b: seq<Bucket>)
    requires GoodInfo(inf)
    ensures LiveCount(inf, b) + TombstoneCount(inf, b) <= |b|
    ensures Full(inf, b) <==> LiveCount(inf, b) + TombstoneCount(inf, b) == |b|
  {
    if b != [] {
      var n := |b| - 1;
      SomeEmpty(inf, b[..n]);
      assert b == b[..n] + [b[n]];
      assert Full(inf, b) <==> Full(inf, b[..n]) && !IsEmpty(inf, b[n]);
    }
  }

  lemma {:induction false} AllEmptyCounts(inf: Info, b: seq<Bucket>)
    requires GoodInfo(inf) && forall i :: 0 <= i < |b| ==> IsEmpty(inf, b[i])
    ensures LiveCount(inf, b) == 0 && TombstoneCount(inf, b) == 0
  {
    if b != [] {
      AllEmptyCounts(inf, b[..|b| - 1]);
    }
  }

  lemma AllEmptyTable(inf: Info, b: seq<Bucket>)
    requires GoodInfo(inf) && IsPow2(|b|) && |b| >= 1 && forall i :: 0 <= i < |b| ==> IsEmpty(inf, b[i])
    ensures IsTable(inf, b) && Contents(inf, b) == map[]
    ensures LiveCount(inf, b) == 0 && TombstoneCount(inf, b) == 0
  {
    AllEmptyCounts(inf, b);
  }

  /** The number of live buckets is the size of the map. */
  lemma {:induction false} SizeIsLiveCount(inf: Info, b: seq<Bucket>)
    requires Unique(inf, b)
    ensures |Contents(inf, b)| == LiveCount(inf, b)
  {
    if b != [] {
      var n := |b| - 1;
      SizeIsLiveCount(inf, b[..n]);
      ContentsOneMore(inf, b, n);
      assert b[..n + 1] == b;
    }
  }

  lemma ContentsOneMore(inf: Info, b: seq<Bucket>, n: nat)
    requires Unique(inf, b) && n < |b|
    ensures Unique(inf, b[..n]) && Unique(inf, b[..n + 1])
    ensures Contents(inf, b[..n + 1]) ==
      if IsLive(inf, b[n]) then Contents(inf, b[..n])[b[n].first := b[n].second] else Contents(inf, b[..n])
    ensures IsLive(inf, b[n]) ==> b[n].first !in Contents(inf, b[..n])
  {
    hide IsLive;
    var s, t := b[..n], b[..n + 1];
    PrefixUnique(inf, b, n);
    PrefixUnique(inf, b, n + 1);
    assert t[..n] == s && t[n] == b[n];
    LastAdded(inf, s, t);
  }

  lemma PrefixUnique(inf: Info, b: seq<Bucket>, n: nat)
    requires Unique(inf, b) && n <= |b|
    ensures Unique(inf, b[..n])
  {
    hide IsLive;
  }

  lemma LastAdded(inf: Info, s: seq<Bucket>, t: seq<Bucket>)
    requires Unique(inf, s) && Unique(inf, t) && |t| == |s| + 1 && t[..|s|] == s
    ensures var x := t[|s|];
      && Contents(inf, t) == (if IsLive(inf, x) then Contents(inf, s)[x.first := x.second] else Contents(inf, s))
      && (IsLive(inf, x) ==> x.first !in Contents(inf, s))
  {
    hide IsLive;
    assert forall i :: 0 <= i < |s| ==> t[i] == s[i];
  }

  // ---- What survives a rehash ---------------------------------------------------------------

  /** The map without entries that may be dropped. */
  ghost function Kept(inf: Info, c: map<int, int>): map<int, int> {
    map k | k in c && !(inf.purgeable && c[k] == 0) :: c[k]
  }

  /** The value of a key, 0 being the default for a key not in the map. */
  ghost function Value(c: map<int, int>, k: int): int { if k in c then c[k] else 0 }

  /** c' is c with k set to v, where entries of value zero may have been dropped if purgeable. */
  ghost predicate Inserted(inf: Info, c: map<int, int>, c': map<int, int>, k: int, v: int) {
    && k in c' && c'[k] == v
    && (forall x :: x in c' && x != k ==> x in c && c'[x] == c[x])
    && (forall x :: x in c && x != k && x !in c' ==> inf.purgeable && c[x] == 0)
  }

  /** With purgeable zeros the table is a total function with default 0, and an insertion sets
      just its key; without, it is a plain map. */
  lemma InsertedValue(inf: Info, c: map<int, int>, c': map<int, int>, k: int, v: int, x: int)
    requires Inserted(inf, c, c', k, v)
    ensures Value(c', x) == if x == k then v else Value(c, x)
    ensures !inf.purgeable ==> c' == c[k := v]
    ensures x in c && c[x] != 0 && x != k ==> x in c' && c'[x] == c[x]
  {
    if !inf.purgeable {
      var d := c[k := v];
      assert forall y :: y in c' ==> y in d;
      assert forall y :: y in d ==> y in c' && c'[y] == d[y];
    }
  }

  lemma KeptValue(inf: Info, c: map<int, int>, x: int)
    ensures Value(Kept(inf, c), x) == Value(c, x)
    ensures !inf.purgeable ==> Kept(inf, c) == c
    ensures x in c && c[x] != 0 ==> x in Kept(inf, c)
  {
  }

  // ---- Rehashing one entry ------------------------------------------------------------------

  /** A table fresh from a rehash: no tombstones, no purgeable zeros. */
  ghost predicate Clean(inf: Info, b: seq<Bucket>) {
    forall i :: 0 <= i < |b| ==> !IsTombstone(inf, b[i]) && !IsPurged(inf, b[i])
  }

  /** The new table b holds what is kept of the first t buckets of the old one. */
  ghost predicate Moved(inf: Info, olds: seq<Bucket>, t: nat, b: seq<Bucket>) {
    && t <= |olds| <= |b| && Unique(inf, olds)
    && IsTable(inf, b) && Clean(inf, b)
    && Contents(inf, b) == Kept(inf, Contents(inf, olds[..t]))
    && LiveCount(inf, b) + ZeroCount(inf, olds[..t]) == LiveCount(inf, olds[..t])
    && TombstoneCount(inf, b) == 0
  }

  lemma MoveStart(inf: Info, olds: seq<Bucket>, b: seq<Bucket>)
    requires Unique(inf, olds) && |olds| <= |b| && GoodInfo(inf) && IsPow2(|b|) && |b| >= 1
    requires forall i :: 0 <= i < |b| ==> IsEmpty(inf, b[i])
    ensures Moved(inf, olds, 0, b)
  {
    AllEmptyTable(inf, b);
    assert olds[..0] == [];
  }

  lemma CountsOneMore(inf: Info, b: seq<Bucket>, n: nat)
    requires n < |b|
    ensures LiveCount(inf, b[..n + 1]) == LiveCount(inf, b[..n]) + One(IsLive(inf, b[n]))
    ensures ZeroCount(inf, b[..n + 1]) == ZeroCount(inf, b[..n]) + One(IsPurged(inf, b[n]))
  {
    assert b[..n + 1][..n] == b[..n];
  }

  /** A bucket that is not kept moves nothing. */
  lemma MoveNothing(inf: Info, olds: seq<Bucket>, t: nat, b: seq<Bucket>)
    requires t < |olds| && Moved(inf, olds, t, b) && (!IsLive(inf, olds[t]) || IsPurged(inf, olds[t]))
    ensures Moved(inf, olds, t + 1, b)
  {
    hide IsTable, Clean, Contents, Unique;
    CountsOneMore(inf, olds, t);
    ContentsOneMore(inf, olds, t);
    var c := Contents(inf, olds[..t]);
    if IsLive(inf, olds[t]) {
      assert Kept(inf, c[olds[t].first := olds[t].second]) == Kept(inf, c);
    }
  }

  /** A kept entry's key is never in the new table yet, and an empty bucket is found for it. */
  lemma MoveReady(inf: Info, olds: seq<Bucket>, t: nat, b: seq<Bucket>)
    requires t < |olds| && Moved(inf, olds, t, b) && IsLive(inf, olds[t])
    ensures Probe(inf, b, olds[t].first).Vacant?
    ensures var i := Probe(inf, b, olds[t].first).i;
      i < |b| && IsEmpty(inf, b[i]) && CanTake(inf, b, olds[t].first, i) && Absent(inf, b, olds[t].first)
  {
    var k := olds[t].first;
    ContentsOneMore(inf, olds, t);
    assert k !in Contents(inf, b);
    SomeEmpty(inf, b);
    hide IsTable, Contents, Unique, LiveCount, TombstoneCount, Reaches;
    ProbeExact(inf, b, k);
  }

  lemma MoveOne(inf: Info, olds: seq<Bucket>, t: nat, b: seq<Bucket>, i: nat)
    requires t < |olds| && Moved(inf, olds, t, b) && IsLive(inf, olds[t]) && !IsPurged(inf, olds[t])
    requires i < |b| && IsEmpty(inf, b[i]) && CanTake(inf, b, olds[t].first, i) && Absent(inf, b, olds[t].first)
    ensures Moved(inf, olds, t + 1, b[i := olds[t]])
  {
    hide IsTable, Contents, Unique, CanTake, Absent;
    var k, v := olds[t].first, olds[t].second;
    var b' := b[i := olds[t]];
    assert olds[t] == Bucket(k, v);
    PutKeepsTable(inf, b, b', k, v, i);
    CountChange(inf, b, i, olds[t]);
    CountsOneMore(inf, olds, t);
    ContentsOneMore(inf, olds, t);
    NoEmptyKey(inf, b);
    var c := Contents(inf, olds[..t]);
    assert Kept(inf, c[k := v]) == Kept(inf, c)[k := v];
  }

  lemma NoEmptyKey(inf: Info, b: seq<Bucket>)
    requires IsTable(inf, b)
    ensures inf.emptyKey !in Contents(inf, b) && Contents(inf, b) - {inf.emptyKey} == Contents(inf, b)
  {
    NoReserved(inf, b);
  }

  /** The new table is complete: everything kept is in it, and it has no tombstones. */
  lemma MoveDone(inf: Info, olds: seq<Bucket>, b: seq<Bucket>)
    requires Moved(inf, olds, |olds|, b)
    ensures Unique(inf, olds) && IsTable(inf, b) && Clean(inf, b)
    ensures Contents(inf, b) == Kept(inf, Contents(inf, olds))
    ensures LiveCount(inf, b) + ZeroCount(inf, olds) == LiveCount(inf, olds)
    ensures TombstoneCount(inf, b) == 0
  {
    assert olds[..|olds|] == olds;
  }

  // ---- Room ---------------------------------------------------------------------------------

  /** `NumBuckets - (NumEntries + NumTombstones)` in 32-bit arithmetic. */
  function Spare(buckets: nat, entries: nat, tombstones: nat): nat { (buckets - (entries + tombstones)) % TWO32 }

  /** An insertion, which has already counted itself, doubles the table. */
  predicate MustGrow(buckets: nat, entries: nat) { entries * 4 >= buckets * 3 }

  /** An insertion rehashes the table at its size. */
  predicate MustRehash(buckets: nat, entries: nat, tombstones: nat) {
    !MustGrow(buckets, entries) && Spare(buckets, entries, tombstones) < buckets / 8
  }

  /** At least eight buckets, of which at least an eighth are empty. */
  ghost predicate Roomy(inf: Info, b: seq<Bucket>) {
    |b| >= 8 && |b| / 8 <= |b| - LiveCount(inf, b) - TombstoneCount(inf, b)
  }

  /** DenseMap<KeyT, ValueT, ZeroValuesArePurgeable>. */
  class DenseMap {
    const inf: Info
    var NumBuckets: nat
    var Buckets: array<Bucket>
    var NumEntries: nat
    var NumTombstones: nat

    /** The buckets are a table. */
    ghost predicate Linked()
      reads this, Buckets
    {
      Buckets.Length == NumBuckets && IsTable(inf, Buckets[..])
    }

    /** And the counters are right. */
    ghost predicate Valid()
      reads this, Buckets
    {
      && Linked()
      && NumEntries == LiveCount(inf, Buckets[..])
      && NumTombstones == TombstoneCount(inf, Buckets[..])
    }

    ghost function Map(): map<int, int>
      requires Linked()
      reads this, Buckets
    {
      Contents(inf, Buckets[..])
    }

    constructor (inf: Info, initBuckets: nat)
      requires GoodInfo(inf) && IsPow2(initBuckets) && initBuckets >= 1
      ensures this.inf == inf && fresh(Buckets) && NumBuckets == initBuckets
      ensures Valid() && Map() == map[]
      ensures initBuckets >= 8 ==> Roomy(inf, Buckets[..])
      ensures Buckets[..] == seq(initBuckets, i => Bucket(inf.emptyKey, 0))
    {
      this.inf := inf;
      NumEntries := 0;
      NumTombstones := 0;
      NumBuckets := initBuckets;
      Buckets := new Bucket[initBuckets](i => Bucket(inf.emptyKey, 0));
      new;
      AllEmptyTable(inf, Buckets[..]);
    }

    /** LookupBucketFor. */
    method LookupBucketFor(k: int) returns (r: Probed)
      requires Buckets.Length == NumBuckets <= 0x8000_0000 && IsTable(inf, Buckets[..]) && GoodKey(inf, k)
      ensures NumBuckets >= 1 && r == Probe(inf, Buckets[..], k)
    {
      hide *;
      TableSize(inf, Buckets[..]);
      ghost var b := Buckets[..];
      var bucketNo := Wrap32(inf.hash(k));
      var probeAmt := 1;
      var probeCount := 0;
      var foundTombstone := -1;
      ProbeStart(inf, b, k);
      while true
        invariant 0 <= probeCount < |b| && probeAmt == probeCount + 1 && -1 <= foundTombstone < |b|
        invariant |b| >= 1 && bucketNo == Wrap32(inf.hash(k) + Tri(probeCount))
        invariant Probe(inf, b, k) == Scan(inf, b, k, probeCount, foundTombstone)
        decreases |b| - probeCount
      {
        MaskedProbe(inf, b, k, probeCount);
        var i := Masked(bucketNo, NumBuckets);
        ScanStep(inf, b, k, probeCount, foundTombstone, b[i]);
        var e := Buckets[i];
        if e.first == k {
          return Found(i);
        }
        if e.first == inf.emptyKey {
          return Vacant(if foundTombstone != -1 then foundTombstone else i);
        }
        ghost var before := foundTombstone;
        if e.first == inf.tombstoneKey && foundTombstone == -1 {
          foundTombstone := i;
        }
        if inf.purgeable && e.second == 0 && foundTombstone == -1 {
          foundTombstone := i;
        }
        RemembersReusable(inf, e, i, before, foundTombstone);
        NextBucketNo(inf.hash(k), probeCount);
        bucketNo := Wrap32(bucketNo + probeAmt);
        probeAmt := probeAmt + 1;
        probeCount := probeCount + 1;
        if probeCount >= NumBuckets {
          ScanEnd(inf, b, k, probeCount, foundTombstone);
          break;
        }
      }
      return Fatal;
    }

    /** grow: a table of at least the given size, with the entries that are kept. The entry count
        may run ahead of the buckets by the insertion under way. */
    method Grow(atLeast: nat)
      requires Linked() && NumBuckets <= 0x4000_0000 && atLeast <= 0x4000_0000
      requires NumEntries >= LiveCount(inf, Buckets[..])
      modifies this
      ensures fresh(Buckets) && Linked() && Clean(inf, Buckets[..])
      ensures NumBuckets == Doubled(old(NumBuckets), atLeast) <= 0x8000_0000
      ensures Map() == Kept(inf, old(Map()))
      ensures NumTombstones == 0 == TombstoneCount(inf, Buckets[..])
      ensures LiveCount(inf, Buckets[..]) <= old(LiveCount(inf, Buckets[..]))
      ensures NumEntries - LiveCount(inf, Buckets[..]) == old(NumEntries - LiveCount(inf, Buckets[..]))
    {
      hide IsTable, Unique, Contents, LiveCount, TombstoneCount, ZeroCount, Kept, Clean, IsPurged, Moved, Probe,
           CanTake, Absent, Doubled;
      ghost var olds := Buckets[..];
      var oldBuckets := Buckets;
      DoubledFits(NumBuckets, atLeast, inf, olds);
      while NumBuckets < atLeast
        invariant NumBuckets >= 1 && Doubled(NumBuckets, atLeast) == Doubled(old(NumBuckets), atLeast)
        invariant Buckets == oldBuckets && Buckets[..] == olds && NumEntries == old(NumEntries)
        decreases atLeast - NumBuckets
      {
        DoubledStep(NumBuckets, atLeast);
        NumBuckets := NumBuckets * 2;
      }
      DoubledEnd(NumBuckets, atLeast);
      NumTombstones := 0;
      Buckets := new Bucket[NumBuckets](i => Bucket(inf.emptyKey, 0));
      MoveStart(inf, olds, Buckets[..]);
      MoveEntries(oldBuckets);
      MoveDone(inf, olds, Buckets[..]);
    }

    /** Insert all the old elements. */
    method MoveEntries(olds: array<Bucket>)
      requires olds != Buckets && Buckets.Length == NumBuckets <= 0x8000_0000
      requires Moved(inf, olds[..], 0, Buckets[..]) && NumEntries >= LiveCount(inf, olds[..])
      modifies this`NumEntries, Buckets
      ensures Moved(inf, olds[..], olds.Length, Buckets[..]) && olds[..] == old(olds[..])
      ensures NumEntries == old(NumEntries) - ZeroCount(inf, olds[..])
    {
      hide IsTable, Unique, Contents, LiveCount, TombstoneCount, ZeroCount, Kept, Clean, Moved, Probe, CanTake, Absent;
      ghost var b0 := olds[..];
      ZeroStart(inf, b0);
      var t := 0;
      while t < olds.Length
        invariant 0 <= t <= olds.Length && olds[..] == b0
        invariant Moved(inf, b0, t, Buckets[..])
        invariant NumEntries == old(NumEntries) - ZeroCount(inf, b0[..t])
      {
        ghost var b := Buckets[..];
        var e := olds[t];
        CountsOneMore(inf, b0, t);
        if e.first != inf.emptyKey && e.first != inf.tombstoneKey {
          if !inf.purgeable || e.second != 0 {
            MovedTable(inf, b0, t, b);
            MoveReady(inf, b0, t, b);
            var dest := LookupBucketFor(e.first);
            Buckets[dest.i] := Bucket(e.first, e.second);
            MoveOne(inf, b0, t, b, dest.i);
            assert Buckets[..] == b[dest.i := e];
          } else {
            EntriesLeft(inf, b0, t);
            NumEntries := NumEntries - 1;
            MoveNothing(inf, b0, t, b);
          }
        } else {
          MoveNothing(inf, b0, t, b);
        }
        t := t + 1;
      }
      assert b0[..t] == b0;
    }

    /** InsertIntoBucket, for a key that is not in the table and the bucket that the failed lookup
        found for it. */
    method InsertIntoBucket(k: int, v: int, bucket: nat) returns (i: nat)
      requires Valid() && GoodKey(inf, k) && 1 <= NumBuckets <= 0x2000_0000
      requires Probe(inf, Buckets[..], k) == Vacant(bucket)
      modifies this, Buckets
      ensures Valid() && (Buckets == old(Buckets) || fresh(Buckets))
      ensures NumBuckets == if old(MustGrow(NumBuckets, NumEntries + 1)) then 2 * old(NumBuckets) else old(NumBuckets)
      ensures TableInserted(inf, old(Buckets[..]), Buckets[..], k, v)
      ensures i < Buckets.Length && Buckets[i] == Bucket(k, v)
      ensures old(NumBuckets >= 8 && !Full(inf, Buckets[..])) ==> Roomy(inf, Buckets[..])
      ensures !old(MustGrow(NumBuckets, NumEntries + 1) || MustRehash(NumBuckets, NumEntries + 1, NumTombstones)) ==>
        PutAt(old(Buckets[..]), Buckets[..], bucket, Bucket(k, v)) && i == bucket
      ensures old(MustGrow(NumBuckets, NumEntries + 1) || MustRehash(NumBuckets, NumEntries + 1, NumTombstones)) ==>
        fresh(Buckets) && NumTombstones == 0
    {
      hide IsTable, Unique, Contents, LiveCount, TombstoneCount, Kept, Probe, CanTake, Absent, Roomy,
           TableInserted, Full, IsReusable, IsEmpty, AfterRules;
      ghost var b0 := Buckets[..];
      NumEntries := NumEntries + 1;
      i := MakeRoom(k, bucket);
      PutNew(i, k, v, b0);
    }

    /** The start of an insertion, which has counted itself: the growth rules, and the bucket to use. */
    method MakeRoom(k: int, bucket: nat) returns (i: nat)
      requires Linked() && GoodKey(inf, k) && 1 <= NumBuckets <= 0x2000_0000
      requires NumEntries == LiveCount(inf, Buckets[..]) + 1 && NumTombstones == TombstoneCount(inf, Buckets[..])
      requires Probe(inf, Buckets[..], k) == Vacant(bucket)
      modifies this
      ensures Linked() && (Buckets == old(Buckets) || fresh(Buckets)) && i < NumBuckets
      ensures NumBuckets == if old(MustGrow(NumBuckets, NumEntries)) then 2 * old(NumBuckets) else old(NumBuckets)
      ensures NumEntries == LiveCount(inf, Buckets[..]) + 1 && NumTombstones == TombstoneCount(inf, Buckets[..])
      ensures CanTake(inf, Buckets[..], k, i) && Absent(inf, Buckets[..], k)
      ensures IsEmpty(inf, Buckets[i]) || IsReusable(inf, Buckets[i])
      ensures AfterRules(inf, old(Buckets[..]), Buckets[..], i)
      ensures Buckets[..] == old(Buckets[..]) || Map() == Kept(inf, old(Map()))
      ensures !old(MustGrow(NumBuckets, NumEntries) || MustRehash(NumBuckets, NumEntries, NumTombstones)) ==>
        Buckets == old(Buckets) && Buckets[..] == old(Buckets[..]) && i == bucket
      ensures old(MustGrow(NumBuckets, NumEntries) || MustRehash(NumBuckets, NumEntries, NumTombstones)) ==>
        fresh(Buckets) && NumTombstones == 0
    {
      hide IsTable, Unique, Contents, LiveCount, TombstoneCount, Kept, Clean, Probe, CanTake, Absent, Doubled,
           IsReusable, IsEmpty;
      ghost var b0, n0 := Buckets[..], NumBuckets;
      VacantFacts(inf, b0, k, bucket);
      i := bucket;
      if NumEntries * 4 >= NumBuckets * 3 {
        DoubledTwice(n0);
        Grow(NumBuckets * 2);
        i := FindInClean(k, b0);
      } else if Spare(NumBuckets, NumEntries, NumTombstones) < NumBuckets / 8 {
        DoubledSame(n0);
        Grow(NumBuckets);
        i := FindInClean(k, b0);
      }
    }

    /** The end of an insertion: the counters, and the bucket. */
    method PutNew(i: nat, k: int, v: int, ghost b0: seq<Bucket>)
      requires Linked() && i < NumBuckets && NumEntries == LiveCount(inf, Buckets[..]) + 1
      requires NumTombstones == TombstoneCount(inf, Buckets[..]) && GoodKey(inf, k)
      requires CanTake(inf, Buckets[..], k, i) && Absent(inf, Buckets[..], k)
      requires IsEmpty(inf, Buckets[i]) || IsReusable(inf, Buckets[i])
      requires IsTable(inf, b0) && (Buckets[..] == b0 || Map() == Kept(inf, Contents(inf, b0)))
      requires 1 <= |b0| <= 0x2000_0000 && AfterRules(inf, b0, Buckets[..], i)
      modifies this`NumEntries, this`NumTombstones, Buckets
      ensures Valid() && TableInserted(inf, b0, Buckets[..], k, v)
        && PutAt(old(Buckets[..]), Buckets[..], i, Bucket(k, v))
      ensures |b0| >= 8 && !Full(inf, b0) ==> Roomy(inf, Buckets[..])
      ensures NumTombstones <= old(NumTombstones)
    {
      hide IsTable, Unique, Contents, LiveCount, TombstoneCount, Kept, CanTake, Absent, Roomy, TableInserted, Full,
           AfterRules;
      ghost var b := Buckets[..];
      TableFacts(inf, b);
      if Buckets[i].first != inf.emptyKey {
        if Buckets[i].first == inf.tombstoneKey {
          TombstoneThere(inf, b, i);
          NumTombstones := NumTombstones - 1;
        } else {
          NumEntries := NumEntries - 1;
        }
      }
      Buckets[i] := Bucket(k, v);
      CountChange(inf, b, i, Bucket(k, v));
      PutKeepsTable(inf, b, Buckets[..], k, v, i);
      PutIsInserted(inf, b0, b, Buckets[..], k, v, i);
      RoomAfter(inf, b0, b, Buckets[..], i, Bucket(k, v));
    }

    /** The second lookup of an insertion, in the table just grown. */
    method FindInClean(k: int, ghost b0: seq<Bucket>) returns (i: nat)
      requires Linked() && Clean(inf, Buckets[..]) && NumBuckets <= 0x8000_0000 && GoodKey(inf, k)
      requires IsTable(inf, b0) && Absent(inf, b0, k) && Map() == Kept(inf, Contents(inf, b0))
      requires LiveCount(inf, Buckets[..]) < NumBuckets && TombstoneCount(inf, Buckets[..]) == 0
      ensures i < NumBuckets && IsEmpty(inf, Buckets[i]) && CanTake(inf, Buckets[..], k, i)
        && Absent(inf, Buckets[..], k)
    {
      hide IsTable, Unique, Contents, LiveCount, TombstoneCount, Kept, Clean, Probe, CanTake, Absent;
      CleanReady(inf, b0, Buckets[..], k);
      var r := LookupBucketFor(k);
      i := r.i;
    }

    /** FindAndConstruct, which operator[] is: the key's bucket, made with value 0 if need be. */
    method FindAndConstruct(k: int) returns (aborted: bool, i: nat)
      requires Valid() && GoodKey(inf, k) && NumBuckets <= 0x2000_0000
      modifies this, Buckets
      ensures Valid() && (Buckets == old(Buckets) || fresh(Buckets))
      ensures aborted <==> old(Full(inf, Buckets[..]) && Absent(inf, Buckets[..], k))
      ensures aborted || old(k in Map()) ==> Buckets == old(Buckets) && Buckets[..] == old(Buckets[..])
      ensures !aborted ==> i < Buckets.Length && Buckets[i].first == k
      ensures !aborted ==> SameValues(inf, old(Buckets[..]), Buckets[..])
      ensures old(Roomy(inf, Buckets[..])) ==> !aborted && Roomy(inf, Buckets[..])
    {
      hide IsTable, Unique, Contents, LiveCount, TombstoneCount, Absent, Roomy, TableInserted, SameValues, Full, Probe;
      ghost var b0 := Buckets[..];
      LookupFacts(inf, b0, k);
      i := 0;
      var r := LookupBucketFor(k);
      aborted := r.Fatal?;
      if r.Found? {
        i := r.i;
        Unmoved(inf, b0);
      } else if r.Vacant? {
        i := InsertIntoBucket(k, 0, r.i);
        InsertedZero(inf, b0, Buckets[..], k);
      }
    }

    /** Writing through the reference that operator[] returns. */
    method SetValue(i: nat, v: int)
      requires Valid() && i < Buckets.Length && IsLive(inf, Buckets[i])
      modifies Buckets
      ensures Valid() && Map() == old(Map()[Buckets[i].first := v])
      ensures old(Roomy(inf, Buckets[..])) ==> Roomy(inf, Buckets[..])
    {
      hide IsTable, Unique, Contents, LiveCount, TombstoneCount;
      ghost var b := Buckets[..];
      Buckets[i] := Bucket(Buckets[i].first, v);
      CountChange(inf, b, i, Bucket(b[i].first, v));
      SetKeepsTable(inf, b, Buckets[..], i, v);
    }

    /** insert: a pair whose key is new. */
    method Insert(k: int, v: int) returns (aborted: bool, inserted: bool)
      requires Valid() && GoodKey(inf, k) && NumBuckets <= 0x2000_0000
      modifies this, Buckets
      ensures Valid() && (Buckets == old(Buckets) || fresh(Buckets))
      ensures aborted <==> old(Full(inf, Buckets[..]) && Absent(inf, Buckets[..], k))
      ensures inserted <==> !aborted && k !in old(Map())
      ensures inserted ==> TableInserted(inf, old(Buckets[..]), Buckets[..], k, v)
      ensures !inserted ==> Buckets == old(Buckets) && Buckets[..] == old(Buckets[..])
      ensures old(Roomy(inf, Buckets[..])) ==> !aborted && Roomy(inf, Buckets[..])
      ensures old(LeavesInPlace(NumBuckets, NumEntries, NumTombstones)) && inserted ==>
        PutProbed(inf, old(Buckets[..]), Buckets[..], k, Bucket(k, v))
      ensures inserted ==>
        NumBuckets == if old(MustGrow(NumBuckets, NumEntries + 1)) then 2 * old(NumBuckets) else old(NumBuckets)
    {
      hide IsTable, Unique, Contents, LiveCount, TombstoneCount, Absent, Roomy, TableInserted, Full, Probe, PutAt;
      ghost var b0 := Buckets[..];
      LookupFacts(inf, b0, k);
      var r := LookupBucketFor(k);
      aborted, inserted := r.Fatal?, false;
      if r.Vacant? {
        var i := InsertIntoBucket(k, v, r.i);
        inserted := true;
      }
    }

    /** erase: leaves a tombstone. */
    method Erase(k: int) returns (aborted: bool, erased: bool)
      requires Valid() && GoodKey(inf, k) && NumBuckets <= 0x8000_0000
      modifies this, Buckets
      ensures Valid() && Buckets == old(Buckets) && NumBuckets == old(NumBuckets)
      ensures aborted <==> old(Full(inf, Buckets[..]) && Absent(inf, Buckets[..], k))
      ensures erased <==> k in old(Map())
      ensures Map() == old(Map()) - {k}
      ensures !erased ==> Buckets[..] == old(Buckets[..])
      ensures erased ==> exists v :: PutProbed(inf, old(Buckets[..]), Buckets[..], k, Bucket(inf.tombstoneKey, v))
      ensures old(Roomy(inf, Buckets[..])) ==> !aborted && Roomy(inf, Buckets[..])
    {
      hide IsTable, Unique, Contents, LiveCount, TombstoneCount, Absent, Roomy, Full, Probe;
      ghost var b := Buckets[..];
      LookupFacts(inf, b, k);
      var r := LookupBucketFor(k);
      aborted, erased := r.Fatal?, r.Found?;
      if r.Found? {
        var v := Buckets[r.i].second;
        Buckets[r.i] := Bucket(inf.tombstoneKey, v);
        TakenCounts(inf, b, Buckets[..], r.i, v);
        NumEntries := NumEntries - 1;
        NumTombstones := NumTombstones + 1;
        TakeKeepsTable(inf, b, Buckets[..], r.i, v);
        assert PutProbed(inf, b, Buckets[..], k, Bucket(inf.tombstoneKey, v));
      }
    }

    /** lookup: the value, or the default. */
    method Lookup(k: int) returns (aborted: bool, v: int)
      requires Valid() && GoodKey(inf, k) && NumBuckets <= 0x8000_0000
      ensures aborted <==> Full(inf, Buckets[..]) && Absent(inf, Buckets[..], k)
      ensures !aborted ==> v == Value(Map(), k)
      ensures Roomy(inf, Buckets[..]) ==> !aborted
    {
      hide IsTable, Unique, Contents, LiveCount, TombstoneCount, Absent, Roomy, Full, Probe;
      LookupFacts(inf, Buckets[..], k);
      var r := LookupBucketFor(k);
      aborted := r.Fatal?;
      v := if r.Found? then Buckets[r.i].second else 0;
    }

    /** resize */
    method Resize(size: nat)
      requires Valid() && NumBuckets <= 0x4000_0000 && size <= 0x4000_0000
      modifies this
      ensures Valid() && fresh(Buckets) && NumBuckets >= old(NumBuckets) && NumBuckets >= size
      ensures NumBuckets == old(NumBuckets) || NumBuckets < 2 * size
      ensures Map() == Kept(inf, old(Map()))
      ensures old(Roomy(inf, Buckets[..])) ==> Roomy(inf, Buckets[..])
    {
      hide IsTable, Unique, Contents, LiveCount, TombstoneCount, Kept, Clean, Doubled;
      SizeFitsDoubled(inf, Buckets[..], size);
      ghost var b0 := Buckets[..];
      Grow(size);
      MoreRoom(LiveCount(inf, b0), TombstoneCount(inf, b0), |b0|, LiveCount(inf, Buckets[..]), NumBuckets);
    }

    /** clear */
    method Clear()
      requires Valid() && NumBuckets <= 0x8000_0000
      modifies this, Buckets
      ensures Valid() && (Buckets == old(Buckets) || fresh(Buckets))
      ensures Map() == map[] && NumEntries == 0 && NumTombstones == 0
      ensures NumBuckets <= old(NumBuckets)
      ensures NumBuckets != old(NumBuckets) ==>
        && 64 < old(NumBuckets) && 4 * old(NumEntries) < old(NumBuckets) && old(NumEntries + NumTombstones) > 0
        && (old(NumEntries) <= 32 <==> NumBuckets == 64)
        && (old(NumEntries) > 32 ==> 2 * old(NumEntries) <= NumBuckets < 4 * old(NumEntries))
      ensures old(NumEntries + NumTombstones > 0 && NumEntries * 4 < NumBuckets && NumBuckets > 64) ==>
        NumBuckets < old(NumBuckets)
      ensures old(NumBuckets) >= 8 ==> Roomy(inf, Buckets[..])
    {
      hide IsTable, Unique, Contents, LiveCount, TombstoneCount, Roomy;
      ghost var b := Buckets[..];
      if NumEntries == 0 && NumTombstones == 0 {
        NothingLive(inf, b);
        return;
      }
      if NumEntries * 4 < NumBuckets && NumBuckets > 64 {
        ShrinkAndClear();
        return;
      }
      LiveStart(inf, b);
      var p := 0;
      while p < NumBuckets
        invariant 0 <= p <= NumBuckets == Buckets.Length == |b| && Buckets == old(Buckets)
        invariant forall i :: 0 <= i < p ==> IsEmpty(inf, Buckets[i])
        invariant forall i :: p <= i < |b| ==> Buckets[i] == b[i]
        invariant NumEntries == LiveCount(inf, b) - LiveCount(inf, b[..p])
      {
        LiveOneMore(inf, b, p);
        if Buckets[p].first != inf.emptyKey {
          if Buckets[p].first != inf.tombstoneKey {
            NumEntries := NumEntries - 1;
          }
          Buckets[p] := Bucket(inf.emptyKey, Buckets[p].second);
        }
        p := p + 1;
      }
      assert b[..p] == b;
      NumTombstones := 0;
      TableFacts(inf, b);
      AllEmptyTable(inf, Buckets[..]);
      EmptyIsRoomy(inf, Buckets[..]);
    }

    /** shrink_and_clear */
    method ShrinkAndClear()
      requires Valid() && 64 < NumBuckets <= 0x8000_0000 && NumEntries * 4 < NumBuckets
      modifies this
      ensures Valid() && fresh(Buckets) && Map() == map[] && NumEntries == 0 && NumTombstones == 0
      ensures 64 <= NumBuckets < old(NumBuckets)
      ensures old(NumEntries) <= 32 <==> NumBuckets == 64
      ensures old(NumEntries) > 32 ==> 2 * old(NumEntries) <= NumBuckets < 4 * old(NumEntries)
      ensures Roomy(inf, Buckets[..])
    {
      hide IsTable, Unique, Contents, LiveCount, TombstoneCount, Roomy;
      TableFacts(inf, Buckets[..]);
      var log := LeadingZeros.Log2Ceil32(NumEntries);
      ShrunkSize(NumEntries, NumBuckets, log);
      NumBuckets := if NumEntries > 32 then Pow2(log + 1) else 64;
      NumTombstones := 0;
      Buckets := new Bucket[NumBuckets](i => Bucket(inf.emptyKey, 0));
      NumEntries := 0;
      AllEmptyTable(inf, Buckets[..]);
      EmptyIsRoomy(inf, Buckets[..]);
    }

    /** AdvancePastEmptyBuckets */
    method Advance(p: nat) returns (q: nat)
      requires Linked() && p <= Buckets.Length
      ensures p <= q <= Buckets.Length
      ensures q < Buckets.Length ==> IsLive(inf, Buckets[q])
      ensures forall i :: p <= i < q ==> !IsLive(inf, Buckets[i])
    {
      hide IsTable;
      q := p;
      while q != Buckets.Length && (Buckets[q].first == inf.emptyKey || Buckets[q].first == inf.tombstoneKey)
        invariant p <= q <= Buckets.Length
        invariant forall i :: p <= i < q ==> !IsLive(inf, Buckets[i])
      {
        q := q + 1;
      }
    }

    /** Iterating from begin() to end(). */
    method Iterate() returns (visited: seq<Bucket>)
      requires Valid()
      ensures visited == LiveBuckets(inf, Buckets[..]) && |visited| == NumEntries
    {
      hide IsTable, LiveBuckets, LiveCount, TombstoneCount;
      ghost var b := Buckets[..];
      visited := [];
      LiveBucketsCount(inf, b);
      if NumEntries == 0 {
        return;
      }
      var p := Advance(0);
      SkipDead(inf, b, 0, p);
      while p != Buckets.Length
        invariant p <= Buckets.Length && (p < Buckets.Length ==> IsLive(inf, Buckets[p]))
        invariant visited == LiveBuckets(inf, b[..p])
      {
        visited := visited + [Buckets[p]];
        OneMoreLive(inf, b, p);
        var q := Advance(p + 1);
        SkipDead(inf, b, p + 1, q);
        p := q;
      }
      assert b[..p] == b;
    }
  }

  ghost predicate PutAt(b0: seq<Bucket>, b1: seq<Bucket>, i: nat, x: Bucket) {
    i < |b0| && b1 == b0[i := x]
  }

  /** The bucket that probing for k leads to is replaced by x. */
  ghost predicate PutProbed(inf: Info, b0: seq<Bucket>, b1: seq<Bucket>, k: int, x: Bucket) {
    |b0| >= 1 && !Probe(inf, b0, k).Fatal? && PutAt(b0, b1, Probe(inf, b0, k).i, x)
  }

  // ---- Growing ------------------------------------------------------------------------------

  /** n doubled until it is at least the given size. */
  function Doubled(n: nat, atLeast: nat): (d: nat)
    requires n >= 1
    decreases atLeast - n
  {
    if n < atLeast then Doubled(2 * n, atLeast) else n
  }

  lemma {:induction false} DoubledPow2(m: nat, atLeast: nat)
    ensures IsPow2(Doubled(Pow2(m), atLeast))
    ensures Pow2(m) <= Doubled(Pow2(m), atLeast) && atLeast <= Doubled(Pow2(m), atLeast)
    ensures Doubled(Pow2(m), atLeast) == Pow2(m) || Doubled(Pow2(m), atLeast) < 2 * atLeast
    decreases atLeast - Pow2(m)
  {
    if Pow2(m) < atLeast {
      assert 2 * Pow2(m) == Pow2(m + 1);
      DoubledPow2(m + 1, atLeast);
    }
  }

  lemma DoubledFits(n: nat, atLeast: nat, inf: Info, b: seq<Bucket>)
    requires IsTable(inf, b) && |b| == n <= 0x4000_0000 && atLeast <= 0x4000_0000
    ensures n >= 1 && GoodInfo(inf) && Unique(inf, b)
    ensures IsPow2(Doubled(n, atLeast)) && n <= Doubled(n, atLeast) <= 0x8000_0000
  {
    hide Unique, Hashed, Doubled;
    var m: nat :| n == Pow2(m);
    DoubledPow2(m, atLeast);
  }

  lemma DoubledStep(n: nat, atLeast: nat)
    requires 1 <= n < atLeast
    ensures Doubled(n * 2, atLeast) == Doubled(n, atLeast)
  {
    assert n * 2 == 2 * n;
  }

  lemma DoubledEnd(n: nat, atLeast: nat)
    requires n >= 1 && n >= atLeast
    ensures Doubled(n, atLeast) == n
  {
  }

  lemma DoubledTwice(n: nat)
    requires n >= 1
    ensures Doubled(n, n * 2) == 2 * n
  {
    assert Doubled(2 * n, n * 2) == 2 * n;
  }

  lemma DoubledSame(n: nat)
    requires n >= 1
    ensures Doubled(n, n) == n
  {
  }

  lemma ZeroStart(inf: Info, b: seq<Bucket>)
    ensures ZeroCount(inf, b[..0]) == 0
  {
  }

  lemma MovedTable(inf: Info, olds: seq<Bucket>, t: nat, b: seq<Bucket>)
    requires Moved(inf, olds, t, b)
    ensures IsTable(inf, b)
  {
  }

  lemma EntriesLeft(inf: Info, b: seq<Bucket>, t: nat)
    requires t < |b|
    ensures ZeroCount(inf, b[..t]) + One(IsPurged(inf, b[t])) <= LiveCount(inf, b)
  {
    CountsOneMore(inf, b, t);
    ZeroAtMostLive(inf, b[..t + 1]);
    LivePrefix(inf, b, t + 1);
  }

  lemma {:induction false} ZeroAtMostLive(inf: Info, b: seq<Bucket>)
    ensures ZeroCount(inf, b) <= LiveCount(inf, b)
  {
    if b != [] {
      ZeroAtMostLive(inf, b[..|b| - 1]);
    }
  }

  lemma {:induction false} LivePrefix(inf: Info, b: seq<Bucket>, t: nat)
    requires t <= |b|
    ensures LiveCount(inf, b[..t]) <= LiveCount(inf, b)
    decreases |b| - t
  {
    if t < |b| {
      CountsOneMore(inf, b, t);
      LivePrefix(inf, b, t + 1);
    } else {
      assert b[..t] == b;
    }
  }

  // ---- Inserting ----------------------------------------------------------------------------

  lemma VacantFacts(inf: Info, b: seq<Bucket>, k: int, i: nat)
    requires IsTable(inf, b) && GoodKey(inf, k) && Probe(inf, b, k) == Vacant(i)
    ensures |b| >= 1 && i < |b| && CanTake(inf, b, k, i) && Absent(inf, b, k)
    ensures IsEmpty(inf, b[i]) || IsReusable(inf, b[i])
    ensures GoodInfo(inf)
  {
    hide Probe, Absent, Contents, Reaches;
    ProbeExact(inf, b, k);
  }

  lemma CleanReady(inf: Info, b0: seq<Bucket>, b: seq<Bucket>, k: int)
    requires IsTable(inf, b0) && IsTable(inf, b) && Clean(inf, b) && GoodKey(inf, k) && Absent(inf, b0, k)
    requires Contents(inf, b) == Kept(inf, Contents(inf, b0))
    requires LiveCount(inf, b) < |b| && TombstoneCount(inf, b) == 0
    ensures |b| >= 1 && Probe(inf, b, k).Vacant?
    ensures var i := Probe(inf, b, k).i; i < |b| && IsEmpty(inf, b[i]) && CanTake(inf, b, k, i) && Absent(inf, b, k)
  {
    OnlyBuckets(inf, b0, k);
    SomeEmpty(inf, b);
    assert k !in Contents(inf, b);
    hide IsTable, Contents, LiveCount, TombstoneCount, Reaches, Unique, Kept, Probe;
    TableFacts(inf, b);
    ProbeExact(inf, b, k);
  }

  lemma TableFacts(inf: Info, b: seq<Bucket>)
    requires IsTable(inf, b)
    ensures GoodInfo(inf) && IsPow2(|b|) && |b| >= 1 && Unique(inf, b)
  {
  }

  lemma TombstoneThere(inf: Info, b: seq<Bucket>, i: nat)
    requires i < |b| && IsTombstone(inf, b[i])
    ensures TombstoneCount(inf, b) >= 1
  {
    CountChange(inf, b, i, b[i]);
    hide TombstoneCount, LiveCount;
    CountChange(inf, b, i, Bucket(inf.emptyKey, 0));
    if TombstoneCount(inf, b) == 0 {
      assert TombstoneCount(inf, b[i := Bucket(inf.emptyKey, 0)]) >= 0;
    }
  }

  /** After an insertion the map is the old one with the key set, but for dropped zeros. */
  ghost predicate TableInserted(inf: Info, b0: seq<Bucket>, b1: seq<Bucket>, k: int, v: int) {
    IsTable(inf, b0) && IsTable(inf, b1) && Inserted(inf, Contents(inf, b0), Contents(inf, b1), k, v)
  }

  lemma PutIsInserted(inf: Info, b0: seq<Bucket>, b: seq<Bucket>, b2: seq<Bucket>, k: int, v: int, i: nat)
    requires IsTable(inf, b0) && IsTable(inf, b) && IsTable(inf, b2) && i < |b|
    requires b == b0 || Contents(inf, b) == Kept(inf, Contents(inf, b0))
    requires IsEmpty(inf, b[i]) || IsReusable(inf, b[i])
    requires Contents(inf, b2) == (Contents(inf, b) - {b[i].first})[k := v]
    ensures TableInserted(inf, b0, b2, k, v)
  {
    hide IsTable, Contents, Unique, Kept, Inserted;
    TableFacts(inf, b0);
    TableFacts(inf, b);
    TableFacts(inf, b2);
    NoReserved(inf, b);
    if IsLive(inf, b[i]) {
      LiveContents(inf, b, i);
    }
    MapInserted(inf, Contents(inf, b0), Contents(inf, b), Contents(inf, b2), b[i].first, k, v);
  }

  lemma MapInserted(inf: Info, c0: map<int, int>, c: map<int, int>, c2: map<int, int>, dropped: int, k: int, v: int)
    requires c == c0 || c == Kept(inf, c0)
    requires dropped in c ==> inf.purgeable && c[dropped] == 0
    requires c2 == (c - {dropped})[k := v]
    ensures Inserted(inf, c0, c2, k, v)
  {
    assert forall x :: x in c ==> x in c0 && c[x] == c0[x];
    assert forall x :: x in c0 && x !in c ==> inf.purgeable && c0[x] == 0;
    hide Kept;
    assert forall x :: x in c2 <==> x == k || (x in c && x != dropped);
  }

  /** The three-quarters and one-eighth rules leave an eighth of the buckets empty. */
  lemma RoomAfter(inf: Info, b0: seq<Bucket>, b: seq<Bucket>, b2: seq<Bucket>, i: nat, v: Bucket)
    requires GoodInfo(inf) && 1 <= |b0| <= 0x2000_0000 && i < |b| && b2 == b[i := v] && IsLive(inf, v)
    requires IsEmpty(inf, b[i]) || IsReusable(inf, b[i])
    requires AfterRules(inf, b0, b, i)
    ensures |b0| >= 8 && !Full(inf, b0) ==> Roomy(inf, b2)
  {
    hide LiveCount, TombstoneCount, Full, MustGrow, MustRehash;
    SomeEmpty(inf, b0);
    SomeEmpty(inf, b);
    CountChange(inf, b, i, v);
    if |b0| >= 8 && !Full(inf, b0) {
      RoomArithmetic(|b0|, LiveCount(inf, b0), TombstoneCount(inf, b0), |b|, LiveCount(inf, b), TombstoneCount(inf, b),
                     LiveCount(inf, b2), TombstoneCount(inf, b2));
    }
  }

  /** b is b0, or what b0 was grown or rehashed to when the rules asked for it. */
  ghost predicate AfterRules(inf: Info, b0: seq<Bucket>, b: seq<Bucket>, i: nat)
    requires i < |b|
  {
    var n, e, t := |b0|, LiveCount(inf, b0), TombstoneCount(inf, b0);
    if MustGrow(n, e + 1) || MustRehash(n, e + 1, t) then
      && |b| == (if MustGrow(n, e + 1) then 2 * n else n)
      && LiveCount(inf, b) <= e && TombstoneCount(inf, b) == 0
    else b == b0
  }

  lemma RoomArithmetic(n: nat, e: nat, t: nat, n1: nat, e1: nat, t1: nat, e2: nat, t2: nat)
    requires 8 <= n <= 0x2000_0000 && e + t < n
    requires if MustGrow(n, e + 1) || MustRehash(n, e + 1, t) then
        n1 == (if MustGrow(n, e + 1) then 2 * n else n) && e1 <= e && t1 == 0
      else n1 == n && e1 == e && t1 == t
    requires e2 + t2 <= e1 + t1 + 1
    ensures n1 >= 8 && n1 / 8 <= n1 - e2 - t2
  {
    SpareIs(n, e + 1, t);
    hide Spare;
  }

  lemma SpareIs(n: nat, e: nat, t: nat)
    requires e + t <= n <= 0x2000_0000
    ensures Spare(n, e, t) == n - (e + t)
  {
  }

  /** The rules in plain numbers: with the new entry the table is three quarters full, or less than
      an eighth of it would be empty. */
  lemma LoadRules(n: nat, e: nat, t: nat)
    requires e + t < n <= 0x2000_0000
    ensures MustGrow(n, e + 1) <==> 4 * (e + 1) >= 3 * n
    ensures MustRehash(n, e + 1, t) <==> 4 * (e + 1) < 3 * n && n - (e + 1) - t < n / 8
    ensures LeavesInPlace(n, e, t) <==> 4 * (e + 1) < 3 * n && n - (e + 1) - t >= n / 8
  {
    SpareIs(n, e + 1, t);
  }

  lemma TableSize(inf: Info, b: seq<Bucket>)
    requires IsTable(inf, b)
    ensures |b| >= 1
  {
  }

  lemma ProbeStart(inf: Info, b: seq<Bucket>, k: int)
    requires |b| >= 1
    ensures Wrap32(inf.hash(k)) == Wrap32(inf.hash(k) + Tri(0))
    ensures Probe(inf, b, k) == Scan(inf, b, k, 0, -1)
  {
  }

  /** Masking the wrapped-round bucket number gives the probe. */
  lemma MaskedProbe(inf: Info, b: seq<Bucket>, k: int, j: nat)
    requires IsTable(inf, b) && 1 <= |b| <= 0x8000_0000
    ensures Masked(Wrap32(inf.hash(k) + Tri(j)), |b|) == ProbeAt(inf, |b|, k, j)
  {
    hide Unique, Hashed, Tri;
    var m: nat :| |b| == Pow2(m);
    Pow2Constants();
    if m > 31 {
      Pow2Monotone(32, m);
    }
    Pow2Add(m, 32 - m);
    ModMod(inf.hash(k) + Tri(j), Pow2(m), Pow2(32 - m));
  }

  lemma NextBucketNo(h: int, j: nat)
    ensures Wrap32(Wrap32(h + Tri(j)) + (j + 1)) == Wrap32(h + Tri(j + 1))
  {
    TriStep(j);
    hide Tri;
    ModAdd(h + Tri(j), j + 1, TWO32);
  }

  /** One round of the loop. */
  lemma ScanStep(inf: Info, b: seq<Bucket>, k: int, j: nat, reusable: int, e: Bucket)
    requires |b| >= 1 && j < |b| && -1 <= reusable < |b| && e == b[ProbeAt(inf, |b|, k, j)]
    ensures var i := ProbeAt(inf, |b|, k, j);
      && (e.first == k ==> Scan(inf, b, k, j, reusable) == Found(i))
      && (e.first != k && e.first == inf.emptyKey ==>
            Scan(inf, b, k, j, reusable) == Vacant(if reusable != -1 then reusable else i))
      && (e.first != k && e.first != inf.emptyKey ==>
            Scan(inf, b, k, j, reusable) == Scan(inf, b, k, j + 1, Remembered(inf, e, i, reusable)))
  {
    hide ProbeAt;
  }

  lemma ScanEnd(inf: Info, b: seq<Bucket>, k: int, j: nat, reusable: int)
    requires 1 <= |b| <= j && -1 <= reusable < |b|
    ensures Scan(inf, b, k, j, reusable) == Fatal
  {
  }

  function Remembered(inf: Info, e: Bucket, i: nat, reusable: int): (r: int)
    ensures r == reusable || r == i
  {
    if reusable == -1 && IsReusable(inf, e) then i else reusable
  }

  lemma RemembersReusable(inf: Info, e: Bucket, i: nat, before: int, after: int)
    requires after == if before != -1 then before
                      else if e.first == inf.tombstoneKey || (inf.purgeable && e.second == 0) then i else -1
    ensures after == Remembered(inf, e, i, before)
  {
  }

  // ---- The public operations ----------------------------------------------------------------

  predicate LeavesInPlace(buckets: nat, entries: nat, tombstones: nat) {
    !MustGrow(buckets, entries + 1) && !MustRehash(buckets, entries + 1, tombstones)
  }

  lemma LookupFacts(inf: Info, b: seq<Bucket>, k: int)
    requires IsTable(inf, b) && GoodKey(inf, k)
    ensures |b| >= 1 && Unique(inf, b) && GoodInfo(inf)
    ensures match Probe(inf, b, k)
      case Found(i) => i < |b| && b[i].first == k && k in Contents(inf, b) && Contents(inf, b)[k] == b[i].second
      case Vacant(i) => i < |b| && k !in Contents(inf, b)
      case Fatal => k !in Contents(inf, b)
    ensures Probe(inf, b, k) == Fatal <==> Full(inf, b) && Absent(inf, b, k)
    ensures Roomy(inf, b) ==> !Full(inf, b) && |b| >= 8
    ensures k !in Contents(inf, b) ==> Contents(inf, b) - {k} == Contents(inf, b)
  {
    hide Probe, Contents, Absent, Reaches, LiveCount, TombstoneCount, Unique, Hashed;
    var m: nat :| |b| == Pow2(m);
    ProbeExact(inf, b, k);
    ProbeFatal(inf, b, k, m);
    SomeEmpty(inf, b);
  }

  /** Every key has the same value, an absent key having 0. */
  ghost predicate SameValues(inf: Info, b0: seq<Bucket>, b1: seq<Bucket>) {
    && IsTable(inf, b0) && IsTable(inf, b1)
    && (forall x :: Value(Contents(inf, b1), x) == Value(Contents(inf, b0), x))
    && (forall x :: x in Contents(inf, b0) && x !in Contents(inf, b1) ==> inf.purgeable && Contents(inf, b0)[x] == 0)
  }

  lemma Unmoved(inf: Info, b: seq<Bucket>)
    requires IsTable(inf, b)
    ensures SameValues(inf, b, b)
  {
  }

  /** operator[] changes no key's value. */
  lemma InsertedZero(inf: Info, b0: seq<Bucket>, b1: seq<Bucket>, k: int)
    requires TableInserted(inf, b0, b1, k, 0) && IsTable(inf, b0) && Unique(inf, b0) && k !in Contents(inf, b0)
    ensures SameValues(inf, b0, b1)
  {
    TableFacts(inf, b1);
    hide IsTable, Unique, Contents;
    forall x ensures Value(Contents(inf, b1), x) == Value(Contents(inf, b0), x) {
      InsertedValue(inf, Contents(inf, b0), Contents(inf, b1), k, 0, x);
    }
  }

  lemma TakenCounts(inf: Info, b: seq<Bucket>, b': seq<Bucket>, i: nat, v: int)
    requires GoodInfo(inf) && i < |b| && IsLive(inf, b[i]) && b' == b[i := Bucket(inf.tombstoneKey, v)]
    ensures LiveCount(inf, b') == LiveCount(inf, b) - 1 && LiveCount(inf, b) >= 1
    ensures TombstoneCount(inf, b') == TombstoneCount(inf, b) + 1
    ensures Roomy(inf, b) ==> Roomy(inf, b')
    ensures PutAt(b, b', i, Bucket(inf.tombstoneKey, v))
  {
    CountChange(inf, b, i, Bucket(inf.tombstoneKey, v));
    hide LiveCount, TombstoneCount;
  }

  lemma SizeFitsDoubled(inf: Info, b: seq<Bucket>, size: nat)
    requires IsTable(inf, b)
    ensures |b| >= 1 && Doubled(|b|, size) >= |b| && Doubled(|b|, size) >= size
    ensures Doubled(|b|, size) == |b| || Doubled(|b|, size) < 2 * size
  {
    hide Unique, Hashed;
    var m: nat :| |b| == Pow2(m);
    DoubledPow2(m, size);
  }

  lemma MoreRoom(e: nat, t: nat, n: nat, e1: nat, n1: nat)
    requires e1 <= e && n <= n1
    ensures n >= 8 && n / 8 <= n - e - t ==> n1 >= 8 && n1 / 8 <= n1 - e1
  {
  }

  lemma NothingLive(inf: Info, b: seq<Bucket>)
    requires IsTable(inf, b) && LiveCount(inf, b) == 0 && TombstoneCount(inf, b) == 0
    ensures Unique(inf, b) && Contents(inf, b) == map[]
    ensures |b| >= 8 ==> Roomy(inf, b)
  {
    SizeIsLiveCount(inf, b);
  }

  lemma LiveStart(inf: Info, b: seq<Bucket>)
    requires IsTable(inf, b)
    ensures LiveCount(inf, b[..0]) == 0
  {
  }

  lemma LiveOneMore(inf: Info, b: seq<Bucket>, p: nat)
    requires p < |b|
    ensures LiveCount(inf, b[..p + 1]) == LiveCount(inf, b[..p]) + One(IsLive(inf, b[p])) <= LiveCount(inf, b)
  {
    CountsOneMore(inf, b, p);
    LivePrefix(inf, b, p + 1);
  }

  lemma EmptyIsRoomy(inf: Info, b: seq<Bucket>)
    requires LiveCount(inf, b) == 0 && TombstoneCount(inf, b) == 0
    ensures |b| >= 8 ==> Roomy(inf, b)
  {
  }

  /** The shrunken size is a power of two below the old size: 64 for up to 32 entries, else from
      twice to less than four times the entries. */
  lemma ShrunkSize(entries: nat, buckets: nat, log: nat)
    requires 64 < buckets <= 0x8000_0000 && entries * 4 < buckets
    requires entries >= 1 ==> entries <= Pow2(log) && forall i: nat :: entries <= Pow2(i) ==> log <= i
    ensures var n := if entries > 32 then Pow2(log + 1) else 64;
      && IsPow2(n) && 64 <= n < buckets
      && (entries <= 32 <==> n == 64)
      && (entries > 32 ==> 2 * entries <= n < 4 * entries)
  {
    Pow2Constants();
    if entries > 32 {
      Pow2Strict(5, log);
      var half: nat := log - 1;
      assert entries <= Pow2(half) ==> log <= half;
      assert Pow2(log + 1) == 4 * Pow2(half);
      Pow2Monotone(6, log + 1);
    } else {
      assert IsPow2(64);
    }
  }

  // ---- Iteration ----------------------------------------------------------------------------

  /** The live buckets, in the order of the array. */
  function LiveBuckets(inf: Info, b: seq<Bucket>): (l: seq<Bucket>) {
    if b == [] then []
    else LiveBuckets(inf, b[..|b| - 1]) + (if IsLive(inf, b[|b| - 1]) then [b[|b| - 1]] else [])
  }

  lemma {:induction false} LiveBucketsCount(inf: Info, b: seq<Bucket>)
    ensures |LiveBuckets(inf, b)| == LiveCount(inf, b)
  {
    if b != [] {
      LiveBucketsCount(inf, b[..|b| - 1]);
    }
  }

  /** What iteration meets are entries of the map, no key twice. */
  lemma {:induction false} LiveBucketsSound(inf: Info, b: seq<Bucket>, x: nat, y: nat)
    requires Unique(inf, b) && x <= y < |LiveBuckets(inf, b)|
    ensures var l := LiveBuckets(inf, b);
      && l[x].first in Contents(inf, b) && Contents(inf, b)[l[x].first] == l[x].second
      && (x < y ==> l[x].first != l[y].first)
  {
    if b != [] {
      var n := |b| - 1;
      var s := LiveBuckets(inf, b[..n]);
      hide Contents, Unique, LiveBuckets, IsLive;
      PrefixUnique(inf, b, n);
      OneMoreLive(inf, b, n);
      assert b[..n + 1] == b;
      LastEntry(inf, b);
      if x < |s| {
        LiveBucketsSound(inf, b[..n], x, if y < |s| then y else x);
        EntryStays(inf, b, s[x]);
      }
    }
  }

  lemma LastEntry(inf: Info, b: seq<Bucket>)
    requires Unique(inf, b) && b != []
    ensures var x := b[|b| - 1];
      IsLive(inf, x) ==> x.first in Contents(inf, b) && Contents(inf, b)[x.first] == x.second
  {
    hide IsLive;
  }

  /** An entry of all but the last bucket is an entry, and not that of the last bucket. */
  lemma EntryStays(inf: Info, b: seq<Bucket>, x: Bucket)
    requires Unique(inf, b) && b != [] && Unique(inf, b[..|b| - 1])
    requires x.first in Contents(inf, b[..|b| - 1]) && Contents(inf, b[..|b| - 1])[x.first] == x.second
    ensures x.first in Contents(inf, b) && Contents(inf, b)[x.first] == x.second
    ensures IsLive(inf, b[|b| - 1]) ==> x.first != b[|b| - 1].first
  {
    hide Contents, Unique, IsLive;
    var n := |b| - 1;
    ContentsOneMore(inf, b, n);
    assert b[..n + 1] == b;
  }

  /** And every key of the map is met. */
  lemma {:induction false} LiveBucketsComplete(inf: Info, b: seq<Bucket>, k: int)
    requires Unique(inf, b) && k in Contents(inf, b)
    ensures exists x :: 0 <= x < |LiveBuckets(inf, b)| && LiveBuckets(inf, b)[x] == Bucket(k, Contents(inf, b)[k])
  {
    if b != [] {
      var n := |b| - 1;
      var l, s := LiveBuckets(inf, b), LiveBuckets(inf, b[..n]);
      ContentsOneMore(inf, b, n);
      assert b[..n + 1] == b;
      hide Contents, Unique, LiveBuckets;
      OneMoreLive(inf, b, n);
      if IsLive(inf, b[n]) && b[n].first == k {
        assert l[|s|] == Bucket(k, Contents(inf, b)[k]);
      } else {
        LiveBucketsComplete(inf, b[..n], k);
        var x :| 0 <= x < |s| && s[x] == Bucket(k, Contents(inf, b[..n])[k]);
        assert l[x] == s[x];
      }
    }
  }

  lemma OneMoreLive(inf: Info, b: seq<Bucket>, p: nat)
    requires p < |b|
    ensures LiveBuckets(inf, b[..p + 1]) == LiveBuckets(inf, b[..p]) + (if IsLive(inf, b[p]) then [b[p]] else [])
  {
    assert b[..p + 1][..p] == b[..p];
  }

  lemma {:induction false} SkipDead(inf: Info, b: seq<Bucket>, p: nat, q: nat)
    requires p <= q <= |b| && forall i :: p <= i < q ==> !IsLive(inf, b[i])
    ensures LiveBuckets(inf, b[..q]) == LiveBuckets(inf, b[..p])
    ensures LiveBuckets(inf, b[..0]) == []
    decreases q - p
  {
    if p < q {
      SkipDead(inf, b, p, q - 1);
      OneMoreLive(inf, b, q - 1);
    }
  }

  // ---- Tables of fewer than eight buckets ---------------------------------------------------

  /** Integer keys that are their own hashes. */
  const IDENTITY: Info := Info(-1, -2, k => k, false)

  lemma OwnBucket(b: seq<Bucket>, j: nat)
    requires j < |b|
    ensures IsEmpty(IDENTITY, b[j]) ==> Probe(IDENTITY, b, j) == Vacant(j)
    ensures b[j].first == j ==> Probe(IDENTITY, b, j) == Found(j)
  {
    assert Tri(0) == 0;
    ModUnique(j, |b|, 0, j);
    assert ProbeAt(IDENTITY, |b|, j, 0) == j;
  }

  lemma NoLiveNoEntries(inf: Info, b: seq<Bucket>)
    requires Unique(inf, b) && Contents(inf, b) == map[]
    ensures LiveCount(inf, b) == 0
    ensures forall i :: 0 <= i < |b| ==> !IsLive(inf, b[i])
  {
    SizeIsLiveCount(inf, b);
    forall i | 0 <= i < |b| ensures !IsLive(inf, b[i]) {
      if IsLive(inf, b[i]) {
        LiveContents(inf, b, i);
      }
    }
  }

  lemma SmallStays(n: nat, t: nat)
    requires (n == 2 || n == 4) && t < n
    ensures LeavesInPlace(n, 0, t) && !MustGrow(n, 1)
  {
  }

  lemma TombstonesLeaveRoom(inf: Info, b: seq<Bucket>, j: nat)
    requires GoodInfo(inf) && j < |b| && IsEmpty(inf, b[j])
    ensures TombstoneCount(inf, b) < |b|
  {
    SomeEmpty(inf, b);
  }

  /** Insert and erase, in every empty bucket in turn, a key that belongs there. */
  method FillWithTombstones(d: DenseMap)
    requires d.inf == IDENTITY && d.Valid() && (d.NumBuckets == 2 || d.NumBuckets == 4) && d.Map() == map[]
    modifies d, d.Buckets
    ensures d.Valid() && d.Map() == map[] && d.NumBuckets == old(d.NumBuckets)
    ensures Full(d.inf, d.Buckets[..])
  {
    hide IsTable, Unique, Contents, LiveCount, TombstoneCount, Absent, Roomy, TableInserted, Full, Probe,
         LeavesInPlace, MustGrow;
    ghost var a0 := d.Buckets;
    var j := 0;
    while j < d.NumBuckets
      invariant 0 <= j <= d.NumBuckets == old(d.NumBuckets) && d.Valid() && d.Map() == map[]
      invariant d.Buckets == a0 || fresh(d.Buckets)
      invariant forall i :: 0 <= i < j ==> IsTombstone(d.inf, d.Buckets[i])
    {
      if d.Buckets[j].first == d.inf.emptyKey {
        OneTombstoneMore(d, j);
      } else {
        ghost var b := d.Buckets[..];
        TableFacts(d.inf, b);
        NoLiveNoEntries(d.inf, b);
      }
      j := j + 1;
    }
    AllTombstonesFull(d.inf, d.Buckets[..]);
  }

  lemma AllTombstonesFull(inf: Info, b: seq<Bucket>)
    requires IsTable(inf, b) && forall i :: 0 <= i < |b| ==> IsTombstone(inf, b[i])
    ensures Full(inf, b)
  {
  }

  method OneTombstoneMore(d: DenseMap, j: nat)
    requires d.inf == IDENTITY && d.Valid() && (d.NumBuckets == 2 || d.NumBuckets == 4) && d.Map() == map[]
    requires j < d.NumBuckets && d.Buckets[j].first == d.inf.emptyKey
    modifies d, d.Buckets
    ensures d.Valid() && d.Map() == map[] && d.NumBuckets == old(d.NumBuckets)
    ensures d.Buckets == old(d.Buckets) || fresh(d.Buckets)
    ensures IsTombstone(d.inf, d.Buckets[j])
    ensures forall i :: 0 <= i < d.NumBuckets && i != j ==> d.Buckets[i] == old(d.Buckets[i])
  {
    hide IsTable, Unique, Contents, LiveCount, TombstoneCount, Absent, Roomy, Full, Probe, LeavesInPlace, MustGrow,
         TableInserted;
    ghost var b := d.Buckets[..];
    TableFacts(IDENTITY, b);
    NoLiveNoEntries(IDENTITY, b);
    TombstonesLeaveRoom(IDENTITY, b, j);
    SmallStays(d.NumBuckets, d.NumTombstones);
    OwnBucket(b, j);
    NotFull(IDENTITY, b, j);
    var aborted, inserted := d.Insert(j, 0);
    ghost var b1 := d.Buckets[..];
    assert b1 == b[j := Bucket(j, 0)];
    OwnBucket(b1, j);
    OnlyKey(IDENTITY, b, b1, j);
    var erased;
    aborted, erased := d.Erase(j);
  }

  lemma NotFull(inf: Info, b: seq<Bucket>, j: nat)
    requires j < |b| && IsEmpty(inf, b[j])
    ensures !Full(inf, b)
  {
  }

  lemma OnlyKey(inf: Info, b: seq<Bucket>, b1: seq<Bucket>, k: int)
    requires TableInserted(inf, b, b1, k, 0) && Unique(inf, b) && Contents(inf, b) == map[]
    ensures Unique(inf, b1) && k in Contents(inf, b1) && Contents(inf, b1) - {k} == map[]
  {
    assert IsTable(inf, b1);
    TableFacts(inf, b1);
    var c := Contents(inf, b1);
    assert forall x :: x in c ==> x == k;
    assert c - {k} == map[];
  }

  /** A table created with 1, 2 or 4 buckets can be driven into the fatal exit: tombstones fill it
      without ever asking for a rehash, for an eighth of its size is 0. */
  method SmallTableFails(n: nat) returns (aborted: bool)
    requires n == 1 || n == 2 || n == 4
    ensures aborted
  {
    hide IsTable, Unique, Contents, LiveCount, TombstoneCount, Absent, Roomy, Full, IsPow2, GoodInfo, IDENTITY;
    SmallSizes();
    var d := new DenseMap(IDENTITY, n);
    if n == 1 {
      OneBucketGrows(d);
    }
    FillWithTombstones(d);
    NothingFound(IDENTITY, d.Buckets[..], 7);
    var v;
    aborted, v := d.Lookup(7);
  }

  method OneBucketGrows(d: DenseMap)
    requires d.inf == IDENTITY && d.Valid() && d.NumBuckets == 1 && d.Map() == map[]
    requires d.Buckets[..] == [Bucket(IDENTITY.emptyKey, 0)]
    modifies d, d.Buckets
    ensures d.Valid() && d.NumBuckets == 2 && d.Map() == map[]
    ensures d.Buckets == old(d.Buckets) || fresh(d.Buckets)
  {
    hide IsTable, Unique, Contents, LiveCount, TombstoneCount, Absent, Roomy, Full, Probe, LeavesInPlace, TableInserted;
    ghost var b := d.Buckets[..];
    TableFacts(IDENTITY, b);
    NoLiveNoEntries(IDENTITY, b);
    NotFull(IDENTITY, b, 0);
    var aborted, inserted := d.Insert(0, 0);
    OnlyKey(IDENTITY, b, d.Buckets[..], 0);
    var erased;
    aborted, erased := d.Erase(0);
  }

  lemma SmallSizes()
    ensures IsPow2(1) && IsPow2(2) && IsPow2(4)
    ensures GoodInfo(IDENTITY) && GoodKey(IDENTITY, 7)
  {
    assert Pow2(0) == 1 && Pow2(1) == 2 && Pow2(2) == 4;
  }

  lemma NothingFound(inf: Info, b: seq<Bucket>, k: int)
    requires IsTable(inf, b) && Contents(inf, b) == map[] && GoodKey(inf, k)
    ensures Absent(inf, b, k)
  {
    NoLiveNoEntries(inf, b);
  }
}
