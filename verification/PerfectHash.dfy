/** The perfect-hash builder: keys grouped by b in linked lists threaded through the key array,
    and the first-fit search for a scramble index per group. */
module PerfectHash {
  import opened Words

  /** Pointers into the key array are indices; NULL is -1. */
  const NULL: int := -1

  datatype Key = Key(name: seq<Byte>, a: nat, b: nat, nextb: int)
  datatype BStuff = BStuff(val: nat, list: int, listlen: nat, water: nat)
  datatype QStuff = QStuff(b: int, parent: nat, newval: nat, oldval: nat)

  // ---- Linked lists of keys -----------------------------------------------------------------

  /** Every link of the first n keys leads to an earlier key, so that lists end. */
  ghost predicate Threaded(ks: seq<Key>, n: nat)
    requires n <= |ks|
  {
    forall i :: 0 <= i < n ==> NULL <= ks[i].nextb < i
  }

  /** The keys of the list starting at h. */
  ghost function Chain(ks: seq<Key>, h: int): (c: seq<int>)
    requires NULL <= h < |ks| && Threaded(ks, h + 1)
    ensures forall x :: x in c ==> 0 <= x <= h
    decreases h + 1
  {
    if h == NULL then [] else [h] + Chain(ks, ks[h].nextb)
  }

  /** The keys below n with the given b, latest first. */
  ghost function Group(ks: seq<Key>, n: nat, b: nat): (g: seq<int>)
    requires n <= |ks|
    ensures forall x :: x in g <==> 0 <= x < n && ks[x].b == b
  {
    if n == 0 then []
    else if ks[n - 1].b == b then [n - 1] + Group(ks, n - 1, b)
    else Group(ks, n - 1, b)
  }

  ghost predicate SamePairs(ks: seq<Key>, ks': seq<Key>) {
    && |ks| == |ks'|
    && (forall i :: 0 <= i < |ks| ==> ks[i].name == ks'[i].name && ks[i].a == ks'[i].a && ks[i].b == ks'[i].b)
  }

  lemma {:induction false} GroupSame(ks: seq<Key>, ks': seq<Key>, n: nat, b: nat)
    requires SamePairs(ks, ks') && n <= |ks|
    ensures Group(ks, n, b) == Group(ks', n, b)
  {
    if n > 0 {
      GroupSame(ks, ks', n - 1, b);
    }
  }

  lemma {:induction false} ChainFrame(ks: seq<Key>, ks': seq<Key>, h: int)
    requires NULL <= h < |ks| && h < |ks'| && Threaded(ks, h + 1)
    requires forall i :: 0 <= i <= h ==> ks[i] == ks'[i]
    ensures Chain(ks, h) == Chain(ks', h)
    decreases h + 1
  {
    if h != NULL {
      ChainFrame(ks, ks', ks[h].nextb);
    }
  }

  /** No two of the first n keys share both a and b. */
  ghost predicate DistinctPairs(ks: seq<Key>, n: nat)
    requires n <= |ks|
  {
    forall i, j :: 0 <= i < j < n && ks[i].b == ks[j].b ==> ks[i].a != ks[j].a
  }

  /** The first n keys are listed under their b, and nothing is mapped yet. */
  ghost predicate Listed(ks: seq<Key>, tb: seq<BStuff>, n: nat)
    requires n <= |ks|
  {
    && Threaded(ks, n)
    && (forall b :: 0 <= b < |tb| ==>
          && NULL <= tb[b].list < n
          && Chain(ks, tb[b].list) == Group(ks, n, b)
          && tb[b].listlen == |Group(ks, n, b)|)
  }

  ghost predicate Unmapped(tb: seq<BStuff>) {
    forall b :: 0 <= b < |tb| ==> tb[b].val == 0 && tb[b].water == 0
  }

  /** inittab: put the keys into tabb by b, and report whether all (a,b) pairs differ. Unless
      `complete` is set, stop at the first pair of equal keys. */
  method InitTab(tabb: array<BStuff>, keys: array<Key>, complete: bool) returns (nocollision: bool)
    requires forall i :: 0 <= i < keys.Length ==> keys[i].b < tabb.Length
    modifies tabb, keys
    ensures SamePairs(old(keys[..]), keys[..])
    ensures nocollision <==> DistinctPairs(keys[..], keys.Length)
    ensures nocollision || complete ==> Listed(keys[..], tabb[..], keys.Length)
    ensures Unmapped(tabb[..])
  {
    hide *;
    nocollision := true;
    Clear(tabb);
    ghost var ks0 := keys[..];
    InitStart(ks0, tabb[..]);
    var i := 0;
    while i < keys.Length
      invariant 0 <= i <= keys.Length
      invariant |keys[..]| == |ks0| && InitState(ks0, keys[..], tabb[..], i)
      invariant nocollision <==> DistinctPairs(keys[..], i)
    {
      ghost var ks, tb := keys[..], tabb[..];
      var hit := Collides(ks0, tabb, keys, i);
      if hit {
        nocollision := false;
        if !complete {
          InitFacts(ks0, ks, tb, i);
          return;
        }
      }
      PushKey(tabb, keys, i);
      InitStep(ks0, ks, tb, keys[..], tabb[..], i);
      i := i + 1;
    }
    InitFacts(ks0, keys[..], tabb[..], i);
  }

  /** Does key i share its pair with a key listed before it? */
  method Collides(ghost ks0: seq<Key>, tabb: array<BStuff>, keys: array<Key>, i: nat) returns (hit: bool)
    requires i < keys.Length && InitState(ks0, keys[..], tabb[..], i)
    ensures keys[i].b < tabb.Length
    ensures DistinctPairs(keys[..], i + 1) <==> DistinctPairs(keys[..], i) && !hit
    ensures hit ==> !DistinctPairs(keys[..], keys.Length)
  {
    hide *;
    ListReady(ks0, keys[..], tabb[..], i);
    hit := FindA(keys, tabb[keys[i].b].list, keys[i].a);
    DistinctOneMore(ks0, keys[..], tabb[..], i);
  }

  /** Push key i on the front of its list. */
  method PushKey(tabb: array<BStuff>, keys: array<Key>, i: nat)
    requires i < keys.Length && keys[i].b < tabb.Length
    modifies tabb, keys
    ensures keys[..] == old(keys[..][i := keys[i].(nextb := tabb[keys[i].b].list)])
    ensures tabb[..] == old(tabb[..][keys[i].b := tabb[keys[i].b].(list := i, listlen := tabb[keys[i].b].listlen + 1)])
  {
    var b := keys[i].b;
    tabb[b] := tabb[b].(listlen := tabb[b].listlen + 1);
    keys[i] := keys[i].(nextb := tabb[b].list);
    tabb[b] := tabb[b].(list := i);
  }

  /** What holds while inittab runs: i keys listed, everything but the links as it was. */
  ghost predicate InitState(ks0: seq<Key>, ks: seq<Key>, tb: seq<BStuff>, i: nat) {
    && i <= |ks|
    && (forall x :: 0 <= x < |ks| ==> ks[x].b < |tb|)
    && SamePairs(ks0, ks)
    && Unmapped(tb)
    && Listed(ks, tb, i)
  }

  lemma InitStart(ks: seq<Key>, tb: seq<BStuff>)
    requires forall x :: 0 <= x < |ks| ==> ks[x].b < |tb|
    requires forall b :: 0 <= b < |tb| ==> tb[b] == BStuff(0, NULL, 0, 0)
    ensures InitState(ks, ks, tb, 0)
    ensures DistinctPairs(ks, 0)
  {
  }

  lemma ListReady(ks0: seq<Key>, ks: seq<Key>, tb: seq<BStuff>, i: nat)
    requires i < |ks| && InitState(ks0, ks, tb, i)
    ensures ks[i].b < |tb| && NULL <= tb[ks[i].b].list < |ks| && Threaded(ks, tb[ks[i].b].list + 1)
  {
  }

  lemma InitStep(ks0: seq<Key>, ks: seq<Key>, tb: seq<BStuff>, ks': seq<Key>, tb': seq<BStuff>, i: nat)
    requires i < |ks| && InitState(ks0, ks, tb, i)
    requires ks' == ks[i := ks[i].(nextb := tb[ks[i].b].list)]
    requires tb' == tb[ks[i].b := tb[ks[i].b].(list := i, listlen := tb[ks[i].b].listlen + 1)]
    ensures InitState(ks0, ks', tb', i + 1)
    ensures DistinctPairs(ks, i + 1) <==> DistinctPairs(ks', i + 1)
  {
    ListOneMore(ks, tb, ks', tb', i);
    DistinctSame(ks, ks', i + 1);
  }

  lemma InitFacts(ks0: seq<Key>, ks: seq<Key>, tb: seq<BStuff>, i: nat)
    requires i <= |ks| && InitState(ks0, ks, tb, i)
    ensures SamePairs(ks0, ks) && Unmapped(tb) && Listed(ks, tb, i)
  {
  }

  lemma DistinctOneMore(ks0: seq<Key>, ks: seq<Key>, tb: seq<BStuff>, i: nat)
    requires i < |ks| && InitState(ks0, ks, tb, i)
    requires ks[i].b < |tb| && NULL <= tb[ks[i].b].list < |ks| && Threaded(ks, tb[ks[i].b].list + 1)
    ensures DistinctPairs(ks, i + 1)
       <==> DistinctPairs(ks, i) && !exists x :: x in Chain(ks, tb[ks[i].b].list) && ks[x].a == ks[i].a
    ensures DistinctPairs(ks, |ks|) ==> DistinctPairs(ks, i + 1)
  {
    assert Chain(ks, tb[ks[i].b].list) == Group(ks, i, ks[i].b);
    hide InitState, Threaded, Chain;
    DistinctInGroup(ks, i);
  }

  lemma DistinctInGroup(ks: seq<Key>, i: nat)
    requires i < |ks|
    ensures DistinctPairs(ks, i + 1)
       <==> DistinctPairs(ks, i) && !exists x :: x in Group(ks, i, ks[i].b) && ks[x].a == ks[i].a
  {
    assert forall x :: 0 <= x < i && ks[x].b == ks[i].b ==> x in Group(ks, i, ks[i].b);
  }

  lemma DistinctSame(ks: seq<Key>, ks': seq<Key>, n: nat)
    requires SamePairs(ks, ks') && n <= |ks|
    ensures DistinctPairs(ks, n) <==> DistinctPairs(ks', n)
  {
    assert forall i :: 0 <= i < n ==> ks[i].a == ks'[i].a && ks[i].b == ks'[i].b;
  }

  method Clear(tabb: array<BStuff>)
    modifies tabb
    ensures forall b :: 0 <= b < tabb.Length ==> tabb[b] == BStuff(0, NULL, 0, 0)
  {
    for i := 0 to tabb.Length
      invariant forall b :: 0 <= b < i ==> tabb[b] == BStuff(0, NULL, 0, 0)
    {
      tabb[i] := BStuff(0, NULL, 0, 0);
    }
  }

  /** Walk a list looking for a key with the given a. */
  method FindA(keys: array<Key>, head: int, a: nat) returns (hit: bool)
    requires NULL <= head < keys.Length && Threaded(keys[..], head + 1)
    ensures hit <==> exists x :: x in Chain(keys[..], head) && keys[x].a == a
  {
    hit := false;
    var other := head;
    while other != NULL
      invariant NULL <= other <= head
      invariant forall x :: x in Chain(keys[..], other) ==> x in Chain(keys[..], head)
      invariant forall x :: x in Chain(keys[..], head) && x !in Chain(keys[..], other) && keys[x].a == a ==> hit
      invariant hit ==> exists x :: x in Chain(keys[..], head) && keys[x].a == a
      decreases other + 1
    {
      if keys[other].a == a {
        hit := true;
      }
      other := keys[other].nextb;
    }
  }

  lemma ListOneMore(ks: seq<Key>, tb: seq<BStuff>, ks': seq<Key>, tb': seq<BStuff>, i: nat)
    requires i < |ks| && ks[i].b < |tb| && Listed(ks, tb, i)
    requires ks' == ks[i := ks[i].(nextb := tb[ks[i].b].list)]
    requires tb' == tb[ks[i].b := tb[ks[i].b].(list := i, listlen := tb[ks[i].b].listlen + 1)]
    ensures Listed(ks', tb', i + 1)
  {
    forall b | 0 <= b < |tb|
      ensures Chain(ks', tb'[b].list) == Group(ks', i + 1, b) && tb'[b].listlen == |Group(ks', i + 1, b)|
    {
      GroupSame(ks, ks', i, b);
      ChainFrame(ks, ks', tb[b].list);
    }
  }
}
