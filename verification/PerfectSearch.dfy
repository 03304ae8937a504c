/** Filling tab[]: groups of keys are mapped, largest first, to the first scramble index that
    sends all their keys to unused hashes. */
module PerfectSearch {
  import opened Words
  import opened PerfectHash

  /** What the search reads and never changes. */
  datatype Problem = Problem(ks: seq<Key>, scramble: seq<nat>, smax: nat)

  ghost predicate WellFormed(p: Problem) {
    && |p.scramble| == 256
    && IsPow2(p.smax)
    && (forall i :: 0 <= i < 256 ==> p.scramble[i] < p.smax)
    && (forall x :: 0 <= x < |p.ks| ==> p.ks[x].a < p.smax)
    && Threaded(p.ks, |p.ks|)
    && DistinctPairs(p.ks, |p.ks|)
  }

  /** The hash of key x when its group uses scramble index i. */
  function Slot(p: Problem, x: int, i: int): (h: nat)
    requires WellFormed(p) && 0 <= x < |p.ks| && 0 <= i < 256
    ensures h < p.smax
  {
    SlotBound(p, x, i);
    Xor(p.ks[x].a, p.scramble[i])
  }

  lemma SlotBound(p: Problem, x: int, i: int)
    requires WellFormed(p) && 0 <= x < |p.ks| && 0 <= i < 256
    ensures Xor(p.ks[x].a, p.scramble[i]) < p.smax
  {
    var n: nat :| p.smax == Pow2(n);
    XorBound(p.ks[x].a, p.scramble[i], n);
  }

  /** The keys of group b. */
  ghost function Members(p: Problem, b: nat): (g: seq<int>)
    ensures forall x :: x in g <==> 0 <= x < |p.ks| && p.ks[x].b == b
  {
    Group(p.ks, |p.ks|, b)
  }

  /** tabb lists the groups and holds valid scramble indices. */
  ghost predicate Lists(p: Problem, tb: seq<BStuff>) {
    && Threaded(p.ks, |p.ks|)
    && (forall x :: 0 <= x < |p.ks| ==> p.ks[x].b < |tb|)
    && (forall b :: 0 <= b < |tb| ==>
          && NULL <= tb[b].list < |p.ks|
          && Chain(p.ks, tb[b].list) == Members(p, b)
          && tb[b].listlen == |Members(p, b)|
          && tb[b].val < 256)
  }

  lemma MembersDistinct(p: Problem, b: nat, x: int, y: int, i: int)
    requires WellFormed(p) && 0 <= i < 256 && x in Members(p, b) && y in Members(p, b) && x != y
    ensures Slot(p, x, i) != Slot(p, y, i)
  {
    var z, w := if x < y then x else y, if x < y then y else x;
    assert p.ks[z].b == p.ks[w].b;
    if Slot(p, x, i) == Slot(p, y, i) {
      XorInjective(p.ks[x].a, p.ks[y].a, p.scramble[i]);
    }
  }

  // ---- Erasing and setting the hashes of one list -------------------------------------------

  /** The table th after the keys of c have been taken off their hashes under index i. */
  ghost predicate Erased(p: Problem, th: seq<int>, th': seq<int>, c: seq<int>, i: int)
    requires WellFormed(p) && 0 <= i < 256 && (forall x :: x in c ==> 0 <= x < |p.ks|)
  {
    && |th'| == |th|
    && (forall h :: 0 <= h < |th| ==> th'[h] == if th[h] in c && Slot(p, th[h], i) == h then NULL else th[h])
  }

  method EraseHashes(p: Problem, tabh: array<int>, head: int, i: nat)
    requires WellFormed(p) && NULL <= head < |p.ks| && tabh.Length == p.smax && i < 256
    modifies tabh
    ensures Erased(p, old(tabh[..]), tabh[..], Chain(p.ks, head), i)
  {
    ghost var c := Chain(p.ks, head);
    var mykey := head;
    while mykey != NULL
      invariant NULL <= mykey <= head
      invariant forall x :: x in Chain(p.ks, mykey) ==> x in c
      invariant forall h :: 0 <= h < tabh.Length ==>
        tabh[h] == if old(tabh[h]) in c && old(tabh[h]) !in Chain(p.ks, mykey) && Slot(p, old(tabh[h]), i) == h
                   then NULL else old(tabh[h])
      decreases mykey + 1
    {
      var hash := Slot(p, mykey, i);
      if tabh[hash] == mykey {
        tabh[hash] := NULL;
      }
      mykey := p.ks[mykey].nextb;
    }
  }

  /** th' is th with some keys of c put on their hashes under index i. */
  ghost predicate Adds(p: Problem, th: seq<int>, th': seq<int>, c: seq<int>, i: int)
    requires WellFormed(p) && 0 <= i < 256 && (forall x :: x in c ==> 0 <= x < |p.ks|)
  {
    && |th'| == |th|
    && (forall h :: 0 <= h < |th| ==> th'[h] == th[h] || (th[h] == NULL && th'[h] in c && Slot(p, th'[h], i) == h))
  }

  /** th' is th with all keys of c on their hashes under index i, which were free. */
  ghost predicate Filled(p: Problem, th: seq<int>, th': seq<int>, c: seq<int>, i: int)
    requires WellFormed(p) && 0 <= i < 256 && (forall x :: x in c ==> 0 <= x < |p.ks|) && |th| == |th'| == p.smax
  {
    && Adds(p, th, th', c, i)
    && (forall x :: x in c ==> th'[Slot(p, x, i)] == x)
  }

  /** Every key of c goes to an unused hash under index i. */
  ghost predicate Free(p: Problem, th: seq<int>, c: seq<int>, i: int)
    requires WellFormed(p) && 0 <= i < 256 && (forall x :: x in c ==> 0 <= x < |p.ks|) && |th| == p.smax
  {
    forall x :: x in c ==> th[Slot(p, x, i)] == NULL
  }

  ghost predicate NoClash(p: Problem, c: seq<int>, i: int)
    requires WellFormed(p) && 0 <= i < 256 && (forall x :: x in c ==> 0 <= x < |p.ks|)
  {
    forall x, y :: x in c && y in c && x != y ==> Slot(p, x, i) != Slot(p, y, i)
  }

  /** Put the keys of a list on their hashes; a hash in use ends the attempt. When rolling back
      the root of the spanning tree nothing is set, for the root never had a hash. */
  method SetHashes(p: Problem, tabh: array<int>, head: int, i: nat, rollback: bool, parent: nat) returns (ok: bool)
    requires WellFormed(p) && NULL <= head < |p.ks| && tabh.Length == p.smax && i < 256
    requires NoClash(p, Chain(p.ks, head), i)
    modifies tabh
    ensures rollback ==> ok && (parent == 0 ==> tabh[..] == old(tabh[..]))
    ensures !rollback ==> (ok <==> Free(p, old(tabh[..]), Chain(p.ks, head), i))
    ensures !rollback ==> Adds(p, old(tabh[..]), tabh[..], Chain(p.ks, head), i)
    ensures !rollback && ok ==> Filled(p, old(tabh[..]), tabh[..], Chain(p.ks, head), i)
  {
    ghost var c := Chain(p.ks, head);
    ghost var th := tabh[..];
    var mykey := head;
    while mykey != NULL
      invariant NULL <= mykey <= head
      invariant forall x :: x in Chain(p.ks, mykey) ==> x in c
      invariant rollback && parent == 0 ==> tabh[..] == th
      invariant !rollback ==> forall h :: 0 <= h < tabh.Length ==>
        tabh[h] == th[h] || (th[h] == NULL && tabh[h] in c && tabh[h] !in Chain(p.ks, mykey)
                             && Slot(p, tabh[h], i) == h)
      invariant !rollback ==> forall x :: x in c && x !in Chain(p.ks, mykey) ==>
        tabh[Slot(p, x, i)] == x && th[Slot(p, x, i)] == NULL
      decreases mykey + 1
    {
      var hash := Slot(p, mykey, i);
      if rollback {
        if parent == 0 {
          mykey := p.ks[mykey].nextb;
          continue;
        }
      } else if tabh[hash] != NULL {
        return false;
      }
      tabh[hash] := mykey;
      mykey := p.ks[mykey].nextb;
    }
    return true;
  }

  // ---- apply: change the groups on the path from the last queue entry to the root -----------

  /** Queue entries below tail name real groups as parents, and parents come first. */
  ghost predicate QueueOk(tq: seq<QStuff>, tail: int, blen: nat) {
    && 1 <= tail <= |tq|
    && (forall q :: 1 <= q < tail ==>
          tq[q].parent < q && 0 <= tq[tq[q].parent].b < blen && tq[q].newval < 256 && tq[q].oldval < 256)
  }

  /** tb' is tb except for scramble indices. */
  ghost predicate SameButVal(tb: seq<BStuff>, tb': seq<BStuff>) {
    && |tb| == |tb'|
    && (forall b :: 0 <= b < |tb| ==> tb'[b] == tb[b].(val := tb'[b].val))
  }

  /** No key of group b has a hash yet. */
  ghost predicate Unplaced(p: Problem, th: seq<int>, b: nat) {
    forall h :: 0 <= h < |th| ==> th[h] !in Members(p, b)
  }

  /** The effect of applying a queue entry whose parent is the root, group b. */
  ghost predicate RootStep(p: Problem, tb: seq<BStuff>, th: seq<int>, tb': seq<BStuff>, th': seq<int>,
                           b: nat, i: nat, back: nat, rollback: bool, ok: bool)
    requires WellFormed(p) && Lists(p, tb) && b < |tb| && i < 256 && back < 256 && |th| == |th'| == p.smax
  {
    if rollback then
      ok && tb' == tb[b := tb[b].(val := back)] && Erased(p, th, th', Members(p, b), tb[b].val)
    else if Unplaced(p, th, b) then
      && (ok <==> Free(p, th, Members(p, b), i))
      && (ok ==> tb' == tb[b := tb[b].(val := i)] && Filled(p, th, th', Members(p, b), i))
      && (!ok ==> tb' == tb[b := tb[b].(val := back)] && th' == th)
    else true
  }

  method Apply(p: Problem, tabb: array<BStuff>, tabh: array<int>, tabq: array<QStuff>, tail: int, rollback: bool)
    returns (ok: bool)
    requires WellFormed(p) && Lists(p, tabb[..]) && tabh.Length == p.smax
    requires 1 <= tail <= tabq.Length && QueueOk(tabq[..], tail, tabb.Length)
    modifies tabb, tabh
    ensures Lists(p, tabb[..]) && SameButVal(old(tabb[..]), tabb[..])
    ensures rollback ==> ok
    ensures tail >= 2 && tabq[tail - 1].parent == 0 ==>
      RootStep(p, old(tabb[..]), old(tabh[..]), tabb[..], tabh[..],
               tabq[0].b, tabq[tail - 1].newval, tabq[tail - 1].oldval, rollback, ok)
    decreases if rollback then 0 else 1
  {
    hide *;
    ghost var tb, th, tq := tabb[..], tabh[..], tabq[..];
    SameRefl(tb);
    var child := tail - 1;
    ok := true;
    while child != 0
      invariant 0 <= child < tail <= |tq| && ok
      invariant Lists(p, tabb[..]) && SameButVal(tb, tabb[..])
      invariant child == tail - 1 ==> tabb[..] == tb && tabh[..] == th
      invariant child < tail - 1 && tq[tail - 1].parent == 0 ==>
        && child == 0
        && 0 <= tq[0].b < |tb| && tq[tail - 1].newval < 256 && tq[tail - 1].oldval < 256
        && RootStep(p, tb, th, tabb[..], tabh[..], tq[0].b, tq[tail - 1].newval, tq[tail - 1].oldval, rollback, true)
      decreases child
    {
      QueueEntry(tq, tail, tabb.Length, child);
      var parent := tabq[child].parent;
      var b := tabq[parent].b;
      var newval, oldval := tabq[child].newval, tabq[child].oldval;
      ghost var tb1, th1 := tabb[..], tabh[..];
      ValChange(p, tb1, b, if rollback then oldval else newval);
      ok := ApplyStep(p, tabb, tabh, b, newval, oldval, parent, rollback);
      ghost var tb2, th2 := tabb[..], tabh[..];
      SameTrans(tb, tb1, tb2);
      if !ok {
        var undone := Apply(p, tabb, tabh, tabq, tail, true);
        if child == tail - 1 && parent == 0 {
          RolledBack(p, tb, th, tb2, th2, tabb[..], tabh[..], b, newval, oldval);
        }
        SameTrans(tb, tb2, tabb[..]);
        return false;
      }
      if child == tail - 1 && parent == 0 {
        RootDone(p, tb, th, tb2, th2, b, newval, oldval, rollback);
      }
      child := parent;
    }
  }

  /** One step of the walk: group b leaves its old hashes, changes its index and takes the new
      hashes. */
  method ApplyStep(p: Problem, tabb: array<BStuff>, tabh: array<int>, b: nat, newval: nat, oldval: nat,
                   parent: nat, rollback: bool) returns (ok: bool)
    requires WellFormed(p) && Lists(p, tabb[..]) && tabh.Length == p.smax
    requires b < tabb.Length && newval < 256 && oldval < 256
    modifies tabb, tabh
    ensures rollback ==> ok
    ensures tabb[..] == old(tabb[..][b := tabb[b].(val := if rollback then oldval else newval)])
    ensures rollback && parent == 0 ==> Erased(p, old(tabh[..]), tabh[..], Members(p, b), old(tabb[b].val))
    ensures !rollback && Unplaced(p, old(tabh[..]), b) ==>
      && (ok <==> Free(p, old(tabh[..]), Members(p, b), newval))
      && Adds(p, old(tabh[..]), tabh[..], Members(p, b), newval)
      && (ok ==> Filled(p, old(tabh[..]), tabh[..], Members(p, b), newval))
  {
    hide *;
    ghost var th := tabh[..];
    ListOf(p, tabb[..], b);
    var head := tabb[b].list;
    EraseHashes(p, tabh, head, tabb[b].val);
    if Unplaced(p, th, b) {
      NothingToErase(p, th, tabh[..], b, tabb[b].val);
    }
    tabb[b] := tabb[b].(val := if rollback then oldval else newval);
    NoClashes(p, b, tabb[b].val);
    ok := SetHashes(p, tabh, head, tabb[b].val, rollback, parent);
  }

  lemma ListOf(p: Problem, tb: seq<BStuff>, b: nat)
    requires Lists(p, tb) && b < |tb|
    ensures Threaded(p.ks, |p.ks|) && NULL <= tb[b].list < |p.ks| && Chain(p.ks, tb[b].list) == Members(p, b)
    ensures Threaded(p.ks, tb[b].list + 1) && tb[b].val < 256
  {
  }

  lemma NoClashes(p: Problem, b: nat, i: nat)
    requires WellFormed(p) && i < 256
    ensures NoClash(p, Members(p, b), i)
  {
    forall x, y | x in Members(p, b) && y in Members(p, b) && x != y ensures Slot(p, x, i) != Slot(p, y, i) {
      MembersDistinct(p, b, x, y, i);
    }
  }

  lemma NothingToErase(p: Problem, th: seq<int>, th': seq<int>, b: nat, i: nat)
    requires WellFormed(p) && i < 256 && Unplaced(p, th, b) && Erased(p, th, th', Members(p, b), i)
    ensures th' == th
  {
  }

  lemma SameRefl(tb: seq<BStuff>)
    ensures SameButVal(tb, tb)
  {
  }

  lemma SameTrans(tb: seq<BStuff>, tb1: seq<BStuff>, tb2: seq<BStuff>)
    requires SameButVal(tb, tb1) && SameButVal(tb1, tb2)
    ensures SameButVal(tb, tb2)
  {
  }

  lemma ValChange(p: Problem, tb: seq<BStuff>, b: nat, v: nat)
    requires Lists(p, tb) && b < |tb| && v < 256
    ensures Lists(p, tb[b := tb[b].(val := v)]) && SameButVal(tb, tb[b := tb[b].(val := v)])
  {
  }

  lemma QueueEntry(tq: seq<QStuff>, tail: int, blen: nat, child: int)
    requires QueueOk(tq, tail, blen) && 1 <= child < tail
    ensures tail <= |tq| && tq[child].parent < child && 0 <= tq[tq[child].parent].b < blen
    ensures tq[child].newval < 256 && tq[child].oldval < 256
  {
  }

  /** A failed attempt at the root leaves only keys of its own group behind; erasing them gives
      back the table there was. */
  lemma RolledBack(p: Problem, tb: seq<BStuff>, th: seq<int>, tb1: seq<BStuff>, th1: seq<int>,
                   tb2: seq<BStuff>, th2: seq<int>, b: nat, i: nat, back: nat)
    requires WellFormed(p) && Lists(p, tb) && Lists(p, tb1) && b < |tb| && i < 256 && back < 256
    requires |th| == |th1| == |th2| == p.smax
    requires tb1 == tb[b := tb[b].(val := i)]
    requires Unplaced(p, th, b) ==> Adds(p, th, th1, Members(p, b), i) && !Free(p, th, Members(p, b), i)
    requires RootStep(p, tb1, th1, tb2, th2, b, i, back, true, true)
    ensures RootStep(p, tb, th, tb2, th2, b, i, back, false, false)
  {
    if Unplaced(p, th, b) {
      assert tb2 == tb[b := tb[b].(val := back)];
      forall h | 0 <= h < |th| ensures th2[h] == th[h] {
        assert th1[h] == th[h] || (th[h] == NULL && th1[h] in Members(p, b) && Slot(p, th1[h], i) == h);
      }
      assert th2 == th;
    }
  }

  lemma RootDone(p: Problem, tb: seq<BStuff>, th: seq<int>, tb': seq<BStuff>, th': seq<int>,
                 b: nat, i: nat, back: nat, rollback: bool)
    requires WellFormed(p) && Lists(p, tb) && b < |tb| && i < 256 && back < 256 && |th| == |th'| == p.smax
    requires tb' == tb[b := tb[b].(val := if rollback then back else i)]
    requires rollback ==> Erased(p, th, th', Members(p, b), tb[b].val)
    requires !rollback && Unplaced(p, th, b) ==>
      && Free(p, th, Members(p, b), i)
      && Filled(p, th, th', Members(p, b), i)
    ensures RootStep(p, tb, th, tb', th', b, i, back, rollback, true)
  {
  }

  // ---- augment: find a scramble index for one group -----------------------------------------

  /** tb' is tb except that some groups carry the new watermark. */
  ghost predicate SameButWater(tb: seq<BStuff>, tb': seq<BStuff>, highwater: nat) {
    && |tb| == |tb'|
    && (forall b :: 0 <= b < |tb| ==> tb'[b] == tb[b] || tb'[b] == tb[b].(water := highwater))
  }

  /** The table holds keys. */
  ghost predicate HoldsKeys(p: Problem, th: seq<int>) {
    forall h :: 0 <= h < |th| ==> NULL <= th[h] < |p.ks|
  }

  /** Try scramble index i for the keys of item. Either the walk stops, because of keys of two
      other groups or of a group already explored, or it reports the one group in the way, or
      none. */
  method Probe(p: Problem, tabb: array<BStuff>, tabh: array<int>, item: nat, i: nat, highwater: nat)
    returns (stopped: bool, childb: int)
    requires WellFormed(p) && Lists(p, tabb[..]) && tabh.Length == p.smax && item < tabb.Length && i < 256
    requires HoldsKeys(p, tabh[..]) && Unplaced(p, tabh[..], item)
    ensures Free(p, tabh[..], Members(p, item), i) <==> !stopped && childb == NULL
    ensures !stopped && childb != NULL ==>
      0 <= childb < tabb.Length && childb != item && tabb[childb].water != highwater
  {
    hide QueueOk, Erased, Adds, Filled;
    ghost var c := Members(p, item);
    var mykey := tabb[item].list;
    childb := NULL;
    while mykey != NULL
      invariant NULL <= mykey <= tabb[item].list
      invariant forall x :: x in Chain(p.ks, mykey) ==> x in c
      invariant childb == NULL ==> forall x :: x in c && x !in Chain(p.ks, mykey) ==> tabh[Slot(p, x, i)] == NULL
      invariant childb != NULL ==> exists x :: x in c && tabh[Slot(p, x, i)] != NULL
      invariant childb != NULL ==> 0 <= childb < tabb.Length && childb != item && tabb[childb].water != highwater
      decreases mykey + 1
    {
      var hash := Slot(p, mykey, i);
      if hash >= p.smax {
        break;
      }
      var childkey := tabh[hash];
      if childkey != NULL {
        assert tabh[..][hash] !in Members(p, item);
        var hitb := p.ks[childkey].b;
        if childb != NULL {
          if childb != hitb {
            break;
          }
        } else {
          childb := hitb;
          if tabb[childb].water == highwater {
            break;
          }
        }
      }
      mykey := p.ks[mykey].nextb;
    }
    stopped := mykey != NULL;
  }

  /** i is the least scramble index that suits the keys c. */
  ghost predicate FirstFit(p: Problem, th: seq<int>, c: seq<int>, i: nat)
    requires WellFormed(p) && (forall x :: x in c ==> 0 <= x < |p.ks|) && |th| == p.smax
  {
    && i < 256
    && Free(p, th, c, i)
    && (forall j :: 0 <= j < i ==> !Free(p, th, c, j))
  }

  ghost predicate NoFit(p: Problem, th: seq<int>, c: seq<int>)
    requires WellFormed(p) && (forall x :: x in c ==> 0 <= x < |p.ks|) && |th| == p.smax
  {
    forall j :: 0 <= j < 256 ==> !Free(p, th, c, j)
  }

  /** What augment does to the tables. */
  ghost predicate Augmented(p: Problem, tb: seq<BStuff>, th: seq<int>, tb': seq<BStuff>, th': seq<int>,
                            item: nat, highwater: nat, ok: bool)
    requires WellFormed(p) && |th| == |th'| == p.smax && item < |tb|
  {
    && Lists(p, tb')
    && |tb| == |tb'|
    && if ok then
         && FirstFit(p, th, Members(p, item), tb'[item].val)
         && SameButWater(tb[item := tb[item].(val := tb'[item].val)], tb', highwater)
         && Filled(p, th, th', Members(p, item), tb'[item].val)
       else
         && NoFit(p, th, Members(p, item))
         && SameButWater(tb, tb', highwater)
         && th' == th
  }

  /** The groups, other than item, found in the way so far: those with the watermark. */
  ghost predicate Explored(tb: seq<BStuff>, marked: set<int>, item: nat, highwater: nat, tail: int) {
    && |marked| == tail - 1
    && (forall b :: b in marked ==> 0 <= b < |tb| && b != item && tb[b].water == highwater)
    && (forall b :: 0 <= b < |tb| && b !in marked ==> tb[b].water != highwater)
  }

  lemma ExploredSize(tb: seq<BStuff>, marked: set<int>, item: nat, highwater: nat, tail: int)
    requires Explored(tb, marked, item, highwater, tail) && item < |tb|
    ensures 1 <= tail <= |tb|
  {
    RangeSize(|tb|);
    SubsetSize(marked, Range(|tb|) - {item});
  }

  /** State of the search after indices below i have been tried. */
  ghost predicate Trying(p: Problem, tb: seq<BStuff>, tb': seq<BStuff>, th: seq<int>, tq: seq<QStuff>,
                         marked: set<int>, item: nat, highwater: nat, tail: int, i: nat)
    requires WellFormed(p) && |th| == p.smax
  {
    && i <= 256
    && |tb| == |tb'| && |tq| == |tb| + 1 && item < |tb|
    && Lists(p, tb') && SameButWater(tb, tb', highwater)
    && Explored(tb', marked, item, highwater, tail)
    && tail <= |tb| && QueueOk(tq, tail, |tb|) && tq[0].b == item
    && (forall j :: 0 <= j < i ==> !Free(p, th, Members(p, item), j))
  }

  method TryValues(p: Problem, tabb: array<BStuff>, tabh: array<int>, tabq: array<QStuff>, item: nat, q: nat,
                   highwater: nat)
    returns (ok: bool, tail: int)
    requires WellFormed(p) && Lists(p, tabb[..]) && tabh.Length == p.smax && item < tabb.Length
    requires tabq.Length == tabb.Length + 1 && tabq[0].b == item && q == 0
    requires HoldsKeys(p, tabh[..]) && Unplaced(p, tabh[..], item)
    requires forall b :: 0 <= b < tabb.Length ==> tabb[b].water != highwater
    modifies tabb, tabh, tabq
    ensures Augmented(p, old(tabb[..]), old(tabh[..]), tabb[..], tabh[..], item, highwater, ok)
    ensures 1 <= tail
  {
    hide *;
    ghost var tb, th := tabb[..], tabh[..];
    ghost var marked: set<int> := {};
    tail := 1;
    StartTrying(p, tb, th, tabq[..], item, highwater);
    var i := 0;
    while i < 256
      invariant tabh[..] == th && Trying(p, tb, tabb[..], th, tabq[..], marked, item, highwater, tail, i)
    {
      TryingFacts(p, tb, tabb[..], th, tabq[..], marked, item, highwater, tail, i);
      var stopped, childb := Probe(p, tabb, tabh, item, i, highwater);
      if stopped {
        NextTry(p, tb, tabb[..], th, tabq[..], marked, item, highwater, tail, i);
        i := i + 1;
        continue;
      }
      ghost var tb1, tq1 := tabb[..], tabq[..];
      if childb != NULL {
        tabb[childb] := tabb[childb].(water := highwater);
      }
      tabq[tail] := QStuff(childb, q, i, tabb[item].val);
      tail := tail + 1;
      if childb == NULL {
        Queued(p, tb, tb1, th, tq1, tabq[..], marked, item, highwater, tail - 1, i);
        ok := Apply(p, tabb, tabh, tabq, tail, false);
        Succeeded(p, tb, tb1, tabb[..], th, tabh[..], tq1, marked, item, highwater, tail - 1, i, ok);
        if ok {
          return;
        }
        tail := tail - 1;
      } else {
        Marked(p, tb, tb1, tabb[..], th, tq1, tabq[..], marked, item, highwater, tail - 1, i, childb);
        marked := marked + {childb};
      }
      i := i + 1;
    }
    GaveUp(p, tb, tabb[..], th, tabq[..], marked, item, highwater, tail);
    ok := false;
  }

  lemma StartTrying(p: Problem, tb: seq<BStuff>, th: seq<int>, tq: seq<QStuff>, item: nat, highwater: nat)
    requires WellFormed(p) && Lists(p, tb) && |th| == p.smax && item < |tb|
    requires |tq| == |tb| + 1 && tq[0].b == item
    requires forall b :: 0 <= b < |tb| ==> tb[b].water != highwater
    ensures Trying(p, tb, tb, th, tq, {}, item, highwater, 1, 0)
  {
  }

  lemma TryingFacts(p: Problem, tb: seq<BStuff>, tb': seq<BStuff>, th: seq<int>, tq: seq<QStuff>,
                    marked: set<int>, item: nat, highwater: nat, tail: int, i: nat)
    requires WellFormed(p) && |th| == p.smax && Trying(p, tb, tb', th, tq, marked, item, highwater, tail, i)
    ensures Lists(p, tb') && tb'[item].val < 256 && tb'[item].val == tb[item].val
    ensures 1 <= tail <= |tb| && |tq| == |tb| + 1
  {
  }

  /** An index at which the walk stopped does not fit. */
  lemma NextTry(p: Problem, tb: seq<BStuff>, tb': seq<BStuff>, th: seq<int>, tq: seq<QStuff>,
                marked: set<int>, item: nat, highwater: nat, tail: int, i: nat)
    requires WellFormed(p) && |th| == p.smax && Trying(p, tb, tb', th, tq, marked, item, highwater, tail, i)
    requires i < 256 && !Free(p, th, Members(p, item), i)
    ensures Trying(p, tb, tb', th, tq, marked, item, highwater, tail, i + 1)
  {
  }

  /** A group in the way gets the watermark and a place in the queue. */
  lemma Marked(p: Problem, tb: seq<BStuff>, tb1: seq<BStuff>, tb2: seq<BStuff>, th: seq<int>,
               tq1: seq<QStuff>, tq2: seq<QStuff>,
               marked: set<int>, item: nat, highwater: nat, tail: int, i: nat, childb: int)
    requires WellFormed(p) && |th| == p.smax && Trying(p, tb, tb1, th, tq1, marked, item, highwater, tail, i)
    requires i < 256 && !Free(p, th, Members(p, item), i)
    requires 0 <= childb < |tb1| && childb != item && tb1[childb].water != highwater
    requires tb2 == tb1[childb := tb1[childb].(water := highwater)]
    requires tq2 == tq1[tail := QStuff(childb, 0, i, tb1[item].val)]
    ensures Trying(p, tb, tb2, th, tq2, marked + {childb}, item, highwater, tail + 1, i + 1)
  {
    assert childb !in marked;
    ExploredSize(tb2, marked + {childb}, item, highwater, tail + 1);
  }

  /** With nothing in the way, the queue is ready for apply. */
  lemma Queued(p: Problem, tb: seq<BStuff>, tb1: seq<BStuff>, th: seq<int>, tq1: seq<QStuff>, tq2: seq<QStuff>,
               marked: set<int>, item: nat, highwater: nat, tail: int, i: nat)
    requires WellFormed(p) && |th| == p.smax && Trying(p, tb, tb1, th, tq1, marked, item, highwater, tail, i) && i < 256
    requires tq2 == tq1[tail := QStuff(NULL, 0, i, tb1[item].val)]
    ensures 1 <= tail < |tq2| && QueueOk(tq2, tail + 1, |tb|)
    ensures tq2[0].b == item && tq2[tail] == QStuff(NULL, 0, i, tb1[item].val)
  {
  }

  lemma Succeeded(p: Problem, tb: seq<BStuff>, tb1: seq<BStuff>, tb2: seq<BStuff>, th: seq<int>, th2: seq<int>,
                  tq1: seq<QStuff>, marked: set<int>, item: nat, highwater: nat, tail: int, i: nat, ok: bool)
    requires WellFormed(p) && |th| == |th2| == p.smax
    requires Trying(p, tb, tb1, th, tq1, marked, item, highwater, tail, i) && i < 256
    requires Lists(p, tb2) && SameButVal(tb1, tb2)
    requires Free(p, th, Members(p, item), i) && Unplaced(p, th, item)
    requires RootStep(p, tb1, th, tb2, th2, item, i, tb1[item].val, false, ok)
    ensures ok && Augmented(p, tb, th, tb2, th2, item, highwater, true)
  {
  }

  lemma GaveUp(p: Problem, tb: seq<BStuff>, tb': seq<BStuff>, th: seq<int>, tq: seq<QStuff>,
               marked: set<int>, item: nat, highwater: nat, tail: int)
    requires WellFormed(p) && |th| == p.smax && Trying(p, tb, tb', th, tq, marked, item, highwater, tail, 256)
    ensures Augmented(p, tb, th, tb', th, item, highwater, false)
    ensures 1 <= tail
  {
    ExploredSize(tb', marked, item, highwater, tail);
  }

  /** augment, as cut off after the root: the walk over the queue stops at position 1. */
  method Augment(p: Problem, tabb: array<BStuff>, tabh: array<int>, tabq: array<QStuff>, item: nat, highwater: nat)
    returns (ok: bool)
    requires WellFormed(p) && Lists(p, tabb[..]) && tabh.Length == p.smax && item < tabb.Length
    requires tabq.Length == tabb.Length + 1
    requires HoldsKeys(p, tabh[..]) && Unplaced(p, tabh[..], item)
    requires forall b :: 0 <= b < tabb.Length ==> tabb[b].water != highwater
    modifies tabb, tabh, tabq
    ensures Augmented(p, old(tabb[..]), old(tabh[..]), tabb[..], tabh[..], item, highwater, ok)
  {
    hide *;
    tabq[0] := tabq[0].(b := item);
    var q, tail := 0, 1;
    while q < tail
      invariant 0 <= q <= 1 <= tail
      invariant q == 0 ==> tail == 1 && tabq[0].b == item
      invariant q == 0 ==> tabb[..] == old(tabb[..]) && tabh[..] == old(tabh[..])
      invariant q == 1 ==> Augmented(p, old(tabb[..]), old(tabh[..]), tabb[..], tabh[..], item, highwater, false)
      decreases 1 - q
    {
      if q == 1 {
        break;
      }
      ok, tail := TryValues(p, tabb, tabh, tabq, item, q, highwater);
      if ok {
        return;
      }
      q := q + 1;
    }
    ok := false;
  }

  // ---- perfect: map all groups, in descending order of size ---------------------------------

  /** Group b' is mapped before group b. */
  ghost predicate Earlier(tb: seq<BStuff>, b': nat, b: nat)
    requires b' < |tb| && b < |tb|
  {
    tb[b'].listlen > tb[b].listlen || (tb[b'].listlen == tb[b].listlen && b' < b)
  }

  /** The hash key x has in the finished table. */
  ghost function HashOf(p: Problem, tb: seq<BStuff>, x: int): (h: nat)
    requires WellFormed(p) && Lists(p, tb) && 0 <= x < |p.ks|
    ensures h < p.smax
  {
    Slot(p, x, tb[p.ks[x].b].val)
  }

  /** Under index i some key of group b would take the hash of a key of an earlier group. */
  ghost predicate Clash(p: Problem, tb: seq<BStuff>, b: nat, i: nat)
    requires WellFormed(p) && Lists(p, tb) && b < |tb| && i < 256
  {
    exists x, y :: x in Members(p, b) && 0 <= y < |p.ks| && Earlier(tb, p.ks[y].b, b)
      && Slot(p, x, i) == HashOf(p, tb, y)
  }

  /** Group b has the least index that keeps it clear of all earlier groups. */
  ghost predicate LeastFit(p: Problem, tb: seq<BStuff>, b: nat)
    requires WellFormed(p) && Lists(p, tb) && b < |tb|
  {
    && !Clash(p, tb, b, tb[b].val)
    && (forall i :: 0 <= i < tb[b].val ==> Clash(p, tb, b, i))
  }

  ghost predicate AllFit(p: Problem, tb: seq<BStuff>)
    requires WellFormed(p) && Lists(p, tb)
  {
    forall b :: 0 <= b < |tb| && tb[b].listlen > 0 ==> LeastFit(p, tb, b)
  }

  /** Some group clashes with the earlier groups, all at their least indices, whatever its index. */
  ghost predicate Stuck(p: Problem, tb: seq<BStuff>)
    requires WellFormed(p) && Lists(p, tb)
  {
    exists b :: 0 <= b < |tb| && tb[b].listlen > 0
      && (forall i :: 0 <= i < 256 ==> Clash(p, tb, b, i))
      && (forall b' :: 0 <= b' < |tb| && tb[b'].listlen > 0 && Earlier(tb, b', b) ==> LeastFit(p, tb, b'))
  }

  /** First-fit makes the hash of the keys injective. */
  lemma AllFitInjective(p: Problem, tb: seq<BStuff>, x: int, y: int)
    requires WellFormed(p) && Lists(p, tb) && AllFit(p, tb)
    requires 0 <= x < |p.ks| && 0 <= y < |p.ks| && x != y
    ensures HashOf(p, tb, x) != HashOf(p, tb, y)
  {
    var b, c := p.ks[x].b, p.ks[y].b;
    if b == c {
      MembersDistinct(p, b, x, y, tb[b].val);
    } else {
      assert x in Members(p, b) && y in Members(p, c);
      if Earlier(tb, b, c) {
        assert LeastFit(p, tb, c);
      } else {
        assert LeastFit(p, tb, b);
      }
    }
  }

  /** The groups mapped when the double loop stands at (j, i). */
  ghost predicate Done(tb: seq<BStuff>, j: int, i: int, b: nat)
    requires b < |tb|
  {
    tb[b].listlen > 0 && (tb[b].listlen > j || (tb[b].listlen == j && b < i))
  }

  /** tabh holds exactly the keys of the mapped groups, each at its hash. */
  ghost predicate Consistent(p: Problem, tb: seq<BStuff>, th: seq<int>, j: int, i: int)
    requires WellFormed(p) && Lists(p, tb) && |th| == p.smax
  {
    && (forall h :: 0 <= h < |th| && th[h] != NULL ==>
          0 <= th[h] < |p.ks| && Done(tb, j, i, p.ks[th[h]].b) && HashOf(p, tb, th[h]) == h)
    && (forall x :: 0 <= x < |p.ks| && Done(tb, j, i, p.ks[x].b) ==> th[HashOf(p, tb, x)] == x)
  }

  ghost predicate Mapping(p: Problem, tb: seq<BStuff>, th: seq<int>, j: int, i: int)
    requires WellFormed(p) && |th| == p.smax
  {
    && Lists(p, tb)
    && Consistent(p, tb, th, j, i)
    && (forall b :: 0 <= b < |tb| && Done(tb, j, i, b) ==> LeastFit(p, tb, b))
    && (forall b :: 0 <= b < |tb| ==> tb[b].water == 0 || (tb[b].water <= |tb| && Done(tb, j, i, tb[b].water - 1)))
  }

  method Perfect(p: Problem, tabb: array<BStuff>, tabh: array<int>, tabq: array<QStuff>) returns (ok: bool)
    requires WellFormed(p) && Lists(p, tabb[..]) && Unmapped(tabb[..])
    requires tabh.Length == p.smax && tabq.Length == tabb.Length + 1
    modifies tabb, tabh, tabq
    ensures Lists(p, tabb[..])
    ensures ok ==> AllFit(p, tabb[..]) && Consistent(p, tabb[..], tabh[..], 0, 0)
    ensures !ok ==> Stuck(p, tabb[..])
  {
    hide *;
    for h := 0 to p.smax
      invariant tabb[..] == old(tabb[..]) && forall k :: 0 <= k < h ==> tabh[k] == NULL
    {
      tabh[h] := NULL;
    }
    var maxkeys := 0;
    for i := 0 to tabb.Length
      invariant tabb[..] == old(tabb[..]) && forall k :: 0 <= k < tabh.Length ==> tabh[k] == NULL
      invariant forall b :: 0 <= b < i ==> tabb[b].listlen <= maxkeys
    {
      if tabb[i].listlen > maxkeys {
        maxkeys := tabb[i].listlen;
      }
    }
    StartMapping(p, tabb[..], tabh[..], maxkeys);
    var j := maxkeys;
    while j > 0
      invariant j >= 0 && Mapping(p, tabb[..], tabh[..], j, 0)
    {
      var i := 0;
      while i < tabb.Length
        invariant 0 <= i <= tabb.Length && Mapping(p, tabb[..], tabh[..], j, i)
      {
        ghost var tb, th := tabb[..], tabh[..];
        if tabb[i].listlen == j {
          ReadyToAugment(p, tb, th, j, i);
          ok := Augment(p, tabb, tabh, tabq, i, i + 1);
          if !ok {
            MappingStuck(p, tb, th, tabb[..], tabh[..], j, i);
            return;
          }
          MappingStep(p, tb, th, tabb[..], tabh[..], j, i);
        } else {
          MappingSkip(p, tb, th, j, i);
        }
        i := i + 1;
      }
      NextSize(p, tabb[..], tabh[..], j);
      j := j - 1;
    }
    MappingDone(p, tabb[..], tabh[..]);
    ok := true;
  }

  lemma StartMapping(p: Problem, tb: seq<BStuff>, th: seq<int>, maxkeys: nat)
    requires WellFormed(p) && Lists(p, tb) && Unmapped(tb) && |th| == p.smax
    requires forall h :: 0 <= h < |th| ==> th[h] == NULL
    requires forall b :: 0 <= b < |tb| ==> tb[b].listlen <= maxkeys
    ensures Mapping(p, tb, th, maxkeys, 0)
  {
  }

  lemma ReadyToAugment(p: Problem, tb: seq<BStuff>, th: seq<int>, j: int, i: nat)
    requires WellFormed(p) && |th| == p.smax && Mapping(p, tb, th, j, i) && i < |tb| && tb[i].listlen == j
    ensures Lists(p, tb) && HoldsKeys(p, th) && Unplaced(p, th, i)
    ensures forall b :: 0 <= b < |tb| ==> tb[b].water != i + 1
  {
  }

  /** An index is free for group i exactly when it clashes with no earlier group. */
  lemma FreeIffNoClash(p: Problem, tb: seq<BStuff>, th: seq<int>, j: int, i: nat, v: nat)
    requires WellFormed(p) && |th| == p.smax && Mapping(p, tb, th, j, i) && i < |tb| && tb[i].listlen == j > 0
      && v < 256
    ensures Free(p, th, Members(p, i), v) <==> !Clash(p, tb, i, v)
  {
    if !Free(p, th, Members(p, i), v) {
      var x :| x in Members(p, i) && th[Slot(p, x, v)] != NULL;
      var y := th[Slot(p, x, v)];
      assert Earlier(tb, p.ks[y].b, i);
    }
    if Clash(p, tb, i, v) {
      var x, y :| x in Members(p, i) && 0 <= y < |p.ks| && Earlier(tb, p.ks[y].b, i)
        && Slot(p, x, v) == HashOf(p, tb, y);
      SomeMember(p, tb, y);
      assert Done(tb, j, i, p.ks[y].b);
    }
  }

  lemma SomeMember(p: Problem, tb: seq<BStuff>, y: int)
    requires Lists(p, tb) && 0 <= y < |p.ks|
    ensures tb[p.ks[y].b].listlen > 0
  {
    assert y in Members(p, p.ks[y].b);
  }

  lemma MappingSkip(p: Problem, tb: seq<BStuff>, th: seq<int>, j: int, i: nat)
    requires WellFormed(p) && |th| == p.smax && Mapping(p, tb, th, j, i) && i < |tb| && tb[i].listlen != j
    ensures Mapping(p, tb, th, j, i + 1)
  {
    hide WellFormed, Lists, LeastFit, HashOf;
    assert forall b :: 0 <= b < |tb| ==> Done(tb, j, i, b) == Done(tb, j, i + 1, b);
  }

  lemma NextSize(p: Problem, tb: seq<BStuff>, th: seq<int>, j: int)
    requires WellFormed(p) && |th| == p.smax && Mapping(p, tb, th, j, |tb|) && j > 0
    ensures Mapping(p, tb, th, j - 1, 0)
  {
    assert forall b :: 0 <= b < |tb| ==> Done(tb, j, |tb|, b) == Done(tb, j - 1, 0, b);
  }

  lemma MappingDone(p: Problem, tb: seq<BStuff>, th: seq<int>)
    requires WellFormed(p) && |th| == p.smax && Mapping(p, tb, th, 0, 0)
    ensures Lists(p, tb) && AllFit(p, tb) && Consistent(p, tb, th, 0, 0)
  {
    assert forall b :: 0 <= b < |tb| && tb[b].listlen > 0 ==> Done(tb, 0, 0, b);
  }

  /** tb2 agrees with tb on the sizes of all groups and on the indices of those before b. */
  ghost predicate AgreeBefore(tb: seq<BStuff>, tb2: seq<BStuff>, b: nat)
    requires b < |tb|
  {
    && |tb| == |tb2|
    && (forall c :: 0 <= c < |tb| ==> tb[c].listlen == tb2[c].listlen)
    && (forall c :: 0 <= c < |tb| && Earlier(tb, c, b) ==> tb[c].val == tb2[c].val)
  }

  lemma ClashCarries(p: Problem, tb: seq<BStuff>, tb2: seq<BStuff>, b: nat, v: nat)
    requires WellFormed(p) && Lists(p, tb) && Lists(p, tb2) && b < |tb| && v < 256 && AgreeBefore(tb, tb2, b)
    requires Clash(p, tb, b, v)
    ensures Clash(p, tb2, b, v)
  {
    hide WellFormed, Lists, Slot;
    KeyGroups(p, tb);
    var x, y :| x in Members(p, b) && 0 <= y < |p.ks| && Earlier(tb, p.ks[y].b, b) && Slot(p, x, v) == HashOf(p, tb, y);
    EarlierHash(p, tb, tb2, b, y);
    assert Earlier(tb2, p.ks[y].b, b) && Slot(p, x, v) == HashOf(p, tb2, y);
  }

  lemma KeyGroups(p: Problem, tb: seq<BStuff>)
    requires Lists(p, tb)
    ensures forall x :: 0 <= x < |p.ks| ==> p.ks[x].b < |tb|
  {
  }

  lemma EarlierHash(p: Problem, tb: seq<BStuff>, tb2: seq<BStuff>, b: nat, y: int)
    requires WellFormed(p) && Lists(p, tb) && Lists(p, tb2) && b < |tb| && AgreeBefore(tb, tb2, b)
    requires 0 <= y < |p.ks| && Earlier(tb, p.ks[y].b, b)
    ensures p.ks[y].b < |tb2| && Earlier(tb2, p.ks[y].b, b) && HashOf(p, tb2, y) == HashOf(p, tb, y)
  {
    var c := p.ks[y].b;
    assert tb[c].listlen == tb2[c].listlen && tb[c].val == tb2[c].val && tb[b].listlen == tb2[b].listlen;
  }

  lemma ClashSame(p: Problem, tb: seq<BStuff>, tb2: seq<BStuff>, b: nat, v: nat)
    requires WellFormed(p) && Lists(p, tb) && Lists(p, tb2) && b < |tb| && v < 256 && AgreeBefore(tb, tb2, b)
    ensures Clash(p, tb, b, v) <==> Clash(p, tb2, b, v)
  {
    hide WellFormed, Lists, Clash;
    if Clash(p, tb, b, v) {
      ClashCarries(p, tb, tb2, b, v);
    }
    AgreeBack(tb, tb2, b);
    if Clash(p, tb2, b, v) {
      ClashCarries(p, tb2, tb, b, v);
    }
  }

  lemma AgreeBack(tb: seq<BStuff>, tb2: seq<BStuff>, b: nat)
    requires b < |tb| && AgreeBefore(tb, tb2, b)
    ensures AgreeBefore(tb2, tb, b)
  {
    assert forall c :: 0 <= c < |tb| ==> tb[c].listlen == tb2[c].listlen;
  }

  lemma LeastFitSame(p: Problem, tb: seq<BStuff>, tb2: seq<BStuff>, b: nat)
    requires WellFormed(p) && Lists(p, tb) && Lists(p, tb2) && b < |tb| && AgreeBefore(tb, tb2, b)
    requires tb2[b].val == tb[b].val && LeastFit(p, tb, b)
    ensures LeastFit(p, tb2, b)
  {
    ClashSame(p, tb, tb2, b, tb[b].val);
    forall i | 0 <= i < tb[b].val ensures Clash(p, tb2, b, i) {
      ClashSame(p, tb, tb2, b, i);
    }
  }

  /** Group by group, augment changes only the index of its own group. */
  lemma AugmentedAgrees(p: Problem, tb: seq<BStuff>, th: seq<int>, tb2: seq<BStuff>, th2: seq<int>, item: nat,
                        highwater: nat, ok: bool)
    requires WellFormed(p) && |th| == |th2| == p.smax && item < |tb| && Lists(p, tb)
    requires Augmented(p, tb, th, tb2, th2, item, highwater, ok)
    ensures |tb2| == |tb| && Lists(p, tb2)
    ensures forall c :: 0 <= c < |tb| ==>
      tb[c].listlen == tb2[c].listlen && (tb[c].val == tb2[c].val || (ok && c == item))
    ensures forall c :: 0 <= c < |tb| ==> tb2[c].water == tb[c].water || tb2[c].water == highwater
  {
  }

  lemma MappingStuck(p: Problem, tb: seq<BStuff>, th: seq<int>, tb2: seq<BStuff>, th2: seq<int>, j: int, i: nat)
    requires WellFormed(p) && |th| == |th2| == p.smax && Mapping(p, tb, th, j, i) && i < |tb| && tb[i].listlen == j > 0
    requires Augmented(p, tb, th, tb2, th2, i, i + 1, false)
    ensures Lists(p, tb2) && Stuck(p, tb2)
  {
    AugmentedAgrees(p, tb, th, tb2, th2, i, i + 1, false);
    assert Lists(p, tb) && AgreeBefore(tb, tb2, i);
    forall v | 0 <= v < 256 ensures Clash(p, tb2, i, v) {
      NoFitClashes(p, tb, th, tb2, th2, j, i, v);
    }
    hide Augmented, Clash, LeastFit, WellFormed, Consistent, Lists;
    forall b | 0 <= b < |tb2| && tb2[b].listlen > 0 && Earlier(tb2, b, i) ensures LeastFit(p, tb2, b) {
      assert Done(tb, j, i, b) && AgreeBefore(tb, tb2, b);
      LeastFitSame(p, tb, tb2, b);
    }
  }

  lemma NoFitClashes(p: Problem, tb: seq<BStuff>, th: seq<int>, tb2: seq<BStuff>, th2: seq<int>, j: int, i: nat, v: nat)
    requires WellFormed(p) && |th| == |th2| == p.smax && Mapping(p, tb, th, j, i) && i < |tb| && tb[i].listlen == j > 0
    requires Augmented(p, tb, th, tb2, th2, i, i + 1, false) && v < 256
    requires Lists(p, tb) && Lists(p, tb2) && AgreeBefore(tb, tb2, i)
    ensures Clash(p, tb2, i, v)
  {
    assert !Free(p, th, Members(p, i), v);
    hide Clash, Free, Lists, WellFormed, Augmented, Mapping;
    FreeIffNoClash(p, tb, th, j, i, v);
    ClashSame(p, tb, tb2, i, v);
  }

  lemma MappingStep(p: Problem, tb: seq<BStuff>, th: seq<int>, tb2: seq<BStuff>, th2: seq<int>, j: int, i: nat)
    requires WellFormed(p) && |th| == |th2| == p.smax && Mapping(p, tb, th, j, i) && i < |tb| && tb[i].listlen == j > 0
    requires Augmented(p, tb, th, tb2, th2, i, i + 1, true)
    ensures Mapping(p, tb2, th2, j, i + 1)
  {
    hide Augmented, LeastFit, Done, WellFormed, Consistent, Lists;
    AugmentedAgrees(p, tb, th, tb2, th2, i, i + 1, true);
    DoneNext(tb, tb2, j, i);
    forall b | 0 <= b < |tb2| && Done(tb2, j, i + 1, b) ensures LeastFit(p, tb2, b) {
      if b == i {
        NewFit(p, tb, th, tb2, th2, j, i);
      } else {
        AgreesBeforeDone(tb, tb2, j, i, b);
        LeastFitSame(p, tb, tb2, b);
      }
    }
    StillConsistent(p, tb, th, tb2, th2, j, i);
    forall b | 0 <= b < |tb2| && tb2[b].water != 0
      ensures tb2[b].water <= |tb2| && Done(tb2, j, i + 1, tb2[b].water - 1)
    {
      WaterStep(p, tb, th, tb2, j, i, b);
    }
  }

  lemma WaterStep(p: Problem, tb: seq<BStuff>, th: seq<int>, tb2: seq<BStuff>, j: int, i: nat, b: nat)
    requires WellFormed(p) && |th| == p.smax && Mapping(p, tb, th, j, i) && i < |tb| && tb[i].listlen == j > 0
    requires |tb| == |tb2| && b < |tb2| && tb2[b].water != 0
    requires forall c :: 0 <= c < |tb| ==> tb[c].listlen == tb2[c].listlen
    requires tb2[b].water == tb[b].water || tb2[b].water == i + 1
    ensures tb2[b].water <= |tb2| && Done(tb2, j, i + 1, tb2[b].water - 1)
  {
    hide WellFormed, Consistent, Lists, LeastFit;
    var w: nat := tb2[b].water - 1;
    if tb2[b].water == tb[b].water {
      assert w < |tb| && Done(tb, j, i, w);
    }
    assert tb[w].listlen == tb2[w].listlen;
  }

  lemma AgreesBeforeDone(tb: seq<BStuff>, tb2: seq<BStuff>, j: int, i: nat, b: nat)
    requires |tb| == |tb2| && i < |tb| && b < |tb| && tb[i].listlen == j && Done(tb, j, i, b)
    requires forall c :: 0 <= c < |tb| ==> tb[c].listlen == tb2[c].listlen && (tb[c].val == tb2[c].val || c == i)
    ensures AgreeBefore(tb, tb2, b)
  {
  }

  lemma DoneNext(tb: seq<BStuff>, tb2: seq<BStuff>, j: int, i: nat)
    requires |tb| == |tb2| && i < |tb| && tb[i].listlen == j > 0
    requires forall c :: 0 <= c < |tb| ==> tb[c].listlen == tb2[c].listlen
    ensures forall b :: 0 <= b < |tb| ==> (Done(tb2, j, i + 1, b) <==> (Done(tb, j, i, b) || b == i))
  {
    forall b | 0 <= b < |tb| ensures Done(tb2, j, i + 1, b) <==> (Done(tb, j, i, b) || b == i) {
      assert tb[b].listlen == tb2[b].listlen;
    }
  }

  lemma NewFit(p: Problem, tb: seq<BStuff>, th: seq<int>, tb2: seq<BStuff>, th2: seq<int>, j: int, i: nat)
    requires WellFormed(p) && |th| == |th2| == p.smax && Mapping(p, tb, th, j, i) && i < |tb| && tb[i].listlen == j > 0
    requires Augmented(p, tb, th, tb2, th2, i, i + 1, true)
    ensures Lists(p, tb2) && LeastFit(p, tb2, i)
  {
    AugmentedAgrees(p, tb, th, tb2, th2, i, i + 1, true);
    var v := tb2[i].val;
    FreeIffNoClash(p, tb, th, j, i, v);
    ClashSame(p, tb, tb2, i, v);
    forall u | 0 <= u < v ensures Clash(p, tb2, i, u) {
      FreeIffNoClash(p, tb, th, j, i, u);
      ClashSame(p, tb, tb2, i, u);
    }
  }

  lemma StillConsistent(p: Problem, tb: seq<BStuff>, th: seq<int>, tb2: seq<BStuff>, th2: seq<int>, j: int, i: nat)
    requires WellFormed(p) && |th| == |th2| == p.smax && Mapping(p, tb, th, j, i) && i < |tb| && tb[i].listlen == j > 0
    requires Augmented(p, tb, th, tb2, th2, i, i + 1, true)
    ensures Lists(p, tb2) && Consistent(p, tb2, th2, j, i + 1)
  {
    AugmentedAgrees(p, tb, th, tb2, th2, i, i + 1, true);
    DoneNext(tb, tb2, j, i);
    forall h | 0 <= h < |th2| && th2[h] != NULL
      ensures 0 <= th2[h] < |p.ks| && Done(tb2, j, i + 1, p.ks[th2[h]].b) && HashOf(p, tb2, th2[h]) == h
    {
      assert th2[h] == th[h] || (th2[h] in Members(p, i) && Slot(p, th2[h], tb2[i].val) == h);
      assert th2[h] == th[h] ==> Done(tb, j, i, p.ks[th[h]].b) && HashOf(p, tb, th[h]) == h;
    }
    forall x | 0 <= x < |p.ks| && Done(tb2, j, i + 1, p.ks[x].b) ensures th2[HashOf(p, tb2, x)] == x {
      if p.ks[x].b == i {
        assert x in Members(p, i);
      } else {
        var h := HashOf(p, tb, x);
        assert th[h] == x && HashOf(p, tb2, x) == h;
      }
    }
  }
}
