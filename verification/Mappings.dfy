/** What a mapping of groups is, in terms of the pairs (a,b) alone, and that the first-fit search
    finds the one there is or shows that there is none. */
module Mappings {
  import opened Words
  import opened PerfectHash
  import opened PerfectSearch

  /** Group c is mapped before group b: larger groups first, then by number. */
  ghost predicate Before(ks: seq<Key>, c: nat, b: nat) {
    var m, n := |Group(ks, |ks|, c)|, |Group(ks, |ks|, b)|;
    m > n || (m == n && c < b)
  }

  /** With scramble index i for group b, two keys of that group and of an earlier one collide. */
  ghost predicate Collision(ks: seq<Key>, scramble: seq<nat>, vals: seq<nat>, b: nat, i: nat)
    requires |scramble| == 256 && i < 256
    requires forall c :: 0 <= c < |vals| ==> vals[c] < 256
  {
    exists x, y :: 0 <= x < |ks| && 0 <= y < |ks| && ks[x].b == b && ks[y].b < |vals| && Before(ks, ks[y].b, b)
      && Xor(ks[x].a, scramble[i]) == Xor(ks[y].a, scramble[vals[ks[y].b]])
  }

  /** Group b has the least index under which it collides with no earlier group. */
  ghost predicate Fits(ks: seq<Key>, scramble: seq<nat>, vals: seq<nat>, b: nat)
    requires |scramble| == 256 && b < |vals|
    requires forall c :: 0 <= c < |vals| ==> vals[c] < 256
  {
    && !Collision(ks, scramble, vals, b, vals[b])
    && (forall i :: 0 <= i < vals[b] ==> Collision(ks, scramble, vals, b, i))
  }

  /** Every group that has keys fits. */
  ghost predicate FirstFits(ks: seq<Key>, scramble: seq<nat>, vals: seq<nat>) {
    && |scramble| == 256
    && (forall c :: 0 <= c < |vals| ==> vals[c] < 256)
    && (forall x :: 0 <= x < |ks| ==> ks[x].b < |vals| && Fits(ks, scramble, vals, ks[x].b))
  }

  /** The keys have a mapping with blen groups. */
  ghost predicate Mappable(ks: seq<Key>, scramble: seq<nat>, blen: nat) {
    exists vals :: |vals| == blen && FirstFits(ks, scramble, vals)
  }

  // ---- The same on the tables of the search -------------------------------------------------

  ghost function Vals(tb: seq<BStuff>): (vals: seq<nat>)
    ensures |vals| == |tb| && forall b :: 0 <= b < |tb| ==> vals[b] == tb[b].val
  {
    seq(|tb|, b requires 0 <= b < |tb| => tb[b].val)
  }

  lemma SlotIs(p: Problem, tb: seq<BStuff>, x: int, i: nat, y: int)
    requires WellFormed(p) && Lists(p, tb) && 0 <= x < |p.ks| && 0 <= y < |p.ks| && i < 256
    ensures |p.scramble| == 256 && p.ks[y].b < |tb| && tb[p.ks[y].b].val < 256
    ensures Slot(p, x, i) == Xor(p.ks[x].a, p.scramble[i])
    ensures HashOf(p, tb, y) == Xor(p.ks[y].a, p.scramble[Vals(tb)[p.ks[y].b]])
  {
  }

  lemma OrderIs(p: Problem, tb: seq<BStuff>, c: nat, b: nat)
    requires Lists(p, tb) && c < |tb| && b < |tb|
    ensures Earlier(tb, c, b) <==> Before(p.ks, c, b)
  {
  }

  lemma ClashCollides(p: Problem, tb: seq<BStuff>, b: nat, i: nat)
    requires WellFormed(p) && Lists(p, tb) && b < |tb| && i < 256 && Clash(p, tb, b, i)
    ensures |p.scramble| == 256 && Collision(p.ks, p.scramble, Vals(tb), b, i)
  {
    ListsFacts(p, tb);
    hide Lists, WellFormed, Slot, HashOf, Earlier, Before;
    var x, y :| x in Members(p, b) && 0 <= y < |p.ks| && Earlier(tb, p.ks[y].b, b) && Slot(p, x, i) == HashOf(p, tb, y);
    SlotIs(p, tb, x, i, y);
    OrderIs(p, tb, p.ks[y].b, b);
  }

  lemma CollisionClashes(p: Problem, tb: seq<BStuff>, b: nat, i: nat)
    requires WellFormed(p) && Lists(p, tb) && b < |tb| && i < 256
    requires |p.scramble| == 256 && Collision(p.ks, p.scramble, Vals(tb), b, i)
    ensures Clash(p, tb, b, i)
  {
    ListsFacts(p, tb);
    hide Lists, WellFormed, Slot, HashOf, Earlier, Before;
    var vals := Vals(tb);
    var x, y :| 0 <= x < |p.ks| && 0 <= y < |p.ks| && p.ks[x].b == b && p.ks[y].b < |vals| && Before(p.ks, p.ks[y].b, b)
      && Xor(p.ks[x].a, p.scramble[i]) == Xor(p.ks[y].a, p.scramble[vals[p.ks[y].b]]);
    SlotIs(p, tb, x, i, y);
    OrderIs(p, tb, p.ks[y].b, b);
    assert x in Members(p, b);
  }

  lemma LeastFitIsFits(p: Problem, tb: seq<BStuff>, b: nat)
    requires WellFormed(p) && Lists(p, tb) && b < |tb|
    ensures LeastFit(p, tb, b) <==> Fits(p.ks, p.scramble, Vals(tb), b)
  {
    hide Clash, Collision, WellFormed;
    ListsFacts(p, tb);
    hide Lists;
    assert |p.scramble| == 256 && tb[b].val < 256;
    forall i | 0 <= i < 256 ensures Clash(p, tb, b, i) <==> Collision(p.ks, p.scramble, Vals(tb), b, i) {
      if Clash(p, tb, b, i) {
        ClashCollides(p, tb, b, i);
      }
      if Collision(p.ks, p.scramble, Vals(tb), b, i) {
        CollisionClashes(p, tb, b, i);
      }
    }
  }

  lemma ListsFacts(p: Problem, tb: seq<BStuff>)
    requires WellFormed(p) && Lists(p, tb)
    ensures |p.scramble| == 256 && forall b :: 0 <= b < |tb| ==> tb[b].val < 256
    ensures forall x :: 0 <= x < |p.ks| ==> p.ks[x].b < |tb| && tb[p.ks[x].b].listlen > 0
    ensures forall b :: 0 <= b < |tb| && tb[b].listlen > 0 ==> exists x :: 0 <= x < |p.ks| && p.ks[x].b == b
  {
    forall x | 0 <= x < |p.ks| ensures tb[p.ks[x].b].listlen > 0 {
      SomeMember(p, tb, x);
    }
    forall b | 0 <= b < |tb| && tb[b].listlen > 0 ensures exists x :: 0 <= x < |p.ks| && p.ks[x].b == b {
      var x := Members(p, b)[0];
      assert x in Members(p, b);
    }
  }

  lemma AllFitIsFirstFits(p: Problem, tb: seq<BStuff>)
    requires WellFormed(p) && Lists(p, tb)
    ensures AllFit(p, tb) <==> FirstFits(p.ks, p.scramble, Vals(tb))
  {
    ListsFacts(p, tb);
    hide WellFormed, Lists, LeastFit, Fits;
    forall b | 0 <= b < |tb| ensures LeastFit(p, tb, b) <==> Fits(p.ks, p.scramble, Vals(tb), b) {
      LeastFitIsFits(p, tb, b);
    }
  }

  // ---- There is at most one mapping, and a stuck search shows that there is none ------------

  lemma {:induction false} GroupSize(ks: seq<Key>, n: nat, b: nat)
    requires n <= |ks|
    ensures |Group(ks, n, b)| <= n
  {
    if n > 0 {
      GroupSize(ks, n - 1, b);
    }
  }

  lemma {:induction false} EarlierAgree(p: Problem, tb: seq<BStuff>, tb2: seq<BStuff>, b: nat)
    requires WellFormed(p) && Lists(p, tb) && Lists(p, tb2) && |tb| == |tb2| && b < |tb|
    requires forall c :: 0 <= c < |tb| && Earlier(tb, c, b) ==> LeastFit(p, tb, c) && LeastFit(p, tb2, c)
    ensures forall c :: 0 <= c < |tb| && Earlier(tb, c, b) ==> tb[c].val == tb2[c].val
    decreases |p.ks| - |Members(p, b)|, b, 0
  {
    GroupsBounded(p, tb);
    hide WellFormed, Lists, LeastFit, Members;
    forall c | 0 <= c < |tb| && Earlier(tb, c, b) ensures tb[c].val == tb2[c].val {
      assert forall d :: 0 <= d < |tb| && Earlier(tb, d, c) ==> Earlier(tb, d, b);
      LeastFitsAgree(p, tb, tb2, c);
    }
  }

  /** Two tables that both have the groups up to b at their least indices agree on b. */
  lemma {:induction false} LeastFitsAgree(p: Problem, tb: seq<BStuff>, tb2: seq<BStuff>, b: nat)
    requires WellFormed(p) && Lists(p, tb) && Lists(p, tb2) && |tb| == |tb2| && b < |tb|
    requires forall c :: 0 <= c < |tb| && (c == b || Earlier(tb, c, b)) ==> LeastFit(p, tb, c) && LeastFit(p, tb2, c)
    ensures tb[b].val == tb2[b].val
    decreases |p.ks| - |Members(p, b)|, b, 1
  {
    ListLengths(p, tb, tb2);
    hide WellFormed, Lists, Members, Clash, LeastFit;
    EarlierAgree(p, tb, tb2, b);
    assert AgreeBefore(tb, tb2, b);
    LeastIndex(p, tb, tb2, b);
  }

  lemma GroupsBounded(p: Problem, tb: seq<BStuff>)
    requires Lists(p, tb)
    ensures forall b :: 0 <= b < |tb| ==> tb[b].listlen == |Members(p, b)| <= |p.ks|
  {
    forall b: nat | b < |tb| ensures |Members(p, b)| <= |p.ks| {
      GroupSize(p.ks, |p.ks|, b);
    }
  }

  lemma ListLengths(p: Problem, tb: seq<BStuff>, tb2: seq<BStuff>)
    requires Lists(p, tb) && Lists(p, tb2) && |tb| == |tb2|
    ensures forall b :: 0 <= b < |tb| ==> tb[b].listlen == tb2[b].listlen
  {
  }

  lemma LeastIndex(p: Problem, tb: seq<BStuff>, tb2: seq<BStuff>, b: nat)
    requires WellFormed(p) && Lists(p, tb) && Lists(p, tb2) && b < |tb| && AgreeBefore(tb, tb2, b)
    requires LeastFit(p, tb, b) && LeastFit(p, tb2, b)
    ensures tb[b].val == tb2[b].val
  {
    assert tb[b].val < 256 && tb2[b].val < 256;
    hide WellFormed, Lists, Clash;
    ClashSame(p, tb, tb2, b, tb[b].val);
    ClashSame(p, tb, tb2, b, tb2[b].val);
  }

  /** A mapping is unique where there are keys. */
  lemma MappingUnique(p: Problem, tb: seq<BStuff>, tb2: seq<BStuff>, b: nat)
    requires WellFormed(p) && Lists(p, tb) && Lists(p, tb2) && |tb| == |tb2| && AllFit(p, tb) && AllFit(p, tb2)
    requires b < |tb| && tb[b].listlen > 0
    ensures tb[b].val == tb2[b].val
  {
    ListLengths(p, tb, tb2);
    hide WellFormed, Lists, LeastFit;
    LeastFitsAgree(p, tb, tb2, b);
  }

  /** The table that lists the same groups and has other indices. */
  ghost function WithVals(tb: seq<BStuff>, vals: seq<nat>): (tb2: seq<BStuff>)
    requires |vals| == |tb|
    ensures |tb2| == |tb| && forall b :: 0 <= b < |tb| ==> tb2[b] == tb[b].(val := vals[b])
  {
    seq(|tb|, b requires 0 <= b < |tb| => tb[b].(val := vals[b]))
  }

  lemma StillLists(p: Problem, tb: seq<BStuff>, vals: seq<nat>)
    requires Lists(p, tb) && |vals| == |tb| && forall b :: 0 <= b < |vals| ==> vals[b] < 256
    ensures Lists(p, WithVals(tb, vals)) && Vals(WithVals(tb, vals)) == vals
  {
  }

  lemma StuckHasNoOther(p: Problem, tb: seq<BStuff>, tb2: seq<BStuff>)
    requires WellFormed(p) && Lists(p, tb) && Lists(p, tb2) && |tb| == |tb2| && Stuck(p, tb)
    ensures !AllFit(p, tb2)
  {
    hide WellFormed, Lists, Clash, LeastFit, AllFit, Earlier;
    var b :| 0 <= b < |tb| && tb[b].listlen > 0
      && (forall i :: 0 <= i < 256 ==> Clash(p, tb, b, i))
      && (forall b' :: 0 <= b' < |tb| && tb[b'].listlen > 0 && Earlier(tb, b', b) ==> LeastFit(p, tb, b'));
    StuckGroup(p, tb, tb2, b);
  }

  lemma StuckGroup(p: Problem, tb: seq<BStuff>, tb2: seq<BStuff>, b: nat)
    requires WellFormed(p) && Lists(p, tb) && Lists(p, tb2) && |tb| == |tb2| && b < |tb| && tb[b].listlen > 0
    requires forall i :: 0 <= i < 256 ==> Clash(p, tb, b, i)
    requires forall b' :: 0 <= b' < |tb| && tb[b'].listlen > 0 && Earlier(tb, b', b) ==> LeastFit(p, tb, b')
    ensures !AllFit(p, tb2)
  {
    ListLengths(p, tb, tb2);
    hide WellFormed, Lists, Clash, LeastFit;
    if AllFit(p, tb2) {
      assert forall c :: 0 <= c < |tb| && Earlier(tb, c, b) ==> LeastFit(p, tb, c) && LeastFit(p, tb2, c);
      EarlierAgree(p, tb, tb2, b);
      StuckIndex(p, tb, tb2, b);
    }
  }

  lemma StuckIndex(p: Problem, tb: seq<BStuff>, tb2: seq<BStuff>, b: nat)
    requires WellFormed(p) && Lists(p, tb) && Lists(p, tb2) && |tb| == |tb2| && b < |tb|
    requires forall i :: 0 <= i < 256 ==> Clash(p, tb, b, i)
    requires forall c :: 0 <= c < |tb| && Earlier(tb, c, b) ==> tb[c].val == tb2[c].val
    ensures !LeastFit(p, tb2, b)
  {
    ListLengths(p, tb, tb2);
    assert AgreeBefore(tb, tb2, b) && tb2[b].val < 256;
    hide WellFormed, Lists, Clash;
    ClashSame(p, tb, tb2, b, tb2[b].val);
  }

  /** perfect succeeds exactly when there is a mapping. */
  lemma StuckUnmappable(p: Problem, tb: seq<BStuff>)
    requires WellFormed(p) && Lists(p, tb) && Stuck(p, tb)
    ensures !Mappable(p.ks, p.scramble, |tb|)
  {
    if Mappable(p.ks, p.scramble, |tb|) {
      var vals :| |vals| == |tb| && FirstFits(p.ks, p.scramble, vals);
      var tb2 := WithVals(tb, vals);
      StillLists(p, tb, vals);
      hide WellFormed, Lists, Stuck, FirstFits, AllFit;
      AllFitIsFirstFits(p, tb2);
      StuckHasNoOther(p, tb, tb2);
    }
  }

  lemma AllFitMappable(p: Problem, tb: seq<BStuff>)
    requires WellFormed(p) && Lists(p, tb) && AllFit(p, tb)
    ensures Mappable(p.ks, p.scramble, |tb|)
  {
    hide FirstFits;
    AllFitIsFirstFits(p, tb);
    assert |Vals(tb)| == |tb|;
  }

  // ---- A mapping depends on the pairs alone -------------------------------------------------

  lemma CollisionOfPairs(ks: seq<Key>, ks': seq<Key>, scramble: seq<nat>, vals: seq<nat>, b: nat, i: nat)
    requires SamePairs(ks, ks') && |scramble| == 256 && i < 256
    requires forall c :: 0 <= c < |vals| ==> vals[c] < 256
    requires Collision(ks, scramble, vals, b, i)
    ensures Collision(ks', scramble, vals, b, i)
  {
    var x, y :| 0 <= x < |ks| && 0 <= y < |ks| && ks[x].b == b && ks[y].b < |vals| && Before(ks, ks[y].b, b)
      && Xor(ks[x].a, scramble[i]) == Xor(ks[y].a, scramble[vals[ks[y].b]]);
    GroupSame(ks, ks', |ks|, b);
    GroupSame(ks, ks', |ks|, ks[y].b);
    assert ks'[x].b == b && Before(ks', ks'[y].b, b);
  }

  lemma FitsOfPairs(ks: seq<Key>, ks': seq<Key>, scramble: seq<nat>, vals: seq<nat>, b: nat)
    requires SamePairs(ks, ks') && |scramble| == 256 && b < |vals|
    requires forall c :: 0 <= c < |vals| ==> vals[c] < 256
    requires Fits(ks, scramble, vals, b)
    ensures Fits(ks', scramble, vals, b)
  {
    hide Collision;
    if Collision(ks', scramble, vals, b, vals[b]) {
      CollisionOfPairs(ks', ks, scramble, vals, b, vals[b]);
    }
    forall i | 0 <= i < vals[b] ensures Collision(ks', scramble, vals, b, i) {
      CollisionOfPairs(ks, ks', scramble, vals, b, i);
    }
  }

  lemma MappableOfPairs(ks: seq<Key>, ks': seq<Key>, scramble: seq<nat>, blen: nat)
    requires SamePairs(ks, ks') && Mappable(ks, scramble, blen)
    ensures Mappable(ks', scramble, blen)
  {
    hide Fits;
    var vals :| |vals| == blen && FirstFits(ks, scramble, vals);
    forall x | 0 <= x < |ks'| ensures ks'[x].b < |vals| && Fits(ks', scramble, vals, ks'[x].b) {
      assert ks'[x].b == ks[x].b;
      FitsOfPairs(ks, ks', scramble, vals, ks[x].b);
    }
    assert FirstFits(ks', scramble, vals);
  }
}
