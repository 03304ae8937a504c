/** What copying and releasing blocks may change, what a copied block means, and what is left when
    nobody holds anything any more. */
module BlockMeaning {
  import opened BlockHeap
  import L = LatchingCount

  // ---- Copying ------------------------------------------------------------------------------

  function WithCount(c: Cell, n: nat): Cell
    requires !c.Freed?
  {
    WithFlags(c, c.flags.(count := n))
  }

  /** While blocks are copied, heap cells win references, unless they have latched; a stack variable
      that is its own cell may move to a new heap cell of the same value, and once it has moved it
      stays. */
  ghost predicate CellExtends(h: seq<Cell>, h': seq<Cell>, i: nat)
    requires i < |h| <= |h'|
  {
    if h[i].Freed? then h'[i].Freed?
    else if h[i].flags.needsFree then
      && !h'[i].Freed? && h'[i] == WithCount(h[i], h'[i].flags.count)
      && h'[i].flags.count >= h[i].flags.count && (h[i].flags.count == L.LATCHED ==> h'[i] == h[i])
    else if h[i].BlockCell? then h'[i] == h[i]
    else
      h'[i].ByrefCell? && h'[i] == h[i].(forwarding := h'[i].forwarding)
      && (h'[i].forwarding == h[i].forwarding || (h[i].forwarding == i && MovedTo(h, h', i, h'[i].forwarding)))
  }

  ghost predicate MovedTo(h: seq<Cell>, h': seq<Cell>, i: nat, n: nat)
    requires i < |h| <= |h'| && h[i].ByrefCell?
  {
    && |h| <= n < |h'| && h'[n].ByrefCell? && OnHeap(h'[n]) && h'[n].forwarding == n && h'[n].value == h[i].value
    && h'[n].flags.hasCopyDispose == h[i].flags.hasCopyDispose
  }

  /** One copy, or part of one: nothing changes but as above, and of the blocks only those of rank
      below `bound`; `except` is a block under construction, or -1. */
  ghost predicate Extends(w: World, w': World, bound: nat, except: int) {
    && |w.heap| == |w.rank| <= |w'.heap| == |w'.rank|
    && (forall i :: 0 <= i < |w.rank| ==> w'.rank[i] == w.rank[i])
    && (forall i :: 0 <= i < |w.heap| && w.heap[i].ByrefCell? ==> (i in w'.detached <==> i in w.detached))
    && (0 <= except < |w.heap| ==> w.heap[except].BlockCell? && w'.heap[except].BlockCell?)
    && (forall i :: 0 <= i < |w.heap| && i != except ==> CellExtends(w.heap, w'.heap, i))
    && (forall i :: 0 <= i < |w.heap| && i != except && w.heap[i].BlockCell? && w.rank[i] >= bound ==>
          w'.heap[i] == w.heap[i])
  }

  lemma CellExtendsTrans(h1: seq<Cell>, h2: seq<Cell>, h3: seq<Cell>, i: nat)
    requires i < |h1| <= |h2| <= |h3|
    requires CellExtends(h1, h2, i) && CellExtends(h2, h3, i)
    requires Moved(h2, i) && !Moved(h1, i) ==> h2[i].forwarding < |h2| ==> CellExtends(h2, h3, h2[i].forwarding)
    ensures CellExtends(h1, h3, i)
  {
  }

  lemma ExtendsTrans(w1: World, w2: World, w3: World, bound: nat, except: int)
    requires Extends(w1, w2, bound, except) && Extends(w2, w3, bound, except) && except < |w1.heap|
    ensures Extends(w1, w3, bound, except)
  {
    hide CellExtends;
    forall i | 0 <= i < |w1.heap| && i != except
      ensures CellExtends(w1.heap, w3.heap, i) && (w1.heap[i].ByrefCell? ==> w2.heap[i].ByrefCell?)
    {
      MovesPast(w1.heap, w2.heap, i);
      CellExtendsTrans(w1.heap, w2.heap, w3.heap, i);
    }
  }

  lemma MovesPast(h: seq<Cell>, h': seq<Cell>, i: nat)
    requires i < |h| <= |h'| && CellExtends(h, h', i)
    ensures Moved(h', i) && !Moved(h, i) ==> |h| <= h'[i].forwarding < |h'| && h'[h'[i].forwarding].ByrefCell?
    ensures h[i].ByrefCell? ==> h'[i].ByrefCell?
  {
  }

  /** A block that did not exist before need not be left alone. */
  lemma ExtendsPast(w1: World, w2: World, w3: World, bound: nat, n: nat)
    requires Extends(w1, w2, bound, -1) && Extends(w2, w3, bound, n) && n >= |w1.heap|
    ensures Extends(w1, w3, bound, -1)
  {
    hide CellExtends;
    forall i | 0 <= i < |w1.heap|
      ensures CellExtends(w1.heap, w3.heap, i) && (w1.heap[i].ByrefCell? ==> w2.heap[i].ByrefCell?)
    {
      MovesPast(w1.heap, w2.heap, i);
      CellExtendsTrans(w1.heap, w2.heap, w3.heap, i);
    }
  }

  lemma ExtendsSelf(w: World, bound: nat, except: int)
    requires CellsOk(w) && (0 <= except < |w.heap| ==> w.heap[except].BlockCell?)
    ensures Extends(w, w, bound, except)
  {
  }

  /** A wider bound allows more. */
  lemma ExtendsWider(w: World, w': World, bound: nat, wider: nat, except: int)
    requires Extends(w, w', bound, -1) && bound <= wider && (0 <= except < |w.heap| ==> w.heap[except].BlockCell?)
    ensures Extends(w, w', wider, except)
  {
    if 0 <= except < |w.heap| {
      assert CellExtends(w.heap, w'.heap, except);
    }
  }

  // ---- What can be copied, and what a copy is -----------------------------------------------

  /** Nothing that copying the block would touch is dangling. */
  ghost predicate Copyable(w: World, p: nat)
    requires p < |w.heap| == |w.rank|
    decreases w.rank[p]
  {
    p == 0 || (
      && w.heap[p].BlockCell? && !w.heap[p].flags.deallocating
      && (OnStack(w.heap[p]) ==>
            forall k :: 0 <= k < |w.heap[p].captures| ==>
              RefOk(w.heap, w.rank, p, w.heap[p].captures[k]) && CaptureCopyable(w, p, w.heap[p].captures[k])))
  }

  ghost predicate CaptureCopyable(w: World, p: nat, r: Ref)
    requires p < |w.heap| == |w.rank| && RefOk(w.heap, w.rank, p, r)
    decreases w.rank[p], r
  {
    match r
    case Obj(_) => true
    case Blk(q) => Copyable(w, q)
    case Byr(b) => w.heap[b].ByrefCell? && b !in w.detached
  }

  /** `q` is what copying `p` gives: `p` itself unless it is on the stack; otherwise a heap block with
      the same code whose captures are the same objects, copies of the captured blocks, and the
      cells that the captured variables have moved to. */
  ghost predicate SameClosure(w: World, p: nat, q: nat)
    requires p < |w.heap| == |w.rank|
    decreases w.rank[p]
  {
    if p == 0 || !OnStack(w.heap[p]) then q == p
    else
      && q < |w.heap| == |w.rank| && w.rank[q] == w.rank[p]
      && w.heap[q].BlockCell? && OnHeap(w.heap[q]) && w.heap[q].code == w.heap[p].code
      && w.heap[q].flags.hasCopyDispose == w.heap[p].flags.hasCopyDispose
      && |w.heap[q].captures| == |w.heap[p].captures|
      && (forall k :: 0 <= k < |w.heap[p].captures| ==>
            RefOk(w.heap, w.rank, p, w.heap[p].captures[k])
            && SameCapture(w, p, w.heap[p].captures[k], w.heap[q].captures[k]))
  }

  ghost predicate SameCapture(w: World, p: nat, r: Ref, s: Ref)
    requires p < |w.heap| == |w.rank| && RefOk(w.heap, w.rank, p, r)
    decreases w.rank[p], r
  {
    match r
    case Obj(_) => s == r
    case Blk(q) => s.Blk? && SameClosure(w, q, s.at)
    case Byr(b) => s.Byr? && w.heap[b].ByrefCell? && w.heap[b].forwarding == s.at && Alive(w.heap, s)
  }

  lemma CapturesOk(w: World, p: nat, k: nat)
    requires CellsOk(w) && p < |w.heap| && w.heap[p].BlockCell? && k < |w.heap[p].captures|
    ensures RefOk(w.heap, w.rank, p, w.heap[p].captures[k])
  {
    assert CellOk(w.heap, w.rank, w.detached, p);
  }

  /** What could be copied still can after something else was. */
  lemma {:induction false} CopyableKept(w: World, w': World, bound: nat, except: int, p: nat)
    requires CellsOk(w) && CellsOk(w') && Extends(w, w', bound, except) && p < |w.heap|
    requires Copyable(w, p) && (0 <= except < |w.heap| ==> w.rank[except] > w.rank[p])
    ensures Copyable(w', p)
    decreases w.rank[p]
  {
    if p != 0 {
      assert CellExtends(w.heap, w'.heap, p);
      if OnStack(w.heap[p]) {
        forall k | 0 <= k < |w.heap[p].captures|
          ensures RefOk(w'.heap, w'.rank, p, w.heap[p].captures[k]) && CaptureCopyable(w', p, w.heap[p].captures[k])
        {
          CaptureKept(w, w', bound, except, p, w.heap[p].captures[k]);
        }
      }
    }
  }

  lemma {:induction false} CaptureKept(w: World, w': World, bound: nat, except: int, p: nat, r: Ref)
    requires CellsOk(w) && CellsOk(w') && Extends(w, w', bound, except) && p < |w.heap|
    requires RefOk(w.heap, w.rank, p, r) && CaptureCopyable(w, p, r)
    requires 0 <= except < |w.heap| ==> w.rank[except] >= w.rank[p]
    ensures RefOk(w'.heap, w'.rank, p, r) && CaptureCopyable(w', p, r)
    decreases w.rank[p], r
  {
    match r
    case Obj(_) =>
    case Blk(q) =>
      CopyableKept(w, w', bound, except, q);
    case Byr(b) =>
      assert CellExtends(w.heap, w'.heap, b);
  }

  /** A copy stays a copy while other blocks are copied. */
  lemma {:induction false} SameClosureKept(w: World, w': World, bound: nat, except: int, p: nat, q: nat)
    requires CellsOk(w) && CellsOk(w') && Extends(w, w', bound, except) && p < |w.heap|
    requires SameClosure(w, p, q) && (0 <= except < |w.heap| ==> w.rank[except] > w.rank[p])
    ensures SameClosure(w', p, q)
    decreases w.rank[p]
  {
    assert CellExtends(w.heap, w'.heap, p);
    if p != 0 && OnStack(w.heap[p]) {
      assert CellExtends(w.heap, w'.heap, q);
      forall k | 0 <= k < |w.heap[p].captures|
        ensures RefOk(w'.heap, w'.rank, p, w.heap[p].captures[k])
        ensures SameCapture(w', p, w.heap[p].captures[k], w.heap[q].captures[k])
      {
        SameCaptureKept(w, w', bound, except, p, w.heap[p].captures[k], w.heap[q].captures[k]);
      }
    }
  }

  lemma {:induction false} SameCaptureKept(w: World, w': World, bound: nat, except: int, p: nat, r: Ref, s: Ref)
    requires CellsOk(w) && CellsOk(w') && Extends(w, w', bound, except) && p < |w.heap|
    requires RefOk(w.heap, w.rank, p, r) && SameCapture(w, p, r, s)
    requires 0 <= except < |w.heap| ==> w.rank[except] >= w.rank[p]
    ensures RefOk(w'.heap, w'.rank, p, r) && SameCapture(w', p, r, s)
    decreases w.rank[p], r
  {
    match r
    case Obj(_) =>
    case Blk(q) =>
      SameClosureKept(w, w', bound, except, q, s.at);
    case Byr(b) =>
      assert CellExtends(w.heap, w'.heap, b);
      assert CellExtends(w.heap, w'.heap, s.at);
  }

  // ---- Variables ----------------------------------------------------------------------------

  predicate Variable(w: World, x: nat) {
    x < |w.heap| && w.heap[x].ByrefCell? && x !in w.detached && w.heap[x].forwarding < |w.heap|
    && w.heap[w.heap[x].forwarding].ByrefCell?
  }

  /** Every access goes through the forwarding pointer. */
  function Resolve(w: World, x: nat): nat
    requires Variable(w, x)
  {
    w.heap[x].forwarding
  }

  function Value(w: World, x: nat): nat
    requires Variable(w, x)
  {
    w.heap[Resolve(w, x)].value
  }

  /** The forwarding pointer leads to the cell itself or to a live heap cell, which is its own
      forwarding. */
  lemma ForwardingSettles(w: World, x: nat)
    requires Inv(w) && x < |w.heap| && w.heap[x].ByrefCell? && x !in w.detached
    ensures Variable(w, x)
    ensures var f := Resolve(w, x);
      f !in w.detached && w.heap[f].forwarding == f && (f != x ==> !w.heap[x].flags.needsFree && OnHeap(w.heap[f]))
    ensures OnHeap(w.heap[Resolve(w, x)]) <==> w.heap[Resolve(w, x)].flags.count != 0
    ensures w.heap[Resolve(w, x)].flags.count == 0 ==> Resolve(w, x) == x && !w.heap[x].flags.needsFree
  {
    assert CellOk(w.heap, w.rank, w.detached, x);
    if Moved(w.heap, x) {
      assert Byr(w.heap[x].forwarding) in Owned(w.heap, w.detached, x);
      assert Alive(w.heap, Byr(w.heap[x].forwarding));
    }
    assert CellOk(w.heap, w.rank, w.detached, w.heap[x].forwarding);
  }

  /** Copying blocks moves variables but keeps their values, and what shares a cell keeps sharing. */
  lemma VariablesKept(w: World, w': World, bound: nat, x: nat, y: nat)
    requires Inv(w) && Inv(w') && Extends(w, w', bound, -1)
    requires Variable(w, x) && Variable(w, y)
    ensures Variable(w', x) && Variable(w', y)
    ensures Value(w', x) == Value(w, x)
    ensures Resolve(w', x) == Resolve(w', y) <==> Resolve(w, x) == Resolve(w, y)
    ensures Resolve(w', x) == Resolve(w, x) || (Resolve(w, x) == x && OnHeap(w'.heap[Resolve(w', x)]))
  {
    assert CellExtends(w.heap, w'.heap, x) && CellExtends(w.heap, w'.heap, y);
    ForwardingSettles(w, x);
    ForwardingSettles(w, y);
    ForwardingSettles(w', x);
    ForwardingSettles(w', y);
    assert CellExtends(w.heap, w'.heap, Resolve(w, x));
  }

  // ---- Releasing ----------------------------------------------------------------------------

  /** While references are given up, live heap cells lose references or are freed, unless they have
      latched. */
  ghost predicate CellShrinks(h: seq<Cell>, h': seq<Cell>, i: nat)
    requires i < |h| == |h'|
  {
    if !OnHeap(h[i]) || h[i].flags.count == L.LATCHED then h'[i] == h[i]
    else
      h'[i].Freed? || (1 <= h'[i].flags.count <= h[i].flags.count && h'[i] == WithCount(h[i], h'[i].flags.count))
  }

  ghost predicate Shrinks(w: World, w': World) {
    && |w.heap| == |w'.heap| && w'.rank == w.rank && w'.detached == w.detached
    && (forall i :: 0 <= i < |w.heap| ==> CellShrinks(w.heap, w'.heap, i))
  }

  lemma ShrinksTrans(w1: World, w2: World, w3: World)
    requires Shrinks(w1, w2) && Shrinks(w2, w3)
    ensures Shrinks(w1, w3)
  {
    forall i | 0 <= i < |w1.heap| ensures CellShrinks(w1.heap, w3.heap, i) {
      assert CellShrinks(w1.heap, w2.heap, i) && CellShrinks(w2.heap, w3.heap, i);
    }
  }

  // ---- The end ------------------------------------------------------------------------------

  /** Nobody holds a reference and no moved variable is in scope. */
  ghost predicate NobodyHolds(w: World) {
    && w.owed == multiset{} && w.detached == {}
    && (forall i: nat :: Moved(w.heap, i) ==> w.heap[i].flags.needsFree)
  }

  ghost predicate NoneLatched(w: World) {
    forall i :: 0 <= i < |w.heap| && OnHeap(w.heap[i]) ==> w.heap[i].flags.count != L.LATCHED
  }

  /** Then every owner of a heap cell is a live heap block, of higher rank if the cell is a block. */
  lemma OwnerIsBlock(w: World, r: Ref) returns (i: nat)
    requires Inv(w) && NobodyHolds(w) && References(w, r) > 0
    ensures i < |w.heap| && w.heap[i].BlockCell? && OnHeap(w.heap[i])
    ensures r.Blk? && r.at < |w.rank| ==> w.rank[i] > w.rank[r.at]
  {
    i := OwnerExists(w.heap, w.detached, |w.heap|, r);
    assert CellOk(w.heap, w.rank, w.detached, i);
  }

  lemma {:induction false} NoBlockLeft(w: World, a: nat)
    requires Inv(w) && NobodyHolds(w) && NoneLatched(w) && a < |w.heap|
    ensures !(w.heap[a].BlockCell? && OnHeap(w.heap[a]))
    decreases |w.heap| - w.rank[a]
  {
    if w.heap[a].BlockCell? && OnHeap(w.heap[a]) {
      assert CellOk(w.heap, w.rank, w.detached, a);
      assert Counted(w.heap, a);
      var i := OwnerIsBlock(w, Blk(a));
      NoBlockLeft(w, i);
    }
  }

  /** When nobody holds anything, every heap cell has been freed, and every object released as often
      as it was retained, exactly if no count has latched. */
  lemma NothingLeft(w: World)
    requires Inv(w) && NobodyHolds(w)
    ensures NoneLatched(w) <==> (forall i :: 0 <= i < |w.heap| ==> !OnHeap(w.heap[i]))
    ensures NoneLatched(w) ==> w.retained == multiset{}
  {
    if NoneLatched(w) {
      forall i | 0 <= i < |w.heap| ensures !OnHeap(w.heap[i]) {
        NoBlockLeft(w, i);
        if OnHeap(w.heap[i]) {
          assert CellOk(w.heap, w.rank, w.detached, i);
          assert Counted(w.heap, i);
          var b := OwnerIsBlock(w, Byr(i));
          NoBlockLeft(w, b);
        }
      }
      forall o | o in w.retained ensures false {
        var b := OwnerIsBlock(w, Obj(o));
        NoBlockLeft(w, b);
      }
    }
  }
}
