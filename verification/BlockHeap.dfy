/** Memory as the block runtime sees it: blocks and `__block` variables on the stack and on the
    heap, who owns references to what, and the invariant that every count is the number of owners. */
module BlockHeap {
  import L = LatchingCount

  /** What a block captures that needs help when the block is copied: an object, a block, or the
      cell of a `__block` variable. Addresses are positions in the heap; 0 is NULL. */
  datatype Ref = Obj(id: nat) | Blk(at: nat) | Byr(at: nat)

  /** The flags word: the count and the deallocating bit of its low half, and the flag bits above. */
  datatype Flags = Flags(count: nat, deallocating: bool, needsFree: bool, hasCopyDispose: bool, isGlobal: bool)

  datatype Cell =
    | Freed
    | BlockCell(flags: Flags, code: nat, captures: seq<Ref>)
    | ByrefCell(flags: Flags, forwarding: nat, value: nat)

  /** Memory; the creation order that captures follow; the references held by clients or in
      transit; the cells whose references are in transit; the retains of objects. */
  datatype World = World(heap: seq<Cell>, rank: seq<nat>, owed: multiset<Ref>, detached: set<nat>,
                         retained: multiset<nat>)

  /** The cell at an address. */
  function At(w: World, a: nat): Cell { if a < |w.heap| then w.heap[a] else Freed }

  function RankOf(w: World, a: nat): nat { if a < |w.rank| then w.rank[a] else 0 }

  predicate OnHeap(c: Cell) { !c.Freed? && c.flags.needsFree && !c.flags.deallocating }

  predicate OnStack(c: Cell) { c.BlockCell? && !c.flags.needsFree && !c.flags.isGlobal }

  /** A reference that may be held: NULL, or to something that stays while it is held. */
  predicate Alive(h: seq<Cell>, r: Ref) {
    match r
    case Obj(_) => true
    case Blk(a) => a == 0 || (a < |h| && h[a].BlockCell? && (h[a].flags.isGlobal || OnHeap(h[a])))
    case Byr(a) => a < |h| && h[a].ByrefCell? && OnHeap(h[a])
  }

  /** The references a cell owns: a heap block its captures, a stack variable that has moved its
      heap cell. */
  function Owned(h: seq<Cell>, detached: set<nat>, i: nat): multiset<Ref>
    requires i < |h|
  {
    if i in detached then multiset{}
    else match h[i]
      case Freed => multiset{}
      case BlockCell(f, _, captures) => if f.needsFree then multiset(captures) else multiset{}
      case ByrefCell(f, forwarding, _) =>
        if !f.needsFree && forwarding != i then multiset{Byr(forwarding)} else multiset{}
  }

  function Owners(h: seq<Cell>, detached: set<nat>, n: nat, r: Ref): nat
    requires n <= |h|
  {
    if n == 0 then 0 else Owners(h, detached, n - 1, r) + Owned(h, detached, n - 1)[r]
  }

  /** How many references to `r` there are. */
  function References(w: World, r: Ref): nat {
    w.owed[r] + Owners(w.heap, w.detached, |w.heap|, r)
  }

  // ---- The invariant ------------------------------------------------------------------------

  predicate RefOk(h: seq<Cell>, rank: seq<nat>, i: nat, r: Ref)
    requires i < |h| == |rank|
  {
    match r
    case Obj(_) => true
    case Blk(q) => q < |h| && rank[q] < rank[i]
    case Byr(b) => b < |h|
  }

  ghost predicate BlockOk(h: seq<Cell>, rank: seq<nat>, detached: set<nat>, i: nat)
    requires i < |h| == |rank| && h[i].BlockCell?
  {
    var f := h[i].flags;
    && i > 0 && f.count <= L.LATCHED
    && !(f.needsFree && f.isGlobal)
    && (f.needsFree && !f.deallocating ==> f.count >= 1)
    && (f.deallocating ==> f.needsFree && f.count == 0 && i in detached)
    && (!f.needsFree ==> i !in detached)
    && (f.isGlobal || !f.hasCopyDispose ==> h[i].captures == [])
    && (forall k :: 0 <= k < |h[i].captures| ==> RefOk(h, rank, i, h[i].captures[k]))
  }

  ghost predicate ByrefOk(h: seq<Cell>, detached: set<nat>, i: nat)
    requires i < |h| && h[i].ByrefCell?
  {
    var f := h[i].flags;
    && i > 0 && h[i].forwarding < |h| && f.count <= L.LATCHED && !f.deallocating
    && (f.needsFree ==> h[i].forwarding == i && f.count >= 1 && i !in detached)
    && (!f.needsFree ==> f.count == 0)
  }

  ghost predicate CellOk(h: seq<Cell>, rank: seq<nat>, detached: set<nat>, i: nat)
    requires i < |h| == |rank|
  {
    match h[i]
    case Freed => i !in detached
    case BlockCell(_, _, _) => BlockOk(h, rank, detached, i)
    case ByrefCell(_, _, _) => ByrefOk(h, detached, i)
  }

  predicate Moved(h: seq<Cell>, i: nat) {
    i < |h| && h[i].ByrefCell? && h[i].forwarding != i
  }

  ghost predicate CellsOk(w: World) {
    && |w.heap| == |w.rank| >= 1 && w.heap[0].Freed?
    && (forall i :: 0 <= i < |w.rank| ==> w.rank[i] <= i)
    && (forall i :: i in w.detached ==> i < |w.heap|)
    && (forall i :: 0 <= i < |w.heap| ==> CellOk(w.heap, w.rank, w.detached, i))
    && (forall i: nat, j: nat ::
          Moved(w.heap, i) && Moved(w.heap, j) && w.heap[i].forwarding == w.heap[j].forwarding ==> i == j)
  }

  ghost predicate AllAlive(w: World) {
    && (forall r :: r in w.owed ==> Alive(w.heap, r))
    && (forall i, r :: 0 <= i < |w.heap| && r in Owned(w.heap, w.detached, i) ==> Alive(w.heap, r))
  }

  function RefTo(h: seq<Cell>, a: nat): Ref
    requires a < |h|
  {
    if h[a].ByrefCell? then Byr(a) else Blk(a)
  }

  predicate Counted(h: seq<Cell>, a: nat) { a < |h| && OnHeap(h[a]) && h[a].flags.count < L.LATCHED }

  /** Every count that is not latched is the number of references, and every object has been
      retained as often as it is referenced. */
  ghost predicate CountsRight(w: World) {
    && (forall a: nat :: Counted(w.heap, a) ==> w.heap[a].flags.count == References(w, RefTo(w.heap, a)))
    && (forall o :: w.retained[o] == References(w, Obj(o)))
  }

  ghost predicate Inv(w: World) { CellsOk(w) && AllAlive(w) && CountsRight(w) }

  // ---- Counting -----------------------------------------------------------------------------

  lemma {:induction false} OwnersChange(h: seq<Cell>, d: set<nat>, h': seq<Cell>, d': set<nat>, j: nat, n: nat, r: Ref)
    requires n <= |h| && n <= |h'|
    requires forall i :: 0 <= i < n && i != j ==> Owned(h', d', i) == Owned(h, d, i)
    ensures j >= n ==> Owners(h', d', n, r) == Owners(h, d, n, r)
    ensures j < n ==> Owners(h', d', n, r) - Owned(h', d', j)[r] == Owners(h, d, n, r) - Owned(h, d, j)[r]
  {
    hide Owned;
    if n > 0 {
      OwnersChange(h, d, h', d', j, n - 1, r);
    }
  }

  lemma {:induction false} OwnersMember(h: seq<Cell>, d: set<nat>, n: nat, i: nat, r: Ref)
    requires i < n <= |h| && r in Owned(h, d, i)
    ensures Owners(h, d, n, r) >= 1
  {
    hide Owned;
    if i < n - 1 {
      OwnersMember(h, d, n - 1, i, r);
    }
  }

  /** Something that is referenced has an owner. */
  lemma {:induction false} OwnerExists(h: seq<Cell>, d: set<nat>, n: nat, r: Ref) returns (i: nat)
    requires n <= |h| && Owners(h, d, n, r) > 0
    ensures i < n && r in Owned(h, d, i)
  {
    hide Owned;
    if Owned(h, d, n - 1)[r] > 0 {
      i := n - 1;
    } else {
      i := OwnerExists(h, d, n - 1, r);
    }
  }

  /** The worlds agree everywhere but at `j` and in what is in transit. */
  ghost predicate Elsewhere(w: World, w': World, j: nat) {
    && |w'.heap| == |w.heap| && w'.rank == w.rank && j < |w.heap|
    && (forall i :: 0 <= i < |w.heap| && i != j ==> w'.heap[i] == w.heap[i] && (i in w'.detached <==> i in w.detached))
  }

  lemma ReferencesChange(w: World, w': World, j: nat, r: Ref)
    requires Elsewhere(w, w', j)
    ensures References(w', r) - w'.owed[r] - Owned(w'.heap, w'.detached, j)[r]
      == References(w, r) - w.owed[r] - Owned(w.heap, w.detached, j)[r]
  {
    OwnersChange(w.heap, w.detached, w'.heap, w'.detached, j, |w.heap|, r);
  }

  /** The second world has one cell more. */
  ghost predicate Grown(w: World, w': World) {
    && |w'.heap| == |w.heap| + 1 && |w'.rank| == |w.rank| + 1
    && w'.heap[..|w.heap|] == w.heap && w'.rank[..|w.rank|] == w.rank
    && (forall i :: 0 <= i < |w.heap| ==> (i in w'.detached <==> i in w.detached))
  }

  lemma ReferencesGrown(w: World, w': World, r: Ref)
    requires Grown(w, w')
    ensures References(w', r) == References(w, r) - w.owed[r] + w'.owed[r] + Owned(w'.heap, w'.detached, |w.heap|)[r]
  {
    forall i | 0 <= i < |w.heap| ensures Owned(w'.heap, w'.detached, i) == Owned(w.heap, w.detached, i) {
      assert w'.heap[i] == w'.heap[..|w.heap|][i];
    }
    OwnersChange(w.heap, w.detached, w'.heap, w'.detached, |w.heap|, |w.heap|, r);
  }

  // ---- One cell changes ---------------------------------------------------------------------

  lemma CellsOkUpdate(w: World, w': World, j: nat)
    requires CellsOk(w) && Elsewhere(w, w', j) && j > 0 && CellOk(w'.heap, w'.rank, w'.detached, j)
    requires forall i :: i in w'.detached ==> i < |w.heap|
    requires Moved(w'.heap, j) ==> Moved(w.heap, j) && w'.heap[j].forwarding == w.heap[j].forwarding
    ensures CellsOk(w')
  {
    forall i | 0 <= i < |w.heap| ensures CellOk(w'.heap, w'.rank, w'.detached, i) {
      assert CellOk(w.heap, w.rank, w.detached, i);
    }
    forall i: nat | Moved(w'.heap, i) ensures Moved(w.heap, i) && w'.heap[i].forwarding == w.heap[i].forwarding {
    }
  }

  ghost predicate AliveKept(h: seq<Cell>, h': seq<Cell>) {
    forall r :: Alive(h, r) ==> Alive(h', r)
  }

  lemma AllAliveUpdate(w: World, w': World, j: nat)
    requires AllAlive(w) && Elsewhere(w, w', j) && AliveKept(w.heap, w'.heap)
    requires forall r :: r in w'.owed ==> Alive(w'.heap, r)
    requires forall r :: r in Owned(w'.heap, w'.detached, j) ==> Alive(w'.heap, r)
    ensures AllAlive(w')
  {
    hide Alive, Owned;
    forall i, r | 0 <= i < |w'.heap| && r in Owned(w'.heap, w'.detached, i) ensures Alive(w'.heap, r) {
      if i != j {
        OwnedSame(w, w', j, i);
        assert Alive(w.heap, r);
      }
    }
  }

  lemma OwnedSame(w: World, w': World, j: nat, i: nat)
    requires Elsewhere(w, w', j) && i < |w.heap| && i != j
    ensures Owned(w'.heap, w'.detached, i) == Owned(w.heap, w.detached, i)
  {
  }

  /** The counts are right again if that of the changed cell is and no other cell's references
      were won or lost. */
  lemma CountsUpdate(w: World, w': World, j: nat)
    requires CountsRight(w) && Elsewhere(w, w', j)
    requires forall r :: r != RefTo(w.heap, j) && !r.Obj? ==> References(w', r) == References(w, r)
    requires forall o :: w'.retained[o] == References(w', Obj(o))
    requires Counted(w'.heap, j) ==> w'.heap[j].flags.count == References(w', RefTo(w'.heap, j))
    ensures CountsRight(w')
  {
    hide References;
    forall a: nat | Counted(w'.heap, a) ensures w'.heap[a].flags.count == References(w', RefTo(w'.heap, a)) {
      if a != j {
        assert Counted(w.heap, a);
      }
    }
  }

  function WithFlags(c: Cell, f: Flags): Cell
    requires !c.Freed?
  {
    match c
    case BlockCell(_, code, captures) => BlockCell(f, code, captures)
    case ByrefCell(_, forwarding, value) => ByrefCell(f, forwarding, value)
  }

  /** `latching_incr_int` on the decoded word. */
  function Incremented(f: Flags): Flags { if f.count == L.LATCHED then f else f.(count := f.count + 1) }

  /** A new reference to a heap cell. */
  function Retained(w: World, a: nat): World
    requires !At(w, a).Freed?
  {
    w.(heap := w.heap[a := WithFlags(w.heap[a], Incremented(w.heap[a].flags))],
       owed := w.owed + multiset{RefTo(w.heap, a)})
  }

  lemma RetainedShape(w: World, a: nat)
    requires CellsOk(w) && a < |w.heap| && OnHeap(w.heap[a])
    ensures var w' := Retained(w, a);
      && Elsewhere(w, w', a) && CellsOk(w') && AliveKept(w.heap, w'.heap)
      && Owned(w'.heap, w'.detached, a) == Owned(w.heap, w.detached, a)
      && RefTo(w'.heap, a) == RefTo(w.heap, a)
  {
    var w' := Retained(w, a);
    assert CellOk(w.heap, w.rank, w.detached, a);
    CellsOkUpdate(w, w', a);
  }

  /** Taking a reference to a live cell. */
  lemma RetainedKeeps(w: World, a: nat)
    requires Inv(w) && a < |w.heap| && OnHeap(w.heap[a])
    ensures Inv(Retained(w, a))
  {
    hide CellsOk, CellOk, Owned, References;
    var w' := Retained(w, a);
    RetainedShape(w, a);
    forall r ensures References(w', r) == References(w, r) + (if r == RefTo(w.heap, a) then 1 else 0) {
      ReferencesChange(w, w', a, r);
    }
    AllAliveUpdate(w, w', a);
    CountsUpdate(w, w', a);
  }

  // ---- Giving up a reference ----------------------------------------------------------------

  /** `latching_decr_int_should_deallocate` on the decoded word would return true. */
  predicate LastReference(f: Flags) { f.count == 1 && !f.deallocating }

  /** What it writes when it returns false. */
  function Decremented(f: Flags): Flags {
    if f.count == L.LATCHED || f.count == 0 then f else f.(count := f.count - 1)
  }

  function Released(w: World, a: nat): World
    requires !At(w, a).Freed?
  {
    w.(heap := w.heap[a := WithFlags(w.heap[a], Decremented(w.heap[a].flags))],
       owed := w.owed - multiset{RefTo(w.heap, a)})
  }

  lemma ReleasedShape(w: World, a: nat)
    requires CellsOk(w) && a < |w.heap| && OnHeap(w.heap[a]) && !LastReference(w.heap[a].flags)
    ensures var w' := Released(w, a);
      && Elsewhere(w, w', a) && CellsOk(w') && AliveKept(w.heap, w'.heap)
      && Owned(w'.heap, w'.detached, a) == Owned(w.heap, w.detached, a)
      && RefTo(w'.heap, a) == RefTo(w.heap, a)
  {
    var w' := Released(w, a);
    assert CellOk(w.heap, w.rank, w.detached, a);
    CellsOkUpdate(w, w', a);
  }

  /** Giving up a reference that is not the last. */
  lemma ReleasedKeeps(w: World, a: nat)
    requires Inv(w) && a < |w.heap| && OnHeap(w.heap[a])
    requires !LastReference(w.heap[a].flags) && RefTo(w.heap, a) in w.owed
    ensures Inv(Released(w, a))
  {
    hide CellsOk, CellOk, Owned, References;
    var w' := Released(w, a);
    ReleasedShape(w, a);
    forall r ensures References(w', r) == References(w, r) - (if r == RefTo(w.heap, a) then 1 else 0) {
      ReferencesChange(w, w', a, r);
    }
    AllAliveUpdate(w, w', a);
    CountsUpdate(w, w', a);
  }

  /** Nothing that is referenced goes away, if only the changed cell does and it has no references. */
  lemma AllAliveRemove(w: World, w': World, j: nat)
    requires AllAlive(w) && Elsewhere(w, w', j)
    requires forall r :: Alive(w.heap, r) && r != RefTo(w.heap, j) ==> Alive(w'.heap, r)
    requires References(w', RefTo(w.heap, j)) == 0
    requires forall r :: r in w'.owed && r != RefTo(w.heap, j) ==> Alive(w'.heap, r)
    requires Owned(w'.heap, w'.detached, j) == multiset{}
    ensures AllAlive(w')
  {
    hide Alive, Owned, RefTo;
    forall i, r | 0 <= i < |w'.heap| && r in Owned(w'.heap, w'.detached, i) ensures Alive(w'.heap, r) {
      OwnedSame(w, w', j, i);
      if r == RefTo(w.heap, j) {
        OwnersMember(w'.heap, w'.detached, |w'.heap|, i, r);
      }
    }
  }

  /** The last reference to a block is given up: the block is marked, and what it captured is in
      transit until its dispose helper has released it. */
  function Disposing(w: World, a: nat): World
    requires a < |w.heap| && w.heap[a].BlockCell?
  {
    w.(heap := w.heap[a := WithFlags(w.heap[a], w.heap[a].flags.(count := 0, deallocating := true))],
       owed := w.owed - multiset{Blk(a)} + multiset(w.heap[a].captures),
       detached := w.detached + {a})
  }

  lemma DisposingShape(w: World, a: nat)
    requires CellsOk(w) && a < |w.heap| && w.heap[a].BlockCell? && OnHeap(w.heap[a]) && a !in w.detached
    ensures var w' := Disposing(w, a);
      && Elsewhere(w, w', a) && CellsOk(w')
      && (forall r :: Alive(w.heap, r) && r != Blk(a) ==> Alive(w'.heap, r))
      && Owned(w'.heap, w'.detached, a) == multiset{}
      && Owned(w.heap, w.detached, a) == multiset(w.heap[a].captures)
      && Blk(a) !in multiset(w.heap[a].captures)
  {
    var w' := Disposing(w, a);
    assert CellOk(w.heap, w.rank, w.detached, a);
    CellsOkUpdate(w, w', a);
  }

  lemma DisposingKeeps(w: World, a: nat)
    requires Inv(w) && a < |w.heap| && w.heap[a].BlockCell? && OnHeap(w.heap[a]) && a !in w.detached
    requires LastReference(w.heap[a].flags) && Blk(a) in w.owed
    ensures Inv(Disposing(w, a))
  {
    hide CellsOk, CellOk, Owned, References, Alive;
    var w' := Disposing(w, a);
    DisposingShape(w, a);
    forall r ensures References(w', r) == References(w, r) - (if r == Blk(a) then 1 else 0) {
      ReferencesChange(w, w', a, r);
    }
    assert Counted(w.heap, a);
    forall r | r in w'.owed && r != Blk(a) ensures Alive(w'.heap, r) {
      assert r in w.owed || r in Owned(w.heap, w.detached, a);
    }
    AllAliveRemove(w, w', a);
    CountsUpdate(w, w', a);
  }

  function Gone(w: World, a: nat): World {
    if a < |w.heap| then w.(heap := w.heap[a := Freed], detached := w.detached - {a}) else w
  }

  /** A cell that owns nothing and that may not be held can be freed: a block after its dispose
      helper, a block or a closed variable on the stack. */
  lemma GoneKeeps(w: World, a: nat)
    requires Inv(w) && 0 < a < |w.heap| && !OnHeap(w.heap[a]) && !w.heap[a].Freed?
    requires w.heap[a].BlockCell? ==> !w.heap[a].flags.isGlobal
    requires w.heap[a].ByrefCell? ==> a in w.detached
    ensures Inv(Gone(w, a))
  {
    hide References;
    var w' := Gone(w, a);
    assert CellOk(w.heap, w.rank, w.detached, a);
    CellsOkUpdate(w, w', a);
    forall r ensures References(w', r) == References(w, r) {
      ReferencesChange(w, w', a, r);
    }
    AllAliveUpdate(w, w', a);
    CountsUpdate(w, w', a);
  }

  /** The last reference to a variable's heap cell is given up, and the cell freed. */
  function ByrefFreed(w: World, a: nat): World
    requires a < |w.heap|
  {
    w.(heap := w.heap[a := Freed], owed := w.owed - multiset{Byr(a)})
  }

  lemma ByrefFreedShape(w: World, a: nat)
    requires CellsOk(w) && a < |w.heap| && w.heap[a].ByrefCell? && OnHeap(w.heap[a])
    ensures var w' := ByrefFreed(w, a);
      && Elsewhere(w, w', a) && CellsOk(w')
      && (forall r :: Alive(w.heap, r) && r != Byr(a) ==> Alive(w'.heap, r))
      && Owned(w'.heap, w'.detached, a) == multiset{} == Owned(w.heap, w.detached, a)
  {
    var w' := ByrefFreed(w, a);
    assert CellOk(w.heap, w.rank, w.detached, a);
    CellsOkUpdate(w, w', a);
  }

  lemma ByrefFreedKeeps(w: World, a: nat)
    requires Inv(w) && a < |w.heap| && w.heap[a].ByrefCell? && OnHeap(w.heap[a])
    requires LastReference(w.heap[a].flags) && Byr(a) in w.owed
    ensures Inv(ByrefFreed(w, a))
  {
    hide CellsOk, CellOk, Owned, References, Alive;
    var w' := ByrefFreed(w, a);
    ByrefFreedShape(w, a);
    forall r ensures References(w', r) == References(w, r) - (if r == Byr(a) then 1 else 0) {
      ReferencesChange(w, w', a, r);
    }
    assert Counted(w.heap, a);
    AllAliveRemove(w, w', a);
    CountsUpdate(w, w', a);
  }

  // ---- References in transit ----------------------------------------------------------------

  /** References to objects, to NULL and to global blocks are not counted by the runtime. */
  ghost predicate TransitOnly(w: World, w': World) {
    && w'.heap == w.heap && w'.rank == w.rank && w'.detached == w.detached
    && (forall a: nat :: Counted(w.heap, a) ==> w'.owed[RefTo(w.heap, a)] == w.owed[RefTo(w.heap, a)])
    && (forall o: nat :: w'.retained[o] + w.owed[Obj(o)] == w.retained[o] + w'.owed[Obj(o)])
    && (forall r :: r in w'.owed ==> Alive(w.heap, r))
  }

  lemma TransitKeeps(w: World, w': World)
    requires Inv(w) && TransitOnly(w, w')
    ensures Inv(w')
  {
  }

  /** A block under construction gets a reference into a slot. */
  function Filled(w: World, n: nat, k: nat, r: Ref): World {
    match At(w, n)
    case BlockCell(f, code, captures) =>
      if k < |captures| then w.(heap := w.heap[n := BlockCell(f, code, captures[k := r])]) else w
    case _ => w
  }

  lemma FilledShape(w: World, n: nat, k: nat, r: Ref)
    requires CellsOk(w) && n < |w.heap| && w.heap[n].BlockCell? && k < |w.heap[n].captures|
    requires n in w.detached && RefOk(w.heap, w.rank, n, r)
    ensures var w' := Filled(w, n, k, r);
      && Elsewhere(w, w', n) && CellsOk(w') && AliveKept(w.heap, w'.heap)
      && w'.owed == w.owed && w'.retained == w.retained && w'.detached == w.detached
      && w'.heap[n].BlockCell? && w'.heap[n].flags == w.heap[n].flags
      && Owned(w'.heap, w'.detached, n) == multiset{} == Owned(w.heap, w.detached, n)
  {
    assert CellOk(w.heap, w.rank, w.detached, n);
    CellsOkUpdate(w, Filled(w, n, k, r), n);
  }

  lemma FilledKeeps(w: World, n: nat, k: nat, r: Ref)
    requires Inv(w) && n < |w.heap| && w.heap[n].BlockCell? && k < |w.heap[n].captures|
    requires n in w.detached && RefOk(w.heap, w.rank, n, r)
    ensures Inv(Filled(w, n, k, r))
  {
    hide CellsOk, CellOk, Owned, References, Alive, Filled;
    var w' := Filled(w, n, k, r);
    FilledShape(w, n, k, r);
    forall r ensures References(w', r) == References(w, r) {
      ReferencesChange(w, w', n, r);
    }
    AllAliveUpdate(w, w', n);
    CountsUpdate(w, w', n);
  }

  /** A block is complete: its references in transit become its own. */
  function Attached(w: World, n: nat): World {
    match At(w, n)
    case BlockCell(_, _, captures) => w.(detached := w.detached - {n}, owed := w.owed - multiset(captures))
    case _ => w
  }

  lemma AttachedShape(w: World, n: nat)
    requires CellsOk(w) && n < |w.heap| && w.heap[n].BlockCell? && OnHeap(w.heap[n]) && n in w.detached
    ensures var w' := Attached(w, n);
      && Elsewhere(w, w', n) && CellsOk(w') && w'.heap == w.heap && w'.retained == w.retained
      && w'.owed == w.owed - multiset(w.heap[n].captures)
      && Owned(w.heap, w.detached, n) == multiset{}
      && Owned(w'.heap, w'.detached, n) == multiset(w.heap[n].captures)
  {
    assert CellOk(w.heap, w.rank, w.detached, n);
    CellsOkUpdate(w, Attached(w, n), n);
  }

  lemma AttachedKeeps(w: World, n: nat)
    requires Inv(w) && n < |w.heap| && w.heap[n].BlockCell? && OnHeap(w.heap[n])
    requires n in w.detached && multiset(w.heap[n].captures) <= w.owed
    ensures Inv(Attached(w, n))
  {
    hide CellsOk, CellOk, Owned, References, Alive, Attached;
    var w' := Attached(w, n);
    AttachedShape(w, n);
    forall r ensures References(w', r) == References(w, r) {
      ReferencesChange(w, w', n, r);
    }
    AllAliveUpdate(w, w', n);
    CountsUpdate(w, w', n);
  }

  /** A variable's scope is being left: the stack cell's reference is in transit. */
  function Closing(w: World, x: nat): World
    requires x < |w.heap|
  {
    w.(detached := w.detached + {x}, owed := w.owed + Owned(w.heap, w.detached, x))
  }

  lemma ClosingKeeps(w: World, x: nat)
    requires Inv(w) && x < |w.heap| && w.heap[x].ByrefCell? && !w.heap[x].flags.needsFree && x !in w.detached
    ensures Inv(Closing(w, x))
  {
    hide References, Alive;
    var w' := Closing(w, x);
    assert CellOk(w.heap, w.rank, w.detached, x);
    CellsOkUpdate(w, w', x);
    forall r ensures References(w', r) == References(w, r) {
      ReferencesChange(w, w', x, r);
    }
    AllAliveUpdate(w, w', x);
    CountsUpdate(w, w', x);
  }

  /** Writing a variable. */
  function Written(w: World, c: nat, v: nat): World
    requires c < |w.heap| && w.heap[c].ByrefCell?
  {
    w.(heap := w.heap[c := w.heap[c].(value := v)])
  }

  lemma WrittenShape(w: World, c: nat, v: nat)
    requires CellsOk(w) && c < |w.heap| && w.heap[c].ByrefCell?
    ensures var w' := Written(w, c, v);
      && Elsewhere(w, w', c) && CellsOk(w') && AliveKept(w.heap, w'.heap)
      && Owned(w'.heap, w'.detached, c) == Owned(w.heap, w.detached, c)
      && RefTo(w'.heap, c) == RefTo(w.heap, c)
  {
    assert CellOk(w.heap, w.rank, w.detached, c);
    CellsOkUpdate(w, Written(w, c, v), c);
  }

  lemma WrittenKeeps(w: World, c: nat, v: nat)
    requires Inv(w) && c < |w.heap| && w.heap[c].ByrefCell?
    ensures Inv(Written(w, c, v))
  {
    hide CellsOk, CellOk, Owned, References;
    var w' := Written(w, c, v);
    WrittenShape(w, c, v);
    forall r ensures References(w', r) == References(w, r) {
      ReferencesChange(w, w', c, r);
    }
    AllAliveUpdate(w, w', c);
    CountsUpdate(w, w', c);
  }

  // ---- A new cell ---------------------------------------------------------------------------

  lemma {:induction false} OwnersNone(h: seq<Cell>, d: set<nat>, n: nat, r: Ref)
    requires n <= |h| && (forall i :: 0 <= i < n ==> r !in Owned(h, d, i))
    ensures Owners(h, d, n, r) == 0
  {
    hide Owned;
    if n > 0 {
      OwnersNone(h, d, n - 1, r);
    }
  }

  /** Nothing refers to a cell that does not exist. */
  lemma NoReferencesYet(w: World, r: Ref)
    requires AllAlive(w) && !Alive(w.heap, r)
    ensures References(w, r) == 0
  {
    hide Alive, Owned;
    OwnersNone(w.heap, w.detached, |w.heap|, r);
  }

  lemma GrownShape(w: World, w': World)
    requires CellsOk(w) && Grown(w, w')
    requires CellOk(w'.heap, w'.rank, w'.detached, |w.heap|) && w'.rank[|w.heap|] <= |w.heap|
    requires !Moved(w'.heap, |w.heap|) && (forall i :: i in w'.detached ==> i <= |w.heap|)
    ensures CellsOk(w') && AliveKept(w.heap, w'.heap)
    ensures forall i :: 0 <= i < |w.heap| ==> w'.heap[i] == w.heap[i] && w'.rank[i] == w.rank[i]
    ensures forall i :: 0 <= i < |w.heap| ==> Owned(w'.heap, w'.detached, i) == Owned(w.heap, w.detached, i)
  {
    var n := |w.heap|;
    forall i | 0 <= i < n ensures w'.heap[i] == w.heap[i] && w'.rank[i] == w.rank[i] {
      assert w'.heap[..n][i] == w.heap[i] && w'.rank[..n][i] == w.rank[i];
    }
    forall i | 0 <= i < n ensures CellOk(w'.heap, w'.rank, w'.detached, i) {
      assert CellOk(w.heap, w.rank, w.detached, i);
    }
    forall i: nat | Moved(w'.heap, i) ensures Moved(w.heap, i) && w'.heap[i].forwarding == w.heap[i].forwarding {
    }
  }

  /** A new cell that owns nothing: only references to it are added. */
  lemma GrownKeeps(w: World, w': World)
    requires Inv(w) && Grown(w, w') && w'.retained == w.retained
    requires CellOk(w'.heap, w'.rank, w'.detached, |w.heap|) && w'.rank[|w.heap|] <= |w.heap|
    requires !Moved(w'.heap, |w.heap|) && (forall i :: i in w'.detached ==> i <= |w.heap|)
    requires Owned(w'.heap, w'.detached, |w.heap|) == multiset{}
    requires var r := RefTo(w'.heap, |w.heap|); var held := w'.owed[r];
      w'.owed == w.owed[r := held] && (held > 0 ==> Alive(w'.heap, r))
      && (Counted(w'.heap, |w.heap|) ==> w'.heap[|w.heap|].flags.count == held)
    ensures Inv(w')
  {
    hide CellsOk, CellOk, Owned, References, Alive;
    GrownShape(w, w');
    var new_ref := RefTo(w'.heap, |w.heap|);
    NotAliveYet(w, new_ref);
    NoReferencesYet(w, new_ref);
    forall r ensures References(w', r) == References(w, r) - w.owed[r] + w'.owed[r] {
      ReferencesGrown(w, w', r);
    }
    forall i, r | 0 <= i < |w'.heap| && r in Owned(w'.heap, w'.detached, i) ensures Alive(w'.heap, r) {
      if i < |w.heap| {
        assert r in Owned(w.heap, w.detached, i);
      }
    }
    OwedIsReferenced(w, new_ref);
    forall a: nat | Counted(w'.heap, a) ensures w'.heap[a].flags.count == References(w', RefTo(w'.heap, a)) {
      if a < |w.heap| {
        assert Counted(w.heap, a);
      }
    }
  }

  lemma NotAliveYet(w: World, r: Ref)
    requires CellsOk(w) && !r.Obj? && r.at == |w.heap|
    ensures !Alive(w.heap, r)
  {
  }

  lemma OwedIsReferenced(w: World, r: Ref)
    ensures w.owed[r] <= References(w, r)
  {
  }

  /** `malloc`, the bit copy and the flags of a block's heap copy: one reference, in transit; its
      slots still hold what the original captured. */
  function BlockCopied(w: World, p: nat): World
    requires At(w, p).BlockCell?
  {
    var c := w.heap[p];
    var n := |w.heap|;
    w.(heap := w.heap + [BlockCell(c.flags.(count := 1, deallocating := false, needsFree := true), c.code, c.captures)],
       rank := w.rank + [RankOf(w, p)],
       owed := w.owed + multiset{Blk(n)},
       detached := w.detached + {n})
  }

  lemma BlockCopiedKeeps(w: World, p: nat)
    requires Inv(w) && p < |w.heap| && OnStack(w.heap[p])
    ensures Inv(BlockCopied(w, p))
  {
    hide References;
    var w' := BlockCopied(w, p);
    var n := |w.heap|;
    assert CellOk(w.heap, w.rank, w.detached, p);
    forall k | 0 <= k < |w.heap[p].captures| ensures RefOk(w'.heap, w'.rank, n, w'.heap[n].captures[k]) {
      assert RefOk(w.heap, w.rank, p, w.heap[p].captures[k]);
    }
    NotAliveYet(w, Blk(n));
    assert w.owed[Blk(n)] == 0;
    GrownKeeps(w, w');
  }

  /** A variable's heap cell: two references, one for the block being copied and one for the stack
      cell, which now forwards to it. */
  function ByrefCopied(w: World, b: nat): World
    requires b < |w.heap| && w.heap[b].ByrefCell?
  {
    var c := w.heap[b];
    var n := |w.heap|;
    w.(heap := w.heap[b := c.(forwarding := n)] + [ByrefCell(c.flags.(count := 2, needsFree := true), n, c.value)],
       rank := w.rank + [n],
       owed := w.owed + multiset{Byr(n)})
  }

  /** The heap cell before the stack cell forwards to it, both references in transit. */
  function ByrefMade(w: World, b: nat): World
    requires b < |w.heap| && w.heap[b].ByrefCell?
  {
    var c := w.heap[b];
    var n := |w.heap|;
    w.(heap := w.heap + [ByrefCell(c.flags.(count := 2, needsFree := true), n, c.value)],
       rank := w.rank + [n],
       owed := w.owed + multiset{Byr(n), Byr(n)})
  }

  lemma ByrefMadeKeeps(w: World, b: nat)
    requires Inv(w) && b < |w.heap| && w.heap[b].ByrefCell? && !w.heap[b].flags.needsFree
    ensures Inv(ByrefMade(w, b))
  {
    hide References;
    var w' := ByrefMade(w, b);
    var n := |w.heap|;
    assert CellOk(w.heap, w.rank, w.detached, b);
    NotAliveYet(w, Byr(n));
    assert w.owed[Byr(n)] == 0;
    GrownKeeps(w, w');
  }

  lemma ByrefForwarded(w: World, w': World, b: nat, n: nat)
    requires Inv(w) && b < n < |w.heap| && w.heap[b].ByrefCell? && w.heap[n].ByrefCell? && OnHeap(w.heap[n])
    requires !w.heap[b].flags.needsFree && !Moved(w.heap, b) && b !in w.detached && Byr(n) in w.owed
    requires forall i: nat :: Moved(w.heap, i) ==> w.heap[i].forwarding != n
    requires w' == w.(heap := w.heap[b := w.heap[b].(forwarding := n)], owed := w.owed - multiset{Byr(n)})
    ensures Inv(w')
  {
    hide References;
    assert CellOk(w.heap, w.rank, w.detached, b);
    ForwardCells(w, w', b, n);
    forall r ensures References(w', r) == References(w, r) {
      ReferencesChange(w, w', b, r);
    }
    AllAliveUpdate(w, w', b);
    CountsUpdate(w, w', b);
  }

  lemma ForwardCells(w: World, w': World, b: nat, n: nat)
    requires CellsOk(w) && b < n < |w.heap| && w.heap[b].ByrefCell? && !w.heap[b].flags.needsFree
    requires forall i: nat :: Moved(w.heap, i) ==> w.heap[i].forwarding != n
    requires w'.heap == w.heap[b := w.heap[b].(forwarding := n)] && w'.rank == w.rank && w'.detached == w.detached
    ensures CellsOk(w')
  {
    forall i | 0 <= i < |w.heap| ensures CellOk(w'.heap, w'.rank, w'.detached, i) {
      assert CellOk(w.heap, w.rank, w.detached, i);
    }
    forall i: nat | i != b && Moved(w'.heap, i)
      ensures Moved(w.heap, i) && w'.heap[i].forwarding == w.heap[i].forwarding
    {
    }
  }

  lemma ByrefCopiedKeeps(w: World, b: nat)
    requires Inv(w) && b < |w.heap| && w.heap[b].ByrefCell? && !w.heap[b].flags.needsFree
    requires !Moved(w.heap, b) && b !in w.detached
    ensures Inv(ByrefCopied(w, b))
  {
    hide Inv, References, CellsOk;
    var w1 := ByrefMade(w, b);
    ByrefMadeKeeps(w, b);
    NoForwardYet(w, b);
    assert !Moved(w1.heap, |w.heap|);
    assert w1.owed - multiset{Byr(|w.heap|)} == ByrefCopied(w, b).owed;
    ByrefForwarded(w1, ByrefCopied(w, b), b, |w.heap|);
  }

  lemma NoForwardYet(w: World, b: nat)
    requires Inv(w) && b < |w.heap| && w.heap[b].ByrefCell?
    ensures var h := ByrefMade(w, b).heap;
      OnHeap(h[|w.heap|]) && (forall i: nat :: i != |w.heap| && Moved(h, i) ==> h[i].forwarding != |w.heap|)
    ensures ByrefCopied(w, b).heap == ByrefMade(w, b).heap[b := ByrefMade(w, b).heap[b].(forwarding := |w.heap|)]
  {
    var h := ByrefMade(w, b).heap;
    assert CellOk(w.heap, w.rank, w.detached, b);
    forall i: nat | i != |w.heap| && Moved(h, i) ensures h[i].forwarding < |w.heap| {
      assert CellOk(w.heap, w.rank, w.detached, i);
    }
  }

  /** A block literal, a global block or a `__block` variable comes into being. */
  function Born(w: World, c: Cell): World {
    w.(heap := w.heap + [c], rank := w.rank + [|w.heap|])
  }

  /** What the compiler makes: a block that captures what exists already, or a variable whose cell
      is its own. */
  ghost predicate Newborn(h: seq<Cell>, c: Cell) {
    match c
    case Freed => false
    case BlockCell(f, _, captures) =>
      && f.count == 0 && !f.deallocating && !f.needsFree && (f.isGlobal || !f.hasCopyDispose ==> captures == [])
      && (forall k :: 0 <= k < |captures| ==> captures[k].Obj? || captures[k].at < |h|)
    case ByrefCell(f, forwarding, _) => f.count == 0 && !f.deallocating && !f.needsFree && forwarding == |h|
  }

  lemma BornKeeps(w: World, c: Cell)
    requires Inv(w) && Newborn(w.heap, c)
    ensures Inv(Born(w, c))
  {
    hide References;
    var w' := Born(w, c);
    var n := |w.heap|;
    if c.BlockCell? {
      forall k | 0 <= k < |c.captures| ensures RefOk(w'.heap, w'.rank, n, w'.heap[n].captures[k]) {
      }
    }
    NotAliveYet(w, RefTo(w'.heap, n));
    assert w.owed[RefTo(w'.heap, n)] == 0;
    GrownKeeps(w, w');
  }

  /** `latching_incr_int_not_deallocating` on the flags of any block. Only a heap block's count is a
      count of references. */
  function TryRetained(w: World, a: nat): (World, bool) {
    match At(w, a)
    case BlockCell(f, code, captures) =>
      if f.deallocating then (w, false)
      else if f.needsFree then (Retained(w, a), true)
      else (w.(heap := w.heap[a := BlockCell(Incremented(f), code, captures)]), true)
    case _ => (w, false)
  }

  /** It succeeds unless the block is being disposed of, and then raises its count by one, if that
      has not latched, whether the block is on the heap or not. */
  lemma TryRetainedRaises(w: World, a: nat)
    requires a < |w.heap| && w.heap[a].BlockCell?
    ensures var (w', ok) := TryRetained(w, a); var f := w.heap[a].flags;
      && ok == !f.deallocating && |w'.heap| == |w.heap|
      && (forall i :: 0 <= i < |w.heap| && i != a ==> w'.heap[i] == w.heap[i])
      && (!ok ==> w' == w)
      && (ok ==> w'.heap[a] == BlockCell(f.(count := if f.count == 0x7fff then 0x7fff else f.count + 1),
                                         w.heap[a].code, w.heap[a].captures))
  {
  }

  lemma TryRetainedKeeps(w: World, a: nat)
    requires Inv(w) && a < |w.heap| && w.heap[a].BlockCell?
    ensures Inv(TryRetained(w, a).0)
  {
    hide Inv;
    var f := w.heap[a].flags;
    if !f.deallocating {
      if f.needsFree {
        RetainedKeeps(w, a);
      } else {
        UncountedKeeps(w, a);
      }
    }
  }

  lemma UncountedShape(w: World, a: nat)
    requires CellsOk(w) && a < |w.heap| && w.heap[a].BlockCell? && !w.heap[a].flags.needsFree
    requires !w.heap[a].flags.deallocating
    ensures var w' := TryRetained(w, a).0;
      && Elsewhere(w, w', a) && CellsOk(w') && AliveKept(w.heap, w'.heap)
      && Owned(w'.heap, w'.detached, a) == Owned(w.heap, w.detached, a)
      && RefTo(w'.heap, a) == RefTo(w.heap, a) && w'.owed == w.owed && w'.retained == w.retained
      && !Counted(w'.heap, a)
  {
    assert CellOk(w.heap, w.rank, w.detached, a);
    CellsOkUpdate(w, TryRetained(w, a).0, a);
  }

  lemma UncountedKeeps(w: World, a: nat)
    requires Inv(w) && a < |w.heap| && w.heap[a].BlockCell? && !w.heap[a].flags.needsFree
    requires !w.heap[a].flags.deallocating
    ensures Inv(TryRetained(w, a).0)
  {
    hide CellsOk, CellOk, Owned, References, TryRetained;
    var w' := TryRetained(w, a).0;
    UncountedShape(w, a);
    forall r ensures References(w', r) == References(w, r) {
      ReferencesChange(w, w', a, r);
    }
    AllAliveUpdate(w, w', a);
    CountsUpdate(w, w', a);
  }

  // ---- The flags word -----------------------------------------------------------------------

  predicate Bit(w: nat, mask: nat)
    requires mask > 0
  {
    w / mask % 2 == 1
  }

  /** The flags word decoded; bits 24, 25 and 28 are counted from the half above the count. */
  function Decode(w: nat): Flags {
    Flags(L.Count(w), L.Deallocating(w), Bit(L.Flags(w), 0x100), Bit(L.Flags(w), 0x200), Bit(L.Flags(w), 0x1000))
  }

  /** What the counters write to a word is what this module does to the decoded word. */
  lemma DecodedCounters(w: nat)
    ensures Incremented(Decode(w)) == Decode(if L.Latched(w) then w else w + 2)
    ensures !L.Latched(w) && L.Count(w) != 0 ==>
      && (LastReference(Decode(w)) <==> L.Decremented(w).1)
      && Decode(L.Decremented(w).0) ==
           if LastReference(Decode(w)) then Decode(w).(count := 0, deallocating := true) else Decremented(Decode(w))
  {
    L.WordFacts(w);
    hide L.Count, L.Deallocating, L.Flags, L.Latched, L.Decremented, Bit;
  }
}
