/** Copying and releasing as functions from memory to memory: what `Block_copy`, `Block_release` and
    their helpers do, and that they keep what the invariant says. */
module BlockOps {
  import opened BlockHeap
  import opened BlockMeaning

  // ---- What the functions of the runtime do -------------------------------------------------

  function Hold(w: World, r: Ref): World { w.(owed := w.owed + multiset{r}) }

  function Drop(w: World, r: Ref): World { w.(owed := w.owed - multiset{r}) }

  function RetainObject(w: World, o: nat): World {
    w.(owed := w.owed + multiset{Obj(o)}, retained := w.retained + multiset{o})
  }

  function ReleaseObject(w: World, o: nat): World {
    w.(owed := w.owed - multiset{Obj(o)}, retained := w.retained - multiset{o})
  }

  /** What the compiler's helpers work on. */
  function Helped(c: Cell): seq<Ref>
    requires c.BlockCell?
  {
    if c.flags.hasCopyDispose then c.captures else []
  }

  /** `_Block_byref_assign_copy`, and the cell it assigns. */
  function CopyByref(w: World, b: nat): (World, nat) {
    match At(w, b)
    case ByrefCell(_, f, _) =>
      if !At(w, f).ByrefCell? then (w, f)
      else if At(w, f).flags.count == 0 then (ByrefCopied(w, b), |w.heap|)
      else if At(w, f).flags.needsFree then (Retained(w, f), f)
      else (w, f)
    case _ => (w, b)
  }

  /** `_Block_copy_internal`, and the block it returns. */
  function CopyBlock(w: World, p: nat): (World, nat)
    decreases RankOf(w, p), 1, 0
  {
    if p == 0 then (Hold(w, Blk(0)), 0)
    else match At(w, p)
      case BlockCell(f, _, _) =>
        if f.needsFree then (Retained(w, p), p)
        else if f.isGlobal then (Hold(w, Blk(p)), p)
        else
          var n := |w.heap|;
          (Attached(CopySlots(BlockCopied(w, p), n, Helped(At(w, p)), 0, RankOf(w, p)), n), n)
      case _ => (w, p)
  }

  /** The copy helper of a block of rank `r`, from slot `k` on. */
  function CopySlots(w: World, n: nat, captures: seq<Ref>, k: nat, r: nat): World
    requires k <= |captures|
    decreases r, 0, |captures| - k
  {
    if k == |captures| then w
    else
      var copied := CopyRef(w, captures[k], r);
      CopySlots(Filled(copied.0, n, k, copied.1), n, captures, k + 1, r)
  }

  /** `_Block_object_assign`, and what it assigns. Captured blocks are of lower rank. */
  function CopyRef(w: World, captured: Ref, r: nat): (World, Ref)
    decreases r, 0, 0
  {
    match captured
    case Obj(o) => (RetainObject(w, o), captured)
    case Blk(q) =>
      if RankOf(w, q) < r then
        var copied := CopyBlock(w, q);
        (copied.0, Blk(copied.1))
      else (w, captured)
    case Byr(b) =>
      var copied := CopyByref(w, b);
      (copied.0, Byr(copied.1))
  }

  /** `_Block_byref_release` */
  function ReleaseByref(w: World, b: nat): World {
    match At(w, b)
    case ByrefCell(_, f, _) =>
      if !At(w, f).ByrefCell? || !At(w, f).flags.needsFree then w
      else if LastReference(At(w, f).flags) then ByrefFreed(w, f)
      else Released(w, f)
    case _ => w
  }

  /** `_Block_release` */
  function ReleaseBlock(w: World, p: nat): World
    decreases RankOf(w, p), 1, 0
  {
    if p == 0 then Drop(w, Blk(0))
    else match At(w, p)
      case BlockCell(f, _, _) =>
        if f.isGlobal || !f.needsFree then Drop(w, Blk(p))
        else if LastReference(f) then Gone(DisposeSlots(Disposing(w, p), Helped(At(w, p)), 0, RankOf(w, p)), p)
        else Released(w, p)
      case _ => w
  }

  /** The dispose helper of a block of rank `r`, from slot `k` on. */
  function DisposeSlots(w: World, captures: seq<Ref>, k: nat, r: nat): World
    requires k <= |captures|
    decreases r, 0, |captures| - k
  {
    if k == |captures| then w else DisposeSlots(DisposeRef(w, captures[k], r), captures, k + 1, r)
  }

  /** `_Block_object_dispose` */
  function DisposeRef(w: World, captured: Ref, r: nat): World
    decreases r, 0, 0
  {
    match captured
    case Obj(o) => ReleaseObject(w, o)
    case Blk(q) => if RankOf(w, q) < r then ReleaseBlock(w, q) else w
    case Byr(b) => ReleaseByref(w, b)
  }

  /** Leaving the scope of a `__block` variable. */
  function LeaveVariable(w: World, x: nat): World
    requires x < |w.heap|
  {
    Gone(ReleaseByref(Closing(w, x), x), x)
  }

  // ---- What compiled code does --------------------------------------------------------------

  datatype Op =
    | Copying(arg: nat)
    | Releasing(arg: nat)
    | TryRetaining(arg: nat)
    | Creating(c: Cell)
    | Writing(x: nat, v: nat)
    | LeavingVariable(x: nat)
    | LeavingBlock(p: nat)

  /** What the source demands of its callers: what is copied does not dangle, what is released is
      held, and scopes are left once. */
  ghost predicate Allowed(w: World, op: Op) {
    && |w.heap| == |w.rank|
    && match op
       case Copying(p) => p < |w.heap| && Copyable(w, p)
       case Releasing(p) => BlockReleasable(w, p)
       case TryRetaining(p) => At(w, p).BlockCell?
       case Creating(c) => Newborn(w.heap, c)
       case Writing(x, _) => Variable(w, x)
       case LeavingVariable(x) => At(w, x).ByrefCell? && !At(w, x).flags.needsFree
       case LeavingBlock(p) => OnStack(At(w, p))
  }

  ghost function Exec(w: World, op: Op): World
    requires Allowed(w, op)
  {
    match op
    case Copying(p) => CopyBlock(w, p).0
    case Releasing(p) => ReleaseBlock(w, p)
    case TryRetaining(p) => TryRetained(w, p).0
    case Creating(c) => Born(w, c)
    case Writing(x, v) => Written(w, Resolve(w, x), v)
    case LeavingVariable(x) => LeaveVariable(w, x)
    case LeavingBlock(p) => Gone(w, p)
  }

  // ---- The steps of a copy ------------------------------------------------------------------

  lemma RetainedExtends(w: World, a: nat)
    requires CellsOk(w) && a < |w.heap| && OnHeap(w.heap[a])
    ensures Extends(w, Retained(w, a), if w.heap[a].BlockCell? then w.rank[a] + 1 else 0, -1)
    ensures CellsOk(Retained(w, a))
  {
    RetainedShape(w, a);
  }

  lemma ByrefCopiedExtends(w: World, b: nat)
    requires CellsOk(w) && b < |w.heap| && w.heap[b].ByrefCell? && !w.heap[b].flags.needsFree && !Moved(w.heap, b)
    ensures Extends(w, ByrefCopied(w, b), 0, -1)
    ensures Alive(ByrefCopied(w, b).heap, Byr(|w.heap|))
  {
    assert CellOk(w.heap, w.rank, w.detached, b);
  }

  /** A block `n` is being made from the block `p` on the stack. */
  ghost predicate Making(w: World, n: nat, p: nat) {
    && CellsOk(w) && 0 < p < n < |w.heap| && OnStack(w.heap[p]) && Copyable(w, p)
    && w.heap[n].BlockCell? && w.rank[n] == w.rank[p] && n in w.detached
    && |w.heap[n].captures| == |w.heap[p].captures|
  }

  /** Its first `k` slots hold what copying the captures gave, in transit; nothing else has changed
      but as copies may. */
  ghost predicate FixedUp(w0: World, w: World, n: nat, p: nat, k: nat)
    requires Making(w0, n, p)
  {
    && Inv(w) && Extends(w0, w, w0.rank[p], n) && w.heap[n].BlockCell?
    && w.heap[n] == BlockCell(w0.heap[n].flags, w0.heap[n].code, w.heap[n].captures)
    && k <= |w.heap[n].captures| == |w0.heap[p].captures|
    && w.detached == w0.detached && w.owed == w0.owed + multiset(w.heap[n].captures[..k])
    && (forall j :: 0 <= j < k ==>
          RefOk(w.heap, w.rank, p, w0.heap[p].captures[j])
          && SameCapture(w, p, w0.heap[p].captures[j], w.heap[n].captures[j]))
  }

  lemma FilledExtends(w: World, n: nat, k: nat, r: Ref, bound: nat)
    requires CellsOk(w) && n < |w.heap| && w.heap[n].BlockCell? && k < |w.heap[n].captures|
    ensures Extends(w, Filled(w, n, k, r), bound, n)
  {
  }

  /** What a capture is copied to follows the order of creation as the capture did. */
  lemma CopiedRefOk(w: World, p: nat, n: nat, r: Ref, s: Ref)
    requires CellsOk(w) && p < |w.heap| && n < |w.heap| && w.rank[n] == w.rank[p]
    requires RefOk(w.heap, w.rank, p, r) && SameCapture(w, p, r, s)
    ensures RefOk(w.heap, w.rank, n, s)
  {
  }

  /** The block under construction is not touched by copying a capture. */
  lemma UnderConstruction(w: World, w1: World, n: nat, bound: nat)
    requires Extends(w, w1, bound, -1) && n < |w.heap| && w.heap[n].BlockCell? && w.rank[n] >= bound
    ensures w1.heap[n] == w.heap[n] && w1.rank[n] == w.rank[n]
  {
  }

  /** One slot more: `w1` is reached by copying the capture, `w2` by storing what that gave. */
  lemma FixedUpOneMore(w0: World, w: World, w1: World, n: nat, p: nat, k: nat, s: Ref)
    requires Making(w0, n, p) && FixedUp(w0, w, n, p, k) && k < |w0.heap[p].captures|
    requires Inv(w1) && Extends(w, w1, w0.rank[p], -1) && w1.detached == w.detached && w1.owed == w.owed + multiset{s}
    requires p < |w1.heap| && RefOk(w1.heap, w1.rank, p, w0.heap[p].captures[k])
    requires SameCapture(w1, p, w0.heap[p].captures[k], s)
    ensures n < |w1.heap| && w1.heap[n].BlockCell? && k < |w1.heap[n].captures|
    ensures FixedUp(w0, Filled(w1, n, k, s), n, p, k + 1)
  {
    hide CellExtends, CellsOk, AllAlive, CountsRight, SameCapture, RefOk, Copyable;
    var bound := w0.rank[p];
    RanksKept(w0, w, bound, n, p);
    RanksKept(w0, w, bound, n, n);
    UnderConstruction(w, w1, n, bound);
    CopiedRefOk(w1, p, n, w0.heap[p].captures[k], s);
    FilledKeeps(w1, n, k, s);
    var w2 := Filled(w1, n, k, s);
    FilledExtends(w1, n, k, s, bound);
    ExtendsWider(w, w1, bound, bound, n);
    ExtendsTrans(w0, w, w1, bound, n);
    ExtendsTrans(w0, w1, w2, bound, n);
    ExtendsTrans(w, w1, w2, bound, n);
    var was, now := w.heap[n].captures, w2.heap[n].captures;
    assert now == was[k := s];
    assert now[..k + 1] == was[..k] + [s];
    forall j | 0 <= j < k + 1
      ensures RefOk(w2.heap, w2.rank, p, w0.heap[p].captures[j])
      ensures SameCapture(w2, p, w0.heap[p].captures[j], now[j])
    {
      if j < k {
        SameCaptureKept(w, w2, bound, n, p, w0.heap[p].captures[j], was[j]);
      } else {
        SameCaptureKept(w1, w2, bound, n, p, w0.heap[p].captures[j], s);
      }
    }
  }

  lemma RanksKept(w: World, w': World, bound: nat, except: int, i: nat)
    requires Extends(w, w', bound, except) && i < |w.heap|
    ensures i < |w'.heap| == |w'.rank| && w'.rank[i] == w.rank[i]
  {
  }

  lemma MakingStarts(w: World, p: nat)
    requires Inv(w) && p < |w.heap| && OnStack(w.heap[p]) && Copyable(w, p)
    ensures var w' := BlockCopied(w, p);
      && Making(w', |w.heap|, p) && FixedUp(w', w', |w.heap|, p, 0)
      && Extends(w, w', w.rank[p] + 1, -1)
  {
    hide Copyable, CellExtends, CellsOk, AllAlive, CountsRight, Extends;
    BlockCopiedKeeps(w, p);
    NotNull(w, p);
    var w' := BlockCopied(w, p);
    CopiedExtends(w, p);
    CopyableKept(w, w', w.rank[p] + 1, -1, p);
    ExtendsSelf(w', w'.rank[p], |w.heap|);
  }

  lemma NotNull(w: World, p: nat)
    requires CellsOk(w) && p < |w.heap| && OnStack(w.heap[p])
    ensures p > 0 && |w.heap| == |w.rank|
  {
  }

  lemma CopiedExtends(w: World, p: nat)
    requires CellsOk(w) && p < |w.heap| && OnStack(w.heap[p])
    ensures Extends(w, BlockCopied(w, p), w.rank[p] + 1, -1)
  {
    hide Copyable;
  }

  /** When every slot is fixed up, the block owns what it captures and is a copy. */
  lemma MakingEnds(w0: World, w: World, n: nat, p: nat)
    requires Making(w0, n, p) && FixedUp(w0, w, n, p, |w0.heap[p].captures|) && OnHeap(w0.heap[n])
    requires w0.heap[n].code == w0.heap[p].code
    requires w0.heap[n].flags.hasCopyDispose == w0.heap[p].flags.hasCopyDispose
    ensures p < n < |w.heap| && w.heap[n].BlockCell?
    ensures var w' := Attached(w, n);
      && Inv(w') && w'.owed == w0.owed && SameClosure(w', p, n)
      && w'.heap == w.heap && w'.rank == w.rank && w'.detached == w0.detached - {n}
  {
    hide CellExtends, CellsOk, AllAlive, CountsRight, Copyable;
    var bound := w0.rank[p];
    var m := |w0.heap[p].captures|;
    RanksKept(w0, w, bound, n, p);
    RanksKept(w0, w, bound, n, n);
    var captures := w.heap[n].captures;
    assert captures[..m] == captures;
    AttachedKeeps(w, n);
    var w' := Attached(w, n);
    AttachedExtends(w, n, bound);
    forall j | 0 <= j < m
      ensures RefOk(w'.heap, w'.rank, p, w0.heap[p].captures[j])
      ensures SameCapture(w', p, w0.heap[p].captures[j], captures[j])
    {
      SameCaptureKept(w, w', bound, n, p, w0.heap[p].captures[j], captures[j]);
    }
    Closed(w0, w', n, p, bound);
  }

  lemma AttachedExtends(w: World, n: nat, bound: nat)
    requires CellsOk(w) && n < |w.heap| && w.heap[n].BlockCell?
    ensures Extends(w, Attached(w, n), bound, n)
  {
  }

  lemma Closed(w0: World, w: World, n: nat, p: nat, bound: nat)
    requires Making(w0, n, p) && CellsOk(w) && Extends(w0, w, bound, n) && OnHeap(w0.heap[n])
    requires w0.heap[n].code == w0.heap[p].code
    requires w0.heap[n].flags.hasCopyDispose == w0.heap[p].flags.hasCopyDispose
    requires n < |w.heap| && w.heap[n] == BlockCell(w0.heap[n].flags, w0.heap[n].code, w.heap[n].captures)
    requires |w.heap[n].captures| == |w0.heap[p].captures| && p < |w.heap|
    requires forall j :: 0 <= j < |w0.heap[p].captures| ==>
      RefOk(w.heap, w.rank, p, w0.heap[p].captures[j])
      && SameCapture(w, p, w0.heap[p].captures[j], w.heap[n].captures[j])
    ensures SameClosure(w, p, n)
  {
    hide CellsOk, RefOk, SameCapture, Copyable;
    assert CellExtends(w0.heap, w.heap, p);
  }

  // ---- The steps of a release ---------------------------------------------------------------

  /** One reference less, and nothing else but what giving it up frees. */
  ghost predicate Dropped(w: World, w': World, r: Ref) {
    Inv(w') && Shrinks(w, w') && w'.owed == w.owed - multiset{r}
  }

  ghost predicate NoneBuilding(w: World) {
    forall i :: i in w.detached && i < |w.heap| ==> !OnHeap(w.heap[i])
  }

  ghost predicate BlockReleasable(w: World, a: nat) {
    && a < |w.heap|
    && (a == 0 || (w.heap[a].BlockCell? && !w.heap[a].flags.deallocating
                   && (w.heap[a].flags.needsFree ==> Blk(a) in w.owed)))
  }

  ghost predicate ByrefReleasable(w: World, a: nat) {
    && a < |w.heap| && w.heap[a].ByrefCell?
    && var f := w.heap[a].forwarding;
       f < |w.heap| && w.heap[f].ByrefCell? && (w.heap[f].flags.needsFree ==> Byr(f) in w.owed)
  }

  lemma OwedAlive(w: World, r: Ref)
    requires Inv(w) && r in w.owed
    ensures Alive(w.heap, r)
    ensures r.Blk? ==> BlockReleasable(w, r.at)
    ensures r.Byr? ==> ByrefReleasable(w, r.at) && w.heap[r.at].forwarding == r.at
  {
    assert Alive(w.heap, r);
    if !r.Obj? {
      assert CellOk(w.heap, w.rank, w.detached, r.at);
    }
  }

  lemma NotHeld(w: World, a: nat)
    requires Inv(w) && a < |w.heap| && !w.heap[a].Freed? && !w.heap[a].flags.needsFree && w.heap[a].ByrefCell?
    ensures Dropped(w, w, Byr(a))
  {
    assert !Alive(w.heap, Byr(a));
    assert w.owed - multiset{Byr(a)} == w.owed;
    forall i | 0 <= i < |w.heap| && OnHeap(w.heap[i]) ensures w.heap[i].flags.count >= 1 {
      assert CellOk(w.heap, w.rank, w.detached, i);
    }
  }

  lemma HeldCell(w: World, a: nat)
    requires Inv(w) && a < |w.heap| && !w.heap[a].Freed? && RefTo(w.heap, a) in w.owed && w.heap[a].flags.needsFree
    ensures OnHeap(w.heap[a]) && w.heap[a].flags.count >= 1 && !w.heap[a].flags.deallocating
  {
    assert Alive(w.heap, RefTo(w.heap, a));
    assert CellOk(w.heap, w.rank, w.detached, a);
  }

  lemma HeapCounts(w: World)
    requires CellsOk(w)
    ensures forall i :: 0 <= i < |w.heap| && OnHeap(w.heap[i]) ==> w.heap[i].flags.count >= 1
  {
    forall i | 0 <= i < |w.heap| && OnHeap(w.heap[i]) ensures w.heap[i].flags.count >= 1 {
      assert CellOk(w.heap, w.rank, w.detached, i);
    }
  }

  lemma ReleasedDropped(w: World, a: nat)
    requires Inv(w) && a < |w.heap| && OnHeap(w.heap[a]) && !LastReference(w.heap[a].flags)
    requires RefTo(w.heap, a) in w.owed && w.heap[a].flags.count >= 1
    ensures Dropped(w, Released(w, a), RefTo(w.heap, a))
  {
    hide Inv;
    ReleasedKeeps(w, a);
    InvCells(w);
    HeapCounts(w);
  }

  lemma ByrefFreedDropped(w: World, a: nat)
    requires Inv(w) && a < |w.heap| && w.heap[a].ByrefCell? && OnHeap(w.heap[a])
    requires LastReference(w.heap[a].flags) && Byr(a) in w.owed
    ensures Dropped(w, ByrefFreed(w, a), Byr(a))
  {
    hide Inv;
    ByrefFreedKeeps(w, a);
    InvCells(w);
    HeapCounts(w);
  }

  lemma UncountedDropped(w: World, w': World, a: nat)
    requires Inv(w) && BlockReleasable(w, a)
    requires a == 0 || w.heap[a].flags.isGlobal || !w.heap[a].flags.needsFree
    requires w' == w.(owed := w.owed - multiset{Blk(a)})
    ensures Dropped(w, w', Blk(a)) && !OnHeap(w.heap[a])
  {
    hide References;
    assert CellOk(w.heap, w.rank, w.detached, a);
    TransitKeeps(w, w');
    HeapCounts(w);
  }

  lemma ObjectRetained(w: World, o: nat)
    requires Inv(w) && Obj(o) in w.owed
    ensures o in w.retained && (forall r :: r in w.owed ==> Alive(w.heap, r))
  {
    OwedIsReferenced(w, Obj(o));
    hide References, Owned, CellOk, Alive;
  }

  lemma ObjectTransit(w: World, w': World, o: nat)
    requires Obj(o) in w.owed && o in w.retained && (forall r :: r in w.owed ==> Alive(w.heap, r))
    requires w' == w.(owed := w.owed - multiset{Obj(o)}, retained := w.retained - multiset{o})
    ensures TransitOnly(w, w')
  {
    hide Alive, Counted, RefTo;
    forall a: nat | Counted(w.heap, a)
      ensures a < |w.heap| && w'.owed[RefTo(w.heap, a)] == w.owed[RefTo(w.heap, a)]
    {
      CountedRef(w.heap, a);
    }
  }

  lemma CountedRef(h: seq<Cell>, a: nat)
    requires Counted(h, a)
    ensures a < |h| && !RefTo(h, a).Obj?
  {
  }

  lemma ObjectDropped(w: World, w': World, o: nat)
    requires Inv(w) && Obj(o) in w.owed
    requires w' == w.(owed := w.owed - multiset{Obj(o)}, retained := w.retained - multiset{o})
    ensures Dropped(w, w', Obj(o)) && o in w.retained
  {
    hide Inv, TransitOnly, OnHeap;
    ObjectRetained(w, o);
    ObjectTransit(w, w', o);
    TransitKeeps(w, w');
    InvCells(w);
    HeapCounts(w);
  }

  lemma NotBuilding(w: World, a: nat)
    requires NoneBuilding(w) && a < |w.heap| && w.heap[a].BlockCell? && OnHeap(w.heap[a])
    ensures a !in w.detached && NoneBuilding(Disposing(w, a)) && DisposeReady(Disposing(w, a), a)
  {
  }

  /** A block is marked, and what it captured is in transit. */
  ghost predicate DisposeReady(w: World, a: nat) {
    && a < |w.heap| && w.heap[a].BlockCell? && w.heap[a].flags.deallocating
    && multiset(w.heap[a].captures) <= w.owed
  }

  /** Its first `k` captures have been disposed of. */
  ghost predicate Disposed(w0: World, w: World, a: nat, k: nat)
    requires DisposeReady(w0, a)
  {
    && Inv(w) && Shrinks(w0, w) && k <= |w0.heap[a].captures|
    && w.owed + multiset(w0.heap[a].captures[..k]) == w0.owed
  }

  lemma DisposeStarts(w: World, a: nat)
    requires Inv(w) && DisposeReady(w, a)
    ensures Disposed(w, w, a, 0) && |w.heap| == |w.rank|
    ensures !w.heap[a].flags.hasCopyDispose ==> w.heap[a].captures == []
  {
    assert CellOk(w.heap, w.rank, w.detached, a);
    HeapCounts(w);
  }

  lemma NextDisposed(w0: World, w: World, a: nat, k: nat)
    requires NoneBuilding(w0) && DisposeReady(w0, a) && Disposed(w0, w, a, k) && k < |w0.heap[a].captures|
    ensures Inv(w) && NoneBuilding(w) && a < |w.heap| == |w.rank| && w.rank[a] == w0.rank[a]
    ensures w0.heap[a].captures[k] in w.owed && RefOk(w.heap, w.rank, a, w0.heap[a].captures[k])
  {
    InvCells(w);
    var c := w0.heap[a].captures;
    assert c == c[..k] + [c[k]] + c[k + 1..];
    assert multiset(c)[c[k]] == multiset(c[..k])[c[k]] + 1 + multiset(c[k + 1..])[c[k]];
    assert CellShrinks(w0.heap, w.heap, a);
    CapturesOk(w, a, k);
    forall i | i in w.detached && i < |w.heap| ensures !OnHeap(w.heap[i]) {
      assert CellShrinks(w0.heap, w.heap, i);
    }
  }

  lemma OneDisposed(w0: World, w: World, w': World, a: nat, k: nat)
    requires DisposeReady(w0, a) && Disposed(w0, w, a, k) && k < |w0.heap[a].captures|
    requires w0.heap[a].captures[k] in w.owed && Dropped(w, w', w0.heap[a].captures[k])
    ensures Disposed(w0, w', a, k + 1)
  {
    hide Inv, CellShrinks;
    ShrinksTrans(w0, w, w');
    var c := w0.heap[a].captures;
    assert c[..k + 1] == c[..k] + [c[k]];
  }

  lemma DisposedDropped(w: World, w2: World, a: nat)
    requires Inv(w) && a < |w.heap| && w.heap[a].BlockCell? && OnHeap(w.heap[a]) && a !in w.detached
    requires LastReference(w.heap[a].flags) && Blk(a) in w.owed && DisposeReady(Disposing(w, a), a)
    requires Disposed(Disposing(w, a), w2, a, |w.heap[a].captures|)
    ensures a < |w2.heap| && Dropped(w, Gone(w2, a), Blk(a))
  {
    hide CellsOk, AllAlive, CountsRight;
    var w1 := Disposing(w, a);
    var c := w.heap[a].captures;
    assert c[..|c|] == c;
    assert CellShrinks(w1.heap, w2.heap, a);
    NonzeroAddress(w, a);
    GoneKeeps(w2, a);
    var w3 := Gone(w2, a);
    assert w1.detached - {a} == w.detached;
    forall i | 0 <= i < |w.heap| ensures CellShrinks(w.heap, w3.heap, i) {
      assert CellShrinks(w1.heap, w2.heap, i);
    }
    SumCancels(w2.owed, w.owed - multiset{Blk(a)}, multiset(c));
  }

  lemma SumCancels(x: multiset<Ref>, y: multiset<Ref>, z: multiset<Ref>)
    requires x + z == y + z
    ensures x == y
  {
    forall r ensures x[r] == y[r] {
      assert (x + z)[r] == (y + z)[r];
    }
  }

  lemma NonzeroAddress(w: World, a: nat)
    requires Inv(w) && a < |w.heap| && OnHeap(w.heap[a])
    ensures a > 0 && (w.heap[a].BlockCell? ==> !w.heap[a].flags.isGlobal)
  {
    assert CellOk(w.heap, w.rank, w.detached, a);
  }

  lemma ClosingReady(w: World, x: nat)
    requires Inv(w) && x < |w.heap| && w.heap[x].ByrefCell? && !w.heap[x].flags.needsFree && x !in w.detached
    ensures ByrefReleasable(Closing(w, x), x)
    ensures Owned(w.heap, w.detached, x)
         == if Moved(w.heap, x) then multiset{Byr(w.heap[x].forwarding)} else multiset{}
    ensures !Moved(w.heap, x) ==> Byr(x) !in w.owed
  {
    ForwardingSettles(w, x);
    assert Byr(x) in w.owed ==> Alive(w.heap, Byr(x));
  }

  /** When the reference of its stack cell has been given up, the variable's scope can end. */
  lemma ClosedKeeps(w: World, w2: World, x: nat)
    requires Inv(w) && w.detached == {} && 0 <= x < |w.heap| && w.heap[x].ByrefCell? && !w.heap[x].flags.needsFree
    requires Dropped(Closing(w, x), w2, Byr(w.heap[x].forwarding))
    ensures x < |w2.heap| && Left(w, Gone(w2, x), x)
  {
    hide CellsOk, AllAlive, CountsRight;
    ClosingReady(w, x);
    var w1 := Closing(w, x);
    assert CellShrinks(w1.heap, w2.heap, x);
    VariableAddress(w, x);
    GoneKeeps(w2, x);
    forall i | 0 <= i < |w.heap| && i != x ensures CellShrinks(w.heap, Gone(w2, x).heap, i) {
      assert CellShrinks(w1.heap, w2.heap, i);
    }
    assert w1.detached == {x};
  }

  lemma ScopeEnds(w: World, p: nat)
    requires Inv(w) && p < |w.heap| && OnStack(w.heap[p]) && w.detached == {}
    ensures Inv(Gone(w, p)) && Gone(w, p).detached == {} && Gone(w, p) == w.(heap := w.heap[p := Freed])
  {
    NotNull(w, p);
    GoneKeeps(w, p);
    assert w.detached - {p} == {};
  }

  lemma ForwardingFits(w: World, x: nat)
    requires Inv(w) && x < |w.heap| && w.heap[x].ByrefCell? && w.detached == {}
    ensures Variable(w, x) && Resolve(w, x) == w.heap[x].forwarding < |w.heap|
    ensures w.heap[w.heap[x].forwarding].ByrefCell?
  {
    ForwardingSettles(w, x);
  }

  /** After a write to `x`, `y` has the value written if it shares its cell, and otherwise its own. */
  ghost predicate WrittenAt(w: World, x: nat, v: nat, y: nat)
    requires Variable(w, x) && Variable(w, y)
  {
    var w' := Written(w, Resolve(w, x), v);
    && Variable(w', y) && Resolve(w', y) == Resolve(w, y)
    && Value(w', y) == if Resolve(w, y) == Resolve(w, x) then v else Value(w, y)
  }

  lemma WrittenValue(w: World, x: nat, v: nat, y: nat)
    requires Inv(w) && w.detached == {} && Variable(w, x) && Variable(w, y)
    ensures WrittenAt(w, x, v, y)
  {
    ForwardingSettles(w, x);
    ForwardingSettles(w, y);
  }

  lemma WrittenIs(w: World, w': World, f: nat, v: nat)
    requires f < |w.heap| && w.heap[f].ByrefCell? && w' == w.(heap := w.heap[f := w.heap[f].(value := v)])
    ensures w' == Written(w, f, v)
  {
  }

  lemma VariableAddress(w: World, x: nat)
    requires Inv(w) && x < |w.heap| && w.heap[x].ByrefCell?
    ensures x > 0
  {
  }

  /** The stack cell is gone, and its reference with what only it kept alive. */
  ghost predicate Left(w: World, w': World, x: nat) {
    && Inv(w') && w'.owed == w.owed && w'.detached == w.detached && x < |w'.heap| == |w.heap| && w'.heap[x].Freed?
    && (forall i :: 0 <= i < |w.heap| && i != x ==> CellShrinks(w.heap, w'.heap, i))
  }

  /** Nothing has been made yet. */
  const START: World := World([Freed], [0], multiset{}, {}, multiset{})

  lemma StartInv()
    ensures Inv(START)
  {
    var w := START;
    forall r ensures References(w, r) == 0 {
      OwnersNone(w.heap, w.detached, 1, r);
    }
  }

  lemma NullAlive(w: World, a: nat)
    requires CellsOk(w) && a < |w.heap| && (a == 0 || (w.heap[a].BlockCell? && w.heap[a].flags.isGlobal))
    ensures forall n: nat :: Counted(w.heap, n) ==> RefTo(w.heap, n) != Blk(a)
    ensures Alive(w.heap, Blk(a))
  {
    assert CellOk(w.heap, w.rank, w.detached, a);
  }

  /** What `_Block_copy_internal` did: the result means the same as the block, one more reference to
      it is in transit, and nothing else has changed but as copies may; only copying a block on the
      stack makes new cells. */
  ghost predicate Copied(w: World, w': World, p: nat, q: nat)
    requires p < |w.rank|
  {
    && Inv(w') && Extends(w, w', w.rank[p] + 1, -1) && w'.detached == w.detached
    && w'.owed == w.owed + multiset{Blk(q)}
    && p < |w'.heap| && SameClosure(w', p, q)
    && (p < |w.heap| && !OnStack(w.heap[p]) ==> |w'.heap| == |w.heap|)
  }

  lemma CopiedParts(w: World, w': World, p: nat, q: nat)
    requires p < |w.rank| && Copied(w, w', p, q)
    ensures Inv(w') && Extends(w, w', w.rank[p] + 1, -1) && w'.detached == w.detached
    ensures w'.owed == w.owed + multiset{Blk(q)} && p < |w'.heap| && SameClosure(w', p, q)
  {
  }

  lemma RetainedCopied(w: World, a: nat)
    requires Inv(w) && a < |w.heap| && w.heap[a].BlockCell? && OnHeap(w.heap[a])
    ensures Copied(w, Retained(w, a), a, a)
  {
    hide Extends, Inv;
    RetainedKeeps(w, a);
    InvCells(w);
    RetainedExtends(w, a);
  }

  lemma MadeCopied(w: World, w2: World, p: nat)
    requires Inv(w) && p < |w.heap| && OnStack(w.heap[p])
    requires var w1 := BlockCopied(w, p);
      Making(w1, |w.heap|, p) && FixedUp(w1, w2, |w.heap|, p, |w1.heap[p].captures|)
    ensures |w.heap| < |w2.heap| && w2.heap[|w.heap|].BlockCell? && p < |w.rank|
    ensures Copied(w, Attached(w2, |w.heap|), p, |w.heap|)
  {
    hide CellExtends, CellsOk, AllAlive, CountsRight, Copyable, Extends, Making, FixedUp, SameClosure;
    InvCells(w);
    var w1 := BlockCopied(w, p);
    MakingEnds(w1, w2, |w.heap|, p);
    MadeExtends(w, w1, w2, p);
    StackNotDetached(w, |w.heap|);
    assert w1.detached - {|w.heap|} == w.detached;
  }

  lemma StackNotDetached(w: World, n: nat)
    requires CellsOk(w) && n >= |w.heap|
    ensures n !in w.detached
  {
  }

  lemma MadeExtends(w: World, w1: World, w2: World, p: nat)
    requires Inv(w) && p < |w.heap| && OnStack(w.heap[p]) && w1 == BlockCopied(w, p)
    requires Making(w1, |w.heap|, p) && FixedUp(w1, w2, |w.heap|, p, |w1.heap[p].captures|)
    ensures Extends(w, Attached(w2, |w.heap|), w.rank[p] + 1, -1)
  {
    hide CellExtends, CellsOk, AllAlive, CountsRight, Copyable, Extends;
    InvCells(w);
    var n, bound := |w.heap|, w.rank[p] + 1;
    CopiedExtends(w, p);
    Loosen(w1, w2, w1.rank[p], bound, n);
    ExtendsPast(w, w1, w2, bound, n);
    AttachedExtends(w2, n, bound);
    ExtendsPast(w, w2, Attached(w2, n), bound, n);
  }

  lemma Loosen(w: World, w': World, bound: nat, wider: nat, except: int)
    requires Extends(w, w', bound, except) && bound <= wider
    ensures Extends(w, w', wider, except)
  {
  }

  lemma ObjectHeld(w: World, w': World, o: nat)
    requires Inv(w) && w' == w.(owed := w.owed + multiset{Obj(o)}, retained := w.retained + multiset{o})
    ensures Inv(w')
  {
    hide References;
    TransitKeeps(w, w');
  }

  lemma StackBlock(w: World, n: nat, p: nat)
    requires Making(w, n, p) && FixedUp(w, w, n, p, 0)
    ensures p < |w.heap| == |w.rank| && w.heap[p].BlockCell? && n < |w.heap|
    ensures !w.heap[p].flags.hasCopyDispose ==> w.heap[p].captures == []
  {
    assert CellOk(w.heap, w.rank, w.detached, p);
  }

  lemma NextCapture(w0: World, w: World, n: nat, p: nat, k: nat)
    requires Making(w0, n, p) && FixedUp(w0, w, n, p, k) && k < |w0.heap[p].captures|
    ensures Inv(w) && p < |w.heap| == |w.rank| && n < |w.heap| && w.rank[p] == w0.rank[p]
    ensures RefOk(w.heap, w.rank, p, w0.heap[p].captures[k]) && CaptureCopyable(w, p, w0.heap[p].captures[k])
    ensures w.heap[n].BlockCell? && k < |w.heap[n].captures| && w.rank[n] == w.rank[p]
  {
    CaptureKept(w0, w, w0.rank[p], n, p, w0.heap[p].captures[k]);
  }

  lemma InvCells(w: World)
    requires Inv(w)
    ensures CellsOk(w) && |w.heap| == |w.rank|
  {
  }

  /** A reference to NULL or to a global block costs nothing. */
  lemma UncountedHeld(w: World, w': World, a: nat)
    requires Inv(w) && a < |w.heap| && (a == 0 || (w.heap[a].BlockCell? && w.heap[a].flags.isGlobal))
    requires w' == w.(owed := w.owed + multiset{Blk(a)})
    ensures Copied(w, w', a, a)
  {
    hide References;
    NullAlive(w, a);
    TransitKeeps(w, w');
    ExtendsSelf(w, w.rank[a] + 1, -1);
  }

  lemma CopyableBlock(w: World, p: nat)
    requires CellsOk(w) && 0 < p < |w.heap| && Copyable(w, p)
    ensures w.heap[p].BlockCell? && (w.heap[p].flags.needsFree ==> OnHeap(w.heap[p]))
  {
  }

  // ---- Copying keeps the invariant ----------------------------------------------------------

  /** A capture has been copied, and what that gave is in transit. */
  ghost predicate RefCopied(w: World, w1: World, p: nat, r: Ref, s: Ref)
    requires p < |w.rank|
  {
    && Inv(w1) && Extends(w, w1, w.rank[p], -1) && w1.detached == w.detached
    && w1.owed == w.owed + multiset{s} && p < |w1.heap| == |w1.rank|
    && RefOk(w1.heap, w1.rank, p, r) && SameCapture(w1, p, r, s)
  }

  /** `_Block_copy_internal` keeps every count right, and its result is a copy. */
  lemma {:induction false} CopyBlockKeeps(w: World, p: nat)
    requires Inv(w) && p < |w.heap| && Copyable(w, p)
    ensures p < |w.rank| && Copied(w, CopyBlock(w, p).0, p, CopyBlock(w, p).1)
    decreases w.rank[p], 1, 0
  {
    hide Inv, Copied, Copyable, Making, FixedUp, Retained, BlockCopied, Attached, CopySlots;
    InvCells(w);
    if p == 0 {
      UncountedHeld(w, Hold(w, Blk(0)), 0);
    } else {
      CopyableBlock(w, p);
      if w.heap[p].flags.needsFree {
        RetainedCopied(w, p);
      } else if w.heap[p].flags.isGlobal {
        UncountedHeld(w, Hold(w, Blk(p)), p);
      } else {
        MakingStarts(w, p);
        var n, w1 := |w.heap|, BlockCopied(w, p);
        StackCaptures(w, p);
        CopySlotsKeep(w1, w1, n, p, 0);
        MadeCopied(w, CopySlots(w1, n, Helped(w.heap[p]), 0, w.rank[p]), p);
      }
    }
  }

  lemma {:induction false} CopySlotsKeep(w0: World, w: World, n: nat, p: nat, k: nat)
    requires Making(w0, n, p) && FixedUp(w0, w, n, p, k)
    ensures k <= |w0.heap[p].captures|
    ensures FixedUp(w0, CopySlots(w, n, w0.heap[p].captures, k, w0.rank[p]), n, p, |w0.heap[p].captures|)
    decreases w0.rank[p], 0, |w0.heap[p].captures| - k
  {
    hide Making, FixedUp, Filled, CopyRef, RefOk, CaptureCopyable, RefCopied;
    SlotsLeft(w0, w, n, p, k);
    var captures := w0.heap[p].captures;
    if k < |captures| {
      NextCapture(w0, w, n, p, k);
      CopyRefKeeps(w, p, captures[k]);
      var copied := CopyRef(w, captures[k], w.rank[p]);
      SlotCopied(w0, w, copied.0, n, p, k, copied.1);
      CopySlotsKeep(w0, Filled(copied.0, n, k, copied.1), n, p, k + 1);
    }
  }

  /** `_Block_object_assign` on a capture of block `p`. */
  lemma {:induction false} CopyRefKeeps(w: World, p: nat, r: Ref)
    requires Inv(w) && p < |w.heap| == |w.rank| && RefOk(w.heap, w.rank, p, r) && CaptureCopyable(w, p, r)
    ensures RefCopied(w, CopyRef(w, r, w.rank[p]).0, p, r, CopyRef(w, r, w.rank[p]).1)
    decreases w.rank[p], 0, 0
  {
    hide Inv, CopyBlock, CopyByref, Copied, Copyable, Extends, SameClosure;
    InvCells(w);
    match r
    case Obj(o) =>
      ObjectHeld(w, RetainObject(w, o), o);
      ObjectCopied(w, p, o);
    case Blk(q) =>
      CopyBlockKeeps(w, q);
      BlockCaptured(w, CopyBlock(w, q).0, p, q, CopyBlock(w, q).1);
    case Byr(b) =>
      CopyByrefKeeps(w, b);
      ByrefCaptured(w, CopyByref(w, b).0, p, b, CopyByref(w, b).1);
  }

  /** `_Block_byref_assign_copy` gives the live cell the variable forwards to, with one reference
      more. */
  lemma CopyByrefKeeps(w: World, b: nat)
    requires Inv(w) && b < |w.heap| && w.heap[b].ByrefCell? && b !in w.detached
    ensures ByrefTaken(w, CopyByref(w, b).0, b, CopyByref(w, b).1)
  {
    hide Inv, Extends, ByrefCopied, Retained;
    ForwardingSettles(w, b);
    InvCells(w);
    var f := w.heap[b].forwarding;
    if w.heap[f].flags.count == 0 {
      ByrefCopiedKeeps(w, b);
      ByrefCopiedExtends(w, b);
      ByrefCopiedIs(w, b);
    } else {
      RetainedKeeps(w, f);
      RetainedExtends(w, f);
      RetainedIs(w, f, b);
    }
  }

  ghost predicate ByrefTaken(w: World, w': World, b: nat, f: nat) {
    && Inv(w') && Extends(w, w', 0, -1) && w'.detached == w.detached && w'.owed == w.owed + multiset{Byr(f)}
    && b < |w'.heap| && w'.heap[b].ByrefCell? && w'.heap[b].forwarding == f && Alive(w'.heap, Byr(f))
  }

  lemma ByrefCopiedIs(w: World, b: nat)
    requires b < |w.heap| && w.heap[b].ByrefCell?
    ensures var w' := ByrefCopied(w, b);
      && w'.detached == w.detached && w'.owed == w.owed + multiset{Byr(|w.heap|)} && |w'.heap| == |w.heap| + 1
      && w'.heap[b].ByrefCell? && w'.heap[b].forwarding == |w.heap|
  {
  }

  lemma RetainedIs(w: World, f: nat, b: nat)
    requires f < |w.heap| && w.heap[f].ByrefCell? && OnHeap(w.heap[f]) && b < |w.heap| && w.heap[b].ByrefCell?
    ensures var w' := Retained(w, f);
      && w'.detached == w.detached && w'.owed == w.owed + multiset{Byr(f)} && |w'.heap| == |w.heap|
      && w'.heap[b].ByrefCell? && w'.heap[b].forwarding == w.heap[b].forwarding && Alive(w'.heap, Byr(f))
  {
  }

  lemma ObjectCopied(w: World, p: nat, o: nat)
    requires CellsOk(w) && p < |w.heap| && Inv(RetainObject(w, o))
    ensures RefCopied(w, RetainObject(w, o), p, Obj(o), Obj(o))
  {
    ExtendsSelf(w, w.rank[p], -1);
  }

  lemma BlockCaptured(w: World, w1: World, p: nat, q: nat, b: nat)
    requires CellsOk(w) && p < |w.heap| && q < |w.heap| && w.rank[q] < w.rank[p] && Copied(w, w1, q, b)
    ensures RefCopied(w, w1, p, Blk(q), Blk(b))
  {
    hide CellExtends;
    CopiedParts(w, w1, q, b);
    ExtendsWider(w, w1, w.rank[q] + 1, w.rank[p], -1);
    InvCells(w1);
  }

  lemma ByrefCaptured(w: World, w1: World, p: nat, b: nat, f: nat)
    requires CellsOk(w) && p < |w.heap| && b < |w.heap| && ByrefTaken(w, w1, b, f)
    ensures RefCopied(w, w1, p, Byr(b), Byr(f))
  {
    hide CellExtends;
    ExtendsWider(w, w1, 0, w.rank[p], -1);
    InvCells(w1);
  }

  lemma SlotCopied(w0: World, w: World, w1: World, n: nat, p: nat, k: nat, s: Ref)
    requires Making(w0, n, p) && FixedUp(w0, w, n, p, k) && k < |w0.heap[p].captures|
    requires p < |w.rank| && w.rank[p] == w0.rank[p] && RefCopied(w, w1, p, w0.heap[p].captures[k], s)
    ensures FixedUp(w0, Filled(w1, n, k, s), n, p, k + 1)
  {
    hide Making, FixedUp, Filled, RefOk, SameCapture, Extends, Inv;
    FixedUpOneMore(w0, w, w1, n, p, k, s);
  }

  lemma SlotsLeft(w0: World, w: World, n: nat, p: nat, k: nat)
    requires Making(w0, n, p) && FixedUp(w0, w, n, p, k)
    ensures p < |w0.heap| == |w0.rank| && w0.heap[p].BlockCell? && k <= |w0.heap[p].captures|
  {
  }

  lemma StackCaptures(w: World, p: nat)
    requires CellsOk(w) && p < |w.heap| && OnStack(w.heap[p])
    ensures Helped(w.heap[p]) == w.heap[p].captures && |w.heap| == |w.rank|
    ensures var w1 := BlockCopied(w, p);
      w1.heap[p] == w.heap[p] && p < |w1.rank| && w1.rank[p] == w.rank[p] == RankOf(w, p)
  {
    assert CellOk(w.heap, w.rank, w.detached, p);
  }

  // ---- Releasing keeps the invariant --------------------------------------------------------

  /** `_Block_release` gives up one reference and keeps every count right. */
  lemma {:induction false} ReleaseBlockKeeps(w: World, p: nat)
    requires Inv(w) && NoneBuilding(w) && BlockReleasable(w, p)
    ensures Dropped(w, ReleaseBlock(w, p), Blk(p))
    decreases RankOf(w, p), 1, 0
  {
    hide Inv, Dropped, NoneBuilding, DisposeSlots, Disposing, Gone, Released, Disposed, DisposeReady;
    InvCells(w);
    if p == 0 || w.heap[p].flags.isGlobal || !w.heap[p].flags.needsFree {
      UncountedDropped(w, Drop(w, Blk(p)), p);
    } else {
      HeldCell(w, p);
      if LastReference(w.heap[p].flags) {
        NotBuilding(w, p);
        DisposingKeeps(w, p);
        var w1 := Disposing(w, p);
        DisposeStarts(w1, p);
        DisposingIs(w, p);
        DisposeSlotsKeep(w1, w1, p, 0);
        DisposedDropped(w, DisposeSlots(w1, Helped(w.heap[p]), 0, w.rank[p]), p);
      } else {
        ReleasedKeeps(w, p);
        ReleasedDropped(w, p);
      }
    }
  }

  lemma DisposingIs(w: World, p: nat)
    requires CellsOk(w) && p < |w.heap| && w.heap[p].BlockCell?
    ensures var w1 := Disposing(w, p);
      |w1.heap| == |w.heap| && w1.rank == w.rank && w1.heap[p].BlockCell? && w1.heap[p].captures == w.heap[p].captures
    ensures Helped(w.heap[p]) == w.heap[p].captures
  {
    assert CellOk(w.heap, w.rank, w.detached, p);
  }

  lemma {:induction false} DisposeSlotsKeep(w0: World, w: World, a: nat, k: nat)
    requires NoneBuilding(w0) && DisposeReady(w0, a) && Disposed(w0, w, a, k)
    ensures k <= |w0.heap[a].captures|
    ensures Disposed(w0, DisposeSlots(w, w0.heap[a].captures, k, RankOf(w0, a)), a, |w0.heap[a].captures|)
    decreases RankOf(w0, a), 0, |w0.heap[a].captures| - k
  {
    hide NoneBuilding, DisposeReady, Disposed, DisposeRef, Dropped, Inv, RefOk;
    DisposalsLeft(w0, w, a, k);
    var captures := w0.heap[a].captures;
    if k < |captures| {
      NextDisposed(w0, w, a, k);
      DisposeRefKeeps(w, a, captures[k]);
      OneDisposed(w0, w, DisposeRef(w, captures[k], w.rank[a]), a, k);
      DisposeSlotsKeep(w0, DisposeRef(w, captures[k], w.rank[a]), a, k + 1);
    }
  }

  lemma DisposalsLeft(w0: World, w: World, a: nat, k: nat)
    requires DisposeReady(w0, a) && Disposed(w0, w, a, k)
    ensures a < |w0.heap| && w0.heap[a].BlockCell? && k <= |w0.heap[a].captures|
    ensures a < |w.rank| == |w.heap| && w.rank == w0.rank
  {
    InvCells(w);
  }

  /** `_Block_object_dispose` on a capture of block `p`. */
  lemma {:induction false} DisposeRefKeeps(w: World, p: nat, r: Ref)
    requires Inv(w) && NoneBuilding(w) && r in w.owed && p < |w.heap| == |w.rank| && RefOk(w.heap, w.rank, p, r)
    ensures Dropped(w, DisposeRef(w, r, w.rank[p]), r)
    decreases w.rank[p], 0, 0
  {
    hide Inv, NoneBuilding, Dropped, ReleaseBlock, ReleaseByref, BlockReleasable, ByrefReleasable;
    OwedAlive(w, r);
    match r
    case Obj(o) => ObjectDropped(w, ReleaseObject(w, o), o);
    case Blk(q) => ReleaseBlockKeeps(w, q);
    case Byr(b) => ReleaseByrefKeeps(w, b);
  }

  /** `_Block_byref_release` gives up one reference to the cell the variable forwards to. */
  lemma ReleaseByrefKeeps(w: World, b: nat)
    requires Inv(w) && ByrefReleasable(w, b)
    ensures Dropped(w, ReleaseByref(w, b), Byr(w.heap[b].forwarding))
  {
    hide Inv, Dropped, Released, ByrefFreed;
    InvCells(w);
    var f := w.heap[b].forwarding;
    if !w.heap[f].flags.needsFree {
      NotHeld(w, f);
    } else {
      HeldCell(w, f);
      if LastReference(w.heap[f].flags) {
        ByrefFreedDropped(w, f);
      } else {
        ReleasedDropped(w, f);
      }
    }
  }

  /** Leaving a variable's scope gives up the stack's reference and no other. */
  lemma LeaveVariableKeeps(w: World, x: nat)
    requires Inv(w) && w.detached == {} && x < |w.heap| && w.heap[x].ByrefCell? && !w.heap[x].flags.needsFree
    ensures Left(w, LeaveVariable(w, x), x)
  {
    hide Inv, Dropped, Closing, Gone, ReleaseByref, ByrefReleasable, Left;
    ClosingKeeps(w, x);
    ClosingReady(w, x);
    ClosingIs(w, x);
    ReleaseByrefKeeps(Closing(w, x), x);
    ClosedKeeps(w, ReleaseByref(Closing(w, x), x), x);
  }

  lemma ClosingIs(w: World, x: nat)
    requires x < |w.heap|
    ensures Closing(w, x).heap == w.heap
  {
  }

  // ---- One step at a time -------------------------------------------------------------------

  lemma CopySlotsNext(w: World, n: nat, captures: seq<Ref>, k: nat, r: nat)
    requires k < |captures|
    ensures var copied := CopyRef(w, captures[k], r);
      CopySlots(w, n, captures, k, r) == CopySlots(Filled(copied.0, n, k, copied.1), n, captures, k + 1, r)
  {
    hide CopyRef, Filled;
  }

  lemma SlotsDone(w: World, n: nat, captures: seq<Ref>, r: nat)
    ensures CopySlots(w, n, captures, |captures|, r) == w
  {
  }

  lemma NoSlots(w: World, n: nat, r: nat)
    ensures CopySlots(w, n, [], 0, r) == w
  {
  }

  lemma DisposeSlotsNext(w: World, captures: seq<Ref>, k: nat, r: nat)
    requires k < |captures|
    ensures DisposeSlots(w, captures, k, r) == DisposeSlots(DisposeRef(w, captures[k], r), captures, k + 1, r)
  {
    hide DisposeRef;
  }

  lemma DisposalsDone(w: World, captures: seq<Ref>, r: nat)
    ensures DisposeSlots(w, captures, |captures|, r) == w
  {
  }

  lemma NoDisposals(w: World, r: nat)
    ensures DisposeSlots(w, [], 0, r) == w
  {
  }

  lemma FilledIs(w: World, w': World, n: nat, k: nat, r: Ref)
    requires n < |w.heap| && w.heap[n].BlockCell? && k < |w.heap[n].captures|
    requires var c := w.heap[n];
      w' == w.(heap := w.heap[n := BlockCell(c.flags, c.code, c.captures[k := r])])
    ensures w' == Filled(w, n, k, r)
  {
  }

  lemma MallocedIs(w: World, w': World, p: nat)
    requires p < |w.heap| == |w.rank| && w.heap[p].BlockCell?
    requires var c := w.heap[p]; w' == w.(
      heap := w.heap + [BlockCell(c.flags.(count := 1, deallocating := false, needsFree := true), c.code, c.captures)],
      rank := w.rank + [w.rank[p]], owed := w.owed + multiset{Blk(|w.heap|)}, detached := w.detached + {|w.heap|})
    ensures w' == BlockCopied(w, p)
  {
  }

  lemma StackCopyIs(w: World, p: nat)
    requires CellsOk(w) && p < |w.heap| && OnStack(w.heap[p])
    ensures var n, w1 := |w.heap|, BlockCopied(w, p);
      && w1.heap[p] == w.heap[p] && RankOf(w1, p) == RankOf(w, p)
      && CopyBlock(w, p) == (Attached(CopySlots(w1, n, Helped(w.heap[p]), 0, RankOf(w, p)), n), n)
  {
    hide CopySlots, Attached;
    StackCaptures(w, p);
  }

  /** The slots of the new block are its own once they are fixed up. */
  lemma MadeBlock(w: World, w2: World, p: nat)
    requires Inv(w) && p < |w.heap| && OnStack(w.heap[p])
    requires var w1 := BlockCopied(w, p);
      Making(w1, |w.heap|, p) && FixedUp(w1, w2, |w.heap|, p, |w1.heap[p].captures|)
    ensures |w.heap| < |w2.heap| && w2.heap[|w.heap|].BlockCell?
    ensures var n := |w.heap|;
      Attached(w2, n) == w2.(detached := w2.detached - {n}, owed := w2.owed - multiset(w2.heap[n].captures))
  {
    hide Inv;
  }

  /** Copying a capture of lower rank does not touch the block it is for. */
  lemma BlockUnderConstruction(w: World, w1: World, q: nat, b: nat, dest: nat)
    requires q < |w.rank| == |w.heap| && Copied(w, w1, q, b)
    requires dest < |w.heap| && w.heap[dest].BlockCell? && w.rank[q] < w.rank[dest]
    ensures dest < |w1.heap| && w1.heap[dest] == w.heap[dest]
  {
    hide Inv;
  }

  lemma BlockUntouched(w: World, w1: World, b: nat, f: nat, dest: nat)
    requires |w.rank| == |w.heap| && ByrefTaken(w, w1, b, f) && dest < |w.heap| && w.heap[dest].BlockCell?
    ensures dest < |w1.heap| && w1.heap[dest] == w.heap[dest]
  {
    hide Inv;
  }

  lemma NotOnHeap(w: World, p: nat)
    requires CellsOk(w) && BlockReleasable(w, p)
    requires p == 0 || w.heap[p].flags.isGlobal || !w.heap[p].flags.needsFree
    ensures !OnHeap(w.heap[p])
  {
    assert CellOk(w.heap, w.rank, w.detached, p);
  }

  lemma MarkedIs(w: World, w': World, p: nat)
    requires p < |w.heap| && w.heap[p].BlockCell?
    requires w' == w.(
      heap := w.heap[p := WithFlags(w.heap[p], w.heap[p].flags.(count := 0, deallocating := true))],
      owed := w.owed - multiset{Blk(p)} + multiset(w.heap[p].captures), detached := w.detached + {p})
    ensures w' == Disposing(w, p) && w'.heap[p].BlockCell? && Helped(w'.heap[p]) == Helped(w.heap[p])
    ensures RankOf(w', p) == RankOf(w, p)
  {
  }

  lemma DisposalDone(w: World, w2: World, p: nat)
    requires p < |w.heap| && w.heap[p].BlockCell? && DisposeReady(Disposing(w, p), p)
    requires Disposed(Disposing(w, p), w2, p, |w.heap[p].captures|)
    ensures p < |w2.heap|
  {
    hide Inv;
  }

  lemma LeftParts(w: World, w': World, x: nat)
    requires Left(w, w', x)
    ensures Inv(w') && w'.detached == w.detached
  {
  }
}
