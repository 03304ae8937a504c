/** Whole runs of compiled code over the block runtime. */
module BlockRuns {
  import opened BlockHeap
  import opened BlockMeaning
  import opened BlockOps
  import L = LatchingCount

  /** Any sequence of operations, each allowed where it is done, from empty memory on. */
  ghost predicate IsRun(worlds: seq<World>, ops: seq<Op>) {
    && |worlds| == |ops| + 1
    && worlds[0] == START
    && (forall i :: 0 <= i < |ops| ==> Allowed(worlds[i], ops[i]) && worlds[i + 1] == Exec(worlds[i], ops[i]))
  }

  // ---- One operation ------------------------------------------------------------------------

  lemma NoneDetached(w: World)
    requires w.detached == {}
    ensures NoneBuilding(w)
  {
  }

  /** Every operation keeps the ownership invariant. */
  lemma StepKeeps(w: World, op: Op)
    requires Inv(w) && w.detached == {} && Allowed(w, op)
    ensures Inv(Exec(w, op)) && Exec(w, op).detached == {}
  {
    hide Inv, Copyable, CopyBlock, ReleaseBlock, LeaveVariable, Extends, SameClosure, Shrinks, BlockReleasable,
         TryRetained, Newborn, CellShrinks;
    InvCells(w);
    match op
    case Copying(p) => CopyBlockKeeps(w, p);
    case Releasing(p) =>
      NoneDetached(w);
      ReleaseBlockKeeps(w, p);
      ReleasedDetached(w, ReleaseBlock(w, p), p);
    case TryRetaining(p) =>
      TryRetainedKeeps(w, p);
      TryRetainedIs(w, p);
    case Creating(c) => BornKeeps(w, c);
    case Writing(x, v) => WrittenKeeps(w, Resolve(w, x), v);
    case LeavingVariable(x) => LeaveVariableKeeps(w, x);
    case LeavingBlock(p) => ScopeEnds(w, p);
  }

  lemma ReleasedDetached(w: World, w': World, p: nat)
    requires Dropped(w, w', Blk(p))
    ensures w'.detached == w.detached && w'.owed == w.owed - multiset{Blk(p)}
  {
    hide CellShrinks, Inv;
  }

  lemma TryRetainedIs(w: World, p: nat)
    requires At(w, p).BlockCell?
    ensures var w' := TryRetained(w, p).0;
      && w'.detached == w.detached && |w'.heap| == |w.heap|
      && w'.owed == (if OnHeap(At(w, p)) then w.owed + multiset{Blk(p)}
                     else w.owed)
  {
  }

  /** What operations can make of a cell. A freed cell stays freed; a heap cell stays what it is, but
      for its count and value, until it is freed; nothing else becomes a heap cell; a latched cell
      stays latched; and a variable that has moved stays where it moved to until its scope ends. */
  ghost predicate CellStep(h: seq<Cell>, h': seq<Cell>, i: nat) {
    && i < |h| <= |h'|
    && (h[i].Freed? ==> h'[i].Freed?)
    && (OnHeap(h[i]) ==> h'[i].Freed? || (OnHeap(h'[i]) && SameContents(h[i], h'[i])))
    && (OnHeap(h'[i]) ==> OnHeap(h[i]))
    && (OnHeap(h[i]) && h[i].flags.count == L.LATCHED ==> OnHeap(h'[i]) && h'[i].flags == h[i].flags)
    && (Moved(h, i) ==> h'[i].Freed? || (h'[i].ByrefCell? && h'[i].forwarding == h[i].forwarding))
    && (h'[i].ByrefCell? ==> h[i].ByrefCell?)
  }

  predicate SameContents(c: Cell, c': Cell) {
    match c
    case Freed => c'.Freed?
    case BlockCell(_, code, captures) => c'.BlockCell? && c'.code == code && c'.captures == captures
    case ByrefCell(_, forwarding, _) => c'.ByrefCell? && c'.forwarding == forwarding
  }

  lemma ExtendedStep(h: seq<Cell>, h': seq<Cell>, i: nat)
    requires i < |h| <= |h'| && CellExtends(h, h', i)
      && (h[i].ByrefCell? && h[i].flags.needsFree ==> h[i].forwarding == i)
    ensures CellStep(h, h', i)
  {
  }

  lemma ShrunkStep(h: seq<Cell>, h': seq<Cell>, i: nat)
    requires i < |h| == |h'| && CellShrinks(h, h', i)
    ensures CellStep(h, h', i)
  {
  }

  lemma SettledCell(w: World, i: nat)
    requires CellsOk(w) && i < |w.heap| && w.heap[i].ByrefCell? && w.heap[i].flags.needsFree
    ensures w.heap[i].forwarding == i
  {
    assert CellOk(w.heap, w.rank, w.detached, i);
  }

  lemma StepCells(w: World, op: Op, i: nat)
    requires Inv(w) && w.detached == {} && Allowed(w, op) && i < |w.heap|
    ensures CellStep(w.heap, Exec(w, op).heap, i)
  {
    hide Inv, Copyable, CopyBlock, ReleaseBlock, LeaveVariable, SameClosure, BlockReleasable, Newborn, CellExtends,
         CellShrinks, CellStep, TryRetained, Born, Written, Gone;
    InvCells(w);
    match op
    case Copying(p) =>
      CopyBlockKeeps(w, p);
      if w.heap[i].ByrefCell? && w.heap[i].flags.needsFree {
        SettledCell(w, i);
      }
      ExtendedStep(w.heap, CopyBlock(w, p).0.heap, i);
    case Releasing(p) =>
      NoneDetached(w);
      ReleaseBlockKeeps(w, p);
      ShrunkStep(w.heap, ReleaseBlock(w, p).heap, i);
    case LeavingVariable(x) =>
      LeaveVariableKeeps(w, x);
      LeftStep(w, LeaveVariable(w, x), x, i);
    case _ => SmallStep(w, op, i);
  }

  lemma LeftStep(w: World, w': World, x: nat, i: nat)
    requires Left(w, w', x) && x < |w.heap| && w.heap[x].ByrefCell? && !w.heap[x].flags.needsFree && i < |w.heap|
    ensures CellStep(w.heap, w'.heap, i)
  {
    hide Inv, CellShrinks;
    if i != x {
      ShrunkStep(w.heap, w'.heap, i);
    }
  }

  lemma SmallStep(w: World, op: Op, i: nat)
    requires Allowed(w, op) && i < |w.heap|
    requires op.TryRetaining? || op.Creating? || op.Writing? || op.LeavingBlock?
    ensures CellStep(w.heap, Exec(w, op).heap, i)
  {
    hide Copyable, BlockReleasable, Newborn, TryRetained;
    if op.TryRetaining? {
      TryRetainingStep(w, op.arg, i);
    }
  }

  lemma TryRetainingStep(w: World, p: nat, i: nat)
    requires At(w, p).BlockCell? && i < |w.heap|
    ensures CellStep(w.heap, TryRetained(w, p).0.heap, i)
  {
  }

  /** What clients hold after an operation. */
  ghost function Owing(w: World, op: Op): multiset<Ref>
    requires Allowed(w, op)
  {
    match op
    case Copying(p) => w.owed + multiset{Blk(CopyBlock(w, p).1)}
    case Releasing(p) => w.owed - multiset{Blk(p)}
    case TryRetaining(p) => if OnHeap(At(w, p)) then w.owed + multiset{Blk(p)} else w.owed
    case _ => w.owed
  }

  lemma StepOwed(w: World, op: Op)
    requires Inv(w) && w.detached == {} && Allowed(w, op)
    ensures Exec(w, op).owed == Owing(w, op)
  {
    hide Inv, Copyable, CopyBlock, ReleaseBlock, LeaveVariable, Extends, SameClosure, Shrinks, BlockReleasable,
         TryRetained, Newborn, CellShrinks;
    InvCells(w);
    match op
    case Copying(p) => CopyBlockKeeps(w, p);
    case Releasing(p) =>
      NoneDetached(w);
      ReleaseBlockKeeps(w, p);
      ReleasedDetached(w, ReleaseBlock(w, p), p);
    case TryRetaining(p) => TryRetainedIs(w, p);
    case LeavingVariable(x) => LeaveVariableKeeps(w, x);
    case _ =>
  }

  // ---- Runs ---------------------------------------------------------------------------------

  /** In every run every count that is not latched is the number of references, every object has
      been retained as often as it is referenced, and whatever is referenced is alive. */
  lemma {:induction false} RunKeeps(worlds: seq<World>, ops: seq<Op>, i: nat)
    requires IsRun(worlds, ops) && i < |worlds|
    ensures Inv(worlds[i]) && worlds[i].detached == {}
  {
    hide Inv, Exec, Allowed;
    if i == 0 {
      StartInv();
    } else {
      RunKeeps(worlds, ops, i - 1);
      StepKeeps(worlds[i - 1], ops[i - 1]);
    }
  }

  /** In every run a freed cell is never used again, so that none is freed twice; a heap cell goes
      only by being freed, and never once it has latched; what a heap block captures never changes;
      and a variable's forwarding changes at most once while its scope is open. */
  lemma {:induction false} CellsOverTime(worlds: seq<World>, ops: seq<Op>, i: nat, j: nat, a: nat)
    requires IsRun(worlds, ops) && i <= j < |worlds| && a < |worlds[i].heap|
    ensures CellStep(worlds[i].heap, worlds[j].heap, a)
  {
    hide Inv, Exec, Allowed, OnHeap;
    if i < j {
      CellsOverTime(worlds, ops, i, j - 1, a);
      RunKeeps(worlds, ops, j - 1);
      StepCells(worlds[j - 1], ops[j - 1], a);
    }
  }

  // ---- The end of a run ---------------------------------------------------------------------

  ghost predicate NeverLatched(worlds: seq<World>) {
    forall i :: 0 <= i < |worlds| ==> NoneLatched(worlds[i])
  }

  ghost predicate AllFreed(worlds: seq<World>, end: World) {
    forall i, a :: 0 <= i < |worlds| && 0 <= a < |worlds[i].heap| && OnHeap(worlds[i].heap[a]) ==> At(end, a).Freed?
  }

  /** A run that ends with all references given up and all scopes left has freed every cell that was
      ever on the heap exactly if no heap count latched on the way; then every object has been
      released as often as it was retained. */
  lemma EverythingFreed(worlds: seq<World>, ops: seq<Op>)
    requires IsRun(worlds, ops) && NobodyHolds(worlds[|ops|])
    ensures AllFreed(worlds, worlds[|ops|]) <==> NeverLatched(worlds)
    ensures NeverLatched(worlds) ==> worlds[|ops|].retained == multiset{}
  {
    hide Inv, Exec, Allowed, NobodyHolds;
    var end := worlds[|ops|];
    RunKeeps(worlds, ops, |ops|);
    NothingLeft(end);
    forall i, a | 0 <= i < |worlds| && 0 <= a < |worlds[i].heap| && OnHeap(worlds[i].heap[a])
      ensures NoneLatched(end) ==> At(end, a).Freed?
    {
      CellsOverTime(worlds, ops, i, |ops|, a);
    }
    assert NeverLatched(worlds) ==> NoneLatched(worlds[|ops|]);
    if AllFreed(worlds, end) {
      forall i | 0 <= i < |worlds| ensures NoneLatched(worlds[i]) {
        forall a | 0 <= a < |worlds[i].heap| && OnHeap(worlds[i].heap[a])
          ensures worlds[i].heap[a].flags.count != L.LATCHED
        {
          CellsOverTime(worlds, ops, i, |ops|, a);
          assert At(end, a).Freed?;
        }
      }
    }
  }

  // ---- Variables over a run -----------------------------------------------------------------

  /** The operation writes the variable that `x` refers to. */
  ghost predicate WritesTo(w: World, op: Op, x: nat)
    requires Variable(w, x)
  {
    op.Writing? && Variable(w, op.x) && Resolve(w, op.x) == Resolve(w, x)
  }

  /** A variable's cell is as it was, or gone. */
  ghost predicate VariableKept(h: seq<Cell>, h': seq<Cell>, i: nat)
    requires i < |h| <= |h'|
  {
    h[i].ByrefCell? ==>
      h'[i].Freed? || (h'[i].ByrefCell? && h'[i].forwarding == h[i].forwarding && h'[i].value == h[i].value)
  }

  lemma KeptVariables(w: World, w': World, x: nat)
    requires |w.heap| <= |w'.heap| && (forall i :: 0 <= i < |w.heap| ==> VariableKept(w.heap, w'.heap, i))
    requires Variable(w, x) && Variable(w', x)
    ensures Resolve(w', x) == Resolve(w, x) && Value(w', x) == Value(w, x)
  {
    assert VariableKept(w.heap, w'.heap, x) && VariableKept(w.heap, w'.heap, w.heap[x].forwarding);
  }

  /** Neither releasing, nor leaving a scope, nor making something new touches a variable that
      stays. */
  lemma OthersKeepVariables(w: World, op: Op, i: nat)
    requires Inv(w) && w.detached == {} && Allowed(w, op) && !op.Copying? && !op.Writing? && i < |w.heap|
    ensures |w.heap| <= |Exec(w, op).heap| && VariableKept(w.heap, Exec(w, op).heap, i)
  {
    hide Inv, Copyable, ReleaseBlock, LeaveVariable, BlockReleasable, Newborn, TryRetained, Born, Gone;
    match op
    case Releasing(p) =>
      NoneDetached(w);
      ReleaseBlockKeeps(w, p);
      assert CellShrinks(w.heap, ReleaseBlock(w, p).heap, i);
    case LeavingVariable(x) =>
      LeaveVariableKeeps(w, x);
      assert i != x ==> CellShrinks(w.heap, LeaveVariable(w, x).heap, i);
    case _ => SmallKeepVariables(w, op, i);
  }

  lemma SmallKeepVariables(w: World, op: Op, i: nat)
    requires Allowed(w, op) && (op.TryRetaining? || op.Creating? || op.LeavingBlock?) && i < |w.heap|
    ensures |w.heap| <= |Exec(w, op).heap| && VariableKept(w.heap, Exec(w, op).heap, i)
  {
    hide Copyable, BlockReleasable, Newborn;
  }

  lemma VariableStays(w: World, op: Op, x: nat)
    requires Inv(w) && w.detached == {} && Allowed(w, op) && !op.Copying? && !op.Writing?
    requires Variable(w, x) && Variable(Exec(w, op), x)
    ensures Resolve(Exec(w, op), x) == Resolve(w, x) && Value(Exec(w, op), x) == Value(w, x)
  {
    hide Inv, Exec, Allowed, VariableKept;
    var w' := Exec(w, op);
    OthersKeepVariables(w, op, x);
    forall i | 0 <= i < |w.heap| ensures VariableKept(w.heap, w'.heap, i) {
      OthersKeepVariables(w, op, i);
    }
    KeptVariables(w, w', x);
  }

  /** One operation keeps which variables share a cell, and changes the value of those written. */
  lemma StepVariables(w: World, op: Op, x: nat, y: nat)
    requires Inv(w) && w.detached == {} && Allowed(w, op)
    requires Variable(w, x) && Variable(w, y) && Variable(Exec(w, op), x) && Variable(Exec(w, op), y)
    ensures Resolve(Exec(w, op), x) == Resolve(Exec(w, op), y) <==> Resolve(w, x) == Resolve(w, y)
    ensures Value(Exec(w, op), x) == if WritesTo(w, op, x) then op.v else Value(w, x)
  {
    hide Inv, Copyable, CopyBlock, BlockReleasable, Newborn, Resolve, Value, Variable, Written, ReleaseBlock,
         LeaveVariable, TryRetained, Extends, SameClosure, VariableKept;
    InvCells(w);
    match op
    case Copying(p) =>
      CopyBlockKeeps(w, p);
      VariablesKept(w, CopyBlock(w, p).0, w.rank[p] + 1, x, y);
    case Writing(z, v) =>
      WrittenValue(w, z, v, x);
      WrittenValue(w, z, v, y);
    case _ =>
      VariableStays(w, op, x);
      VariableStays(w, op, y);
  }

  /** A variable that exists before and after an operation of a run is a variable all along. */
  lemma VariableBefore(worlds: seq<World>, ops: seq<Op>, i: nat, j: nat, x: nat)
    requires IsRun(worlds, ops) && i < j < |worlds| && Variable(worlds[i], x) && Variable(worlds[j], x)
    ensures |worlds| == |ops| + 1 && Variable(worlds[j - 1], x)
    ensures Inv(worlds[j - 1]) && worlds[j - 1].detached == {} && Allowed(worlds[j - 1], ops[j - 1])
    ensures worlds[j] == Exec(worlds[j - 1], ops[j - 1])
  {
    hide Inv, Exec, Allowed;
    RunKeeps(worlds, ops, j - 1);
    CellsOverTime(worlds, ops, i, j - 1, x);
    StepCells(worlds[j - 1], ops[j - 1], x);
    ForwardingSettles(worlds[j - 1], x);
  }

  /** Two variables share a cell at one time of a run exactly if they do at any other, as long as
      both exist, whatever is copied, released, written, left or made in between. */
  lemma {:induction false} SharingOverTime(worlds: seq<World>, ops: seq<Op>, i: nat, j: nat, x: nat, y: nat)
    requires IsRun(worlds, ops) && i <= j < |worlds|
    requires Variable(worlds[i], x) && Variable(worlds[j], x) && Variable(worlds[i], y) && Variable(worlds[j], y)
    ensures Resolve(worlds[j], x) == Resolve(worlds[j], y) <==> Resolve(worlds[i], x) == Resolve(worlds[i], y)
  {
    hide IsRun, Inv, Exec, Allowed, Variable, Resolve, Value;
    if i < j {
      VariableBefore(worlds, ops, i, j, x);
      VariableBefore(worlds, ops, i, j, y);
      SharingOverTime(worlds, ops, i, j - 1, x, y);
      StepVariables(worlds[j - 1], ops[j - 1], x, y);
    }
  }

  /** No operation from `i` up to `j` writes the variable that `x` refers to. */
  ghost predicate Unwritten(worlds: seq<World>, ops: seq<Op>, i: nat, j: nat, x: nat) {
    forall m :: i <= m < j && m < |worlds| && m < |ops| && Variable(worlds[m], x) ==> !WritesTo(worlds[m], ops[m], x)
  }

  /** A variable keeps its value as long as nothing is written through a reference to it. */
  lemma {:induction false} ValueOverTime(worlds: seq<World>, ops: seq<Op>, i: nat, j: nat, x: nat)
    requires IsRun(worlds, ops) && i <= j < |worlds| && Variable(worlds[i], x) && Variable(worlds[j], x)
    requires Unwritten(worlds, ops, i, j, x)
    ensures Value(worlds[j], x) == Value(worlds[i], x)
  {
    hide Inv, Exec, Allowed, Variable, Resolve, Value, WritesTo;
    if i < j {
      VariableBefore(worlds, ops, i, j, x);
      ValueOverTime(worlds, ops, i, j - 1, x);
      StepVariables(worlds[j - 1], ops[j - 1], x, x);
    }
  }

  /** What is read of a variable is what was last written through any reference to it. */
  lemma LastWriteIsRead(worlds: seq<World>, ops: seq<Op>, m: nat, j: nat, x: nat)
    requires IsRun(worlds, ops) && m < j < |worlds| && Variable(worlds[m], x) && Variable(worlds[j], x)
    requires WritesTo(worlds[m], ops[m], x) && Unwritten(worlds, ops, m + 1, j, x)
    ensures Value(worlds[j], x) == ops[m].v
  {
    hide Inv, Exec, Allowed, Variable, Resolve, Value;
    VariableAfterWrite(worlds, ops, m, x);
    StepVariables(worlds[m], ops[m], x, x);
    ValueOverTime(worlds, ops, m + 1, j, x);
  }

  lemma VariableAfterWrite(worlds: seq<World>, ops: seq<Op>, m: nat, x: nat)
    requires IsRun(worlds, ops) && m < |ops| && Variable(worlds[m], x) && ops[m].Writing?
    ensures Inv(worlds[m]) && worlds[m].detached == {} && Variable(worlds[m + 1], x)
  {
    hide Inv;
    RunKeeps(worlds, ops, m);
    ForwardingSettles(worlds[m], x);
    assert worlds[m + 1] == Written(worlds[m], Resolve(worlds[m], ops[m].x), ops[m].v);
  }

  /** A slot of a heap block that names the cell of a variable names it as long as both exist. */
  lemma SlotOverTime(worlds: seq<World>, ops: seq<Op>, i: nat, j: nat, q: nat, k: nat, x: nat)
    requires IsRun(worlds, ops) && i <= j < |worlds| && q < |worlds[i].heap|
    requires worlds[i].heap[q].BlockCell? && OnHeap(worlds[i].heap[q]) && k < |worlds[i].heap[q].captures|
    requires Variable(worlds[i], x) && worlds[i].heap[q].captures[k] == Byr(Resolve(worlds[i], x))
    requires OnHeap(worlds[i].heap[Resolve(worlds[i], x)])
    requires !At(worlds[j], q).Freed? && Variable(worlds[j], x)
    ensures var c := At(worlds[j], q);
      c.BlockCell? && k < |c.captures| && c.captures[k] == Byr(Resolve(worlds[j], x))
  {
    hide Inv, Exec, Allowed;
    CellsOverTime(worlds, ops, i, j, q);
    CellsOverTime(worlds, ops, i, j, x);
  }

  /** After a block on the stack has been copied, the slot of the copy for a captured variable names
      the cell of that variable, until the copy is freed or the variable is gone: block and scope
      read and write one cell. */
  lemma CopySharesVariable(worlds: seq<World>, ops: seq<Op>, i: nat, j: nat, k: nat, x: nat)
    requires IsRun(worlds, ops) && i < j < |worlds| && ops[i].Copying?
    requires var c := At(worlds[i], ops[i].arg); OnStack(c) && k < |c.captures| && c.captures[k] == Byr(x)
    requires !At(worlds[j], CopyBlock(worlds[i], ops[i].arg).1).Freed? && Variable(worlds[j], x)
    ensures var c := At(worlds[j], CopyBlock(worlds[i], ops[i].arg).1);
      c.BlockCell? && k < |c.captures| && c.captures[k] == Byr(Resolve(worlds[j], x))
  {
    hide Inv, CopyBlock;
    var w, p := worlds[i], ops[i].arg;
    var q := CopyBlock(w, p).1;
    RunKeeps(worlds, ops, i);
    InvCells(w);
    CopyBlockKeeps(w, p);
    CopiedSlot(w, worlds[i + 1], p, q, k, x);
    RunKeeps(worlds, ops, i + 1);
    ForwardingSettles(worlds[i + 1], x);
    SlotOverTime(worlds, ops, i + 1, j, q, k, x);
  }

  lemma CopiedSlot(w: World, w': World, p: nat, q: nat, k: nat, x: nat)
    requires CellsOk(w) && p < |w.rank| == |w.heap| && Copied(w, w', p, q) && OnStack(w.heap[p])
    requires k < |w.heap[p].captures| && w.heap[p].captures[k] == Byr(x)
    ensures q < |w'.heap| && w'.heap[q].BlockCell? && OnHeap(w'.heap[q]) && k < |w'.heap[q].captures|
    ensures x < |w'.heap| && w'.heap[x].ByrefCell? && w'.heap[q].captures[k] == Byr(w'.heap[x].forwarding)
    ensures Alive(w'.heap, Byr(w'.heap[x].forwarding))
  {
    hide Inv;
    assert CellExtends(w.heap, w'.heap, p);
    InvCells(w');
    NotNull(w, p);
    assert SameCapture(w', p, w'.heap[p].captures[k], w'.heap[q].captures[k]);
  }

  // ---- What clients hold --------------------------------------------------------------------

  /** The operation answers the client with a reference to block `a`. */
  ghost predicate Gains(w: World, op: Op, a: nat) {
    match op
    case Copying(p) => CopyBlock(w, p).1 == a
    case TryRetaining(p) => p == a && OnHeap(At(w, a))
    case _ => false
  }

  /** How often clients were given block `a` by the first `n` operations. */
  ghost function Gained(worlds: seq<World>, ops: seq<Op>, n: nat, a: nat): nat
    requires n <= |ops| && n <= |worlds|
  {
    if n == 0 then 0 else Gained(worlds, ops, n - 1, a) + (if Gains(worlds[n - 1], ops[n - 1], a) then 1 else 0)
  }

  /** How often they released it. */
  ghost function GivenUp(ops: seq<Op>, n: nat, a: nat): nat
    requires n <= |ops|
  {
    if n == 0 then 0 else GivenUp(ops, n - 1, a) + (if ops[n - 1] == Releasing(a) then 1 else 0)
  }

  /** Clients hold references to blocks only. */
  lemma {:induction false} OnlyBlocksHeld(worlds: seq<World>, ops: seq<Op>, n: nat, r: Ref)
    requires IsRun(worlds, ops) && n < |worlds| && r in worlds[n].owed
    ensures r.Blk?
  {
    hide Inv, Exec, Allowed;
    if n > 0 {
      RunKeeps(worlds, ops, n - 1);
      StepOwed(worlds[n - 1], ops[n - 1]);
      OwingBlocks(worlds[n - 1], ops[n - 1], r);
      if r in worlds[n - 1].owed {
        OnlyBlocksHeld(worlds, ops, n - 1, r);
      }
    }
  }

  lemma OwingBlocks(w: World, op: Op, r: Ref)
    requires Allowed(w, op) && r in Owing(w, op)
    ensures r in w.owed || r.Blk?
  {
    hide Copyable, CopyBlock, BlockReleasable, Newborn, Variable;
  }

  /** Nobody was given a block that does not exist yet. */
  lemma {:induction false} NotGivenYet(worlds: seq<World>, ops: seq<Op>, n: nat, a: nat)
    requires IsRun(worlds, ops) && n < |worlds| && a >= |worlds[n].heap|
    ensures Gained(worlds, ops, n, a) == 0 && GivenUp(ops, n, a) == 0
  {
    hide Inv, Exec, Allowed, Gains;
    if n > 0 {
      RunKeeps(worlds, ops, n - 1);
      StepKeeps(worlds[n - 1], ops[n - 1]);
      HeapGrows(worlds[n - 1], ops[n - 1]);
      NotGivenYet(worlds, ops, n - 1, a);
      GivenExists(worlds[n - 1], ops[n - 1], a);
    }
  }

  lemma HeapGrows(w: World, op: Op)
    requires Inv(w) && w.detached == {} && Allowed(w, op)
    ensures |w.heap| <= |Exec(w, op).heap|
  {
    hide Exec, Allowed;
    StepCells(w, op, 0);
  }

  lemma GivenExists(w: World, op: Op, a: nat)
    requires Inv(w) && w.detached == {} && Allowed(w, op) && a >= |Exec(w, op).heap| >= |w.heap|
    ensures !Gains(w, op, a) && op != Releasing(a)
  {
    hide Inv, Copyable, CopyBlock;
    InvCells(w);
    if op.Copying? {
      CopyBlockKeeps(w, op.arg);
      CopyExists(w, CopyBlock(w, op.arg).0, op.arg, CopyBlock(w, op.arg).1);
    }
  }

  lemma CopyExists(w: World, w': World, p: nat, q: nat)
    requires p < |w.rank| && Copied(w, w', p, q)
    ensures q < |w'.heap|
  {
    InvCells(w');
    assert Blk(q) in w'.owed;
    assert Alive(w'.heap, Blk(q));
  }

  /** In every run the client references to a heap block are the copies and retains that were
      answered with it less its releases. */
  lemma {:induction false} ClientReferences(worlds: seq<World>, ops: seq<Op>, n: nat, a: nat)
    requires IsRun(worlds, ops) && n < |worlds| && At(worlds[n], a).BlockCell? && OnHeap(At(worlds[n], a))
    ensures worlds[n].owed[Blk(a)] + GivenUp(ops, n, a) == Gained(worlds, ops, n, a)
  {
    hide Inv, Exec, Allowed, Gains;
    if n > 0 {
      var w, op := worlds[n - 1], ops[n - 1];
      RunKeeps(worlds, ops, n - 1);
      StepOwed(w, op);
      if a < |w.heap| {
        StepCells(w, op, a);
        SameKind(w.heap, worlds[n].heap, a);
        ClientReferences(worlds, ops, n - 1, a);
      } else {
        NotGivenYet(worlds, ops, n - 1, a);
        NotHeldYet(w, a);
      }
      RunKeeps(worlds, ops, n);
      NonzeroAddress(worlds[n], a);
      HeldAfter(w, op, a);
    }
  }

  lemma SameKind(h: seq<Cell>, h': seq<Cell>, a: nat)
    requires CellStep(h, h', a) && OnHeap(h'[a]) && h'[a].BlockCell?
    ensures OnHeap(h[a]) && h[a].BlockCell?
  {
  }

  lemma NotHeldYet(w: World, a: nat)
    requires Inv(w) && a >= |w.heap|
    ensures w.owed[Blk(a)] == 0
  {
    assert !Alive(w.heap, Blk(a));
  }

  lemma HeldAfter(w: World, op: Op, a: nat)
    requires Allowed(w, op) && a > 0 && (a < |w.heap| ==> w.heap[a].BlockCell? && OnHeap(w.heap[a]))
    ensures Owing(w, op)[Blk(a)] + (if op == Releasing(a) then 1 else 0)
         == w.owed[Blk(a)] + (if Gains(w, op, a) then 1 else 0)
  {
    hide Copyable, CopyBlock, Newborn, Variable;
  }

  /** How many slots of the heap blocks among the first `n` cells hold `r`. */
  ghost function Slots(h: seq<Cell>, n: nat, r: Ref): nat
    requires n <= |h|
  {
    if n == 0 then 0
    else
      var c := h[n - 1];
      Slots(h, n - 1, r) + (if c.BlockCell? && c.flags.needsFree then multiset(c.captures)[r] else 0)
  }

  /** One of the first `n` cells is that of a variable in scope which has moved to `f`. */
  ghost predicate ScopeOpen(h: seq<Cell>, n: nat, f: nat) {
    exists i: nat :: i < n && MovedTo(h, i, f)
  }

  lemma {:induction false} OwnersByName(w: World, n: nat, r: Ref)
    requires CellsOk(w) && n <= |w.heap|
    ensures Owners(w.heap, {}, n, r) == Slots(w.heap, n, r) + (if r.Byr? && ScopeOpen(w.heap, n, r.at) then 1 else 0)
  {
    hide CellsOk, Owned, ScopeOpen, Moved;
    if n > 0 {
      OwnersByName(w, n - 1, r);
      OwnedByName(w, n - 1, r);
      if r.Byr? {
        ScopeOneMore(w, n - 1, r);
      }
    } else {
      NoScope(w.heap, r);
    }
  }

  /** The cell is that of a variable which has moved to `f`. */
  predicate MovedTo(h: seq<Cell>, i: nat, f: nat) { Moved(h, i) && h[i].forwarding == f }

  lemma OwnedByName(w: World, i: nat, r: Ref)
    requires CellsOk(w) && i < |w.heap|
    ensures var c := w.heap[i];
      Owned(w.heap, {}, i)[r] == (if c.BlockCell? && c.flags.needsFree then multiset(c.captures)[r] else 0)
                               + (if r.Byr? && MovedTo(w.heap, i, r.at) then 1 else 0)
  {
    if w.heap[i].ByrefCell? && w.heap[i].flags.needsFree {
      SettledCell(w, i);
    }
    hide CellsOk;
  }

  /** Only one variable moves to a cell. */
  lemma ScopeOneMore(w: World, n: nat, r: Ref)
    requires CellsOk(w) && n < |w.heap| && r.Byr?
    ensures ScopeOpen(w.heap, n + 1, r.at) <==> ScopeOpen(w.heap, n, r.at) || MovedTo(w.heap, n, r.at)
    ensures !(ScopeOpen(w.heap, n, r.at) && MovedTo(w.heap, n, r.at))
  {
    hide CellOk;
  }

  lemma NoScope(h: seq<Cell>, r: Ref)
    ensures r.Byr? ==> !ScopeOpen(h, 0, r.at)
  {
  }

  /** By name: in every run an unlatched heap block's count is the references clients were given less
      those they gave up, plus the slots of heap blocks that hold it; the count of a variable's heap
      cell is the slots that hold it plus one while its scope is open; and every object has been
      retained as often as slots hold it. */
  lemma CountsByName(worlds: seq<World>, ops: seq<Op>, n: nat, a: nat, o: nat)
    requires IsRun(worlds, ops) && n < |worlds|
    ensures var h := worlds[n].heap;
      && (Counted(h, a) && h[a].BlockCell? ==>
            h[a].flags.count + GivenUp(ops, n, a) == Gained(worlds, ops, n, a) + Slots(h, |h|, Blk(a)))
      && (Counted(h, a) && h[a].ByrefCell? ==>
            h[a].flags.count == Slots(h, |h|, Byr(a)) + (if ScopeOpen(h, |h|, a) then 1 else 0))
      && worlds[n].retained[o] == Slots(h, |h|, Obj(o))
  {
    hide CellsOk, AllAlive, Exec, Allowed, Owners, Gained, GivenUp, ScopeOpen, Slots;
    var w := worlds[n];
    RunKeeps(worlds, ops, n);
    OwnersByName(w, |w.heap|, Blk(a));
    OwnersByName(w, |w.heap|, Byr(a));
    OwnersByName(w, |w.heap|, Obj(o));
    if Counted(w.heap, a) && w.heap[a].BlockCell? {
      ClientReferences(worlds, ops, n, a);
    }
    if Byr(a) in w.owed {
      OnlyBlocksHeld(worlds, ops, n, Byr(a));
    }
    if Obj(o) in w.owed {
      OnlyBlocksHeld(worlds, ops, n, Obj(o));
    }
  }
}
