/** `Block_copy`, `Block_release` and their helpers as they update memory, without garbage
    collection, and the operations of compiled code around them. */
module BlockRuntime {
  import opened BlockHeap
  import opened BlockMeaning
  import opened BlockOps
  import L = LatchingCount

  /** The memory of a process and the retains the runtime has asked of objects; with, as ghosts, the
      order of creation and the references clients hold or helpers have in transit. */
  class Runtime {
    var heap: seq<Cell>
    var retained: multiset<nat>
    ghost var rank: seq<nat>
    ghost var owed: multiset<Ref>
    ghost var detached: set<nat>

    ghost function W(): World
      reads this
    {
      World(heap, rank, owed, detached, retained)
    }

    ghost predicate Valid()
      reads this
    {
      Inv(W()) && detached == {}
    }

    constructor ()
      ensures Valid() && W() == START
    {
      heap, rank := [Freed], [0];
      owed, detached, retained := multiset{}, {}, multiset{};
      StartInv();
    }

    /** `_Block_byref_assign_copy`: returns what it assigns. */
    method ByrefAssignCopy(arg: nat) returns (dest: nat)
      requires Inv(W()) && arg < |heap| && heap[arg].ByrefCell? && arg !in detached
      modifies this
      ensures (W(), dest) == CopyByref(old(W()), arg)
      ensures ByrefTaken(old(W()), W(), arg, dest)
    {
      hide Inv, ByrefTaken;
      ghost var w := W();
      ForwardingSettles(w, arg);
      CopyByrefKeeps(w, arg);
      var f := heap[arg].forwarding;
      if heap[f].flags.count == 0 {
        // The keep helper assigns the field bit for bit, as does the move when there is no helper.
        var src, copy := heap[arg], |heap|;
        heap := heap[arg := src.(forwarding := copy)]
          + [ByrefCell(src.flags.(count := 2, needsFree := true), copy, src.value)];
        rank := rank + [copy];
        owed := owed + multiset{Byr(copy)};
        assert W() == ByrefCopied(w, arg);
      } else if heap[f].flags.needsFree {
        heap := heap[f := WithFlags(heap[f], Incremented(heap[f].flags))];
        owed := owed + multiset{Byr(f)};
        assert W() == Retained(w, f);
      }
      dest := heap[arg].forwarding;
    }

    /** `_Block_copy_internal`. */
    method CopyInternal(arg: nat) returns (res: nat)
      requires Inv(W()) && arg < |heap| && Copyable(W(), arg)
      modifies this
      ensures (W(), res) == CopyBlock(old(W()), arg)
      ensures Copied(old(W()), W(), arg, res)
      decreases rank[arg], 3
    {
      hide Inv, Copied, Copyable, CopySlots;
      ghost var w := W();
      InvCells(w);
      CopyBlockKeeps(w, arg);
      if arg == 0 {
        owed := owed + multiset{Blk(0)};
        return 0;
      }
      CopyableBlock(w, arg);
      if heap[arg].flags.needsFree {
        heap := heap[arg := WithFlags(heap[arg], Incremented(heap[arg].flags))];
        owed := owed + multiset{Blk(arg)};
        assert W() == Retained(w, arg);
        return arg;
      } else if heap[arg].flags.isGlobal {
        owed := owed + multiset{Blk(arg)};
        return arg;
      }
      res := CopyStackBlock(arg);
    }

    /** Its last case: `malloc`, the bit copy with its new flags, and the copy helper. */
    method CopyStackBlock(arg: nat) returns (result: nat)
      requires Inv(W()) && arg < |heap| && OnStack(heap[arg]) && Copyable(W(), arg)
      modifies this
      ensures (W(), result) == CopyBlock(old(W()), arg)
      decreases rank[arg], 2
    {
      hide Inv, Copyable, Making, FixedUp, CopyBlock, CopySlots, BlockCopied, Attached, CellsOk;
      ghost var w := W();
      InvCells(w);
      MakingStarts(w, arg);
      StackCopyIs(w, arg);
      var src := heap[arg];
      result := |heap|;
      heap := heap + [BlockCell(src.flags.(count := 1, deallocating := false, needsFree := true), src.code,
                                src.captures)];
      rank := rank + [rank[arg]];
      owed := owed + multiset{Blk(result)};
      detached := detached + {result};
      MallocedIs(w, W(), arg);
      CallCopyHelper(result, arg);
      MadeBlock(w, W(), arg);
      detached := detached - {result};
      owed := owed - multiset(heap[result].captures);
    }

    /** `_Block_call_copy_helper`: the compiler's helper assigns every capture that needs it. */
    method CallCopyHelper(result: nat, arg: nat)
      requires Making(W(), result, arg) && FixedUp(W(), W(), result, arg, 0)
      modifies this
      ensures arg < |old(heap)| && old(heap)[arg].BlockCell?
      ensures W() == CopySlots(old(W()), result, Helped(old(heap)[arg]), 0, RankOf(old(W()), arg))
      ensures FixedUp(old(W()), W(), result, arg, |old(heap)[arg].captures|)
      decreases rank[arg], 1
    {
      hide Making, FixedUp, Inv, Filled, Extends, RefOk, CaptureCopyable, SameCapture, CopyRef, CopySlots;
      ghost var w0 := W();
      StackBlock(w0, result, arg);
      if !heap[arg].flags.hasCopyDispose {
        NoSlots(w0, result, rank[arg]);
        return;
      }
      var captures := heap[arg].captures;
      ghost var r := rank[arg];
      for k := 0 to |captures|
        invariant FixedUp(w0, W(), result, arg, k)
        invariant CopySlots(W(), result, captures, k, r) == CopySlots(w0, result, captures, 0, r)
      {
        ghost var w := W();
        NextCapture(w0, w, result, arg, k);
        CopyRefKeeps(w, arg, captures[k]);
        CopySlotsNext(w, result, captures, k, r);
        ObjectAssign(result, k, captures[k], arg);
        SlotCopied(w0, w, CopyRef(w, captures[k], r).0, result, arg, k, CopyRef(w, captures[k], r).1);
      }
      SlotsDone(W(), result, captures, r);
    }

    /** `_Block_object_assign`, for the flags 3, 7 and 8 or 24: a capture of block `p` goes to slot
        `k` of block `dest`. */
    method ObjectAssign(dest: nat, k: nat, captured: Ref, ghost p: nat)
      requires Inv(W()) && p < |heap| && RefOk(heap, rank, p, captured) && CaptureCopyable(W(), p, captured)
      requires dest < |heap| && heap[dest].BlockCell? && k < |heap[dest].captures| && rank[dest] == rank[p]
      modifies this
      ensures var copied := CopyRef(old(W()), captured, old(rank)[p]);
        W() == Filled(copied.0, dest, k, copied.1)
      decreases rank[p], 0
    {
      hide Inv, Extends, CellExtends, SameClosure, Copyable, CopyBlock, CopyByref, Copied, ByrefTaken, Filled;
      ghost var w := W();
      InvCells(w);
      var value := captured;
      match captured {
        case Obj(o) =>
          retained := retained + multiset{o};
          owed := owed + multiset{captured};
          assert W() == RetainObject(w, o);
        case Blk(q) =>
          var b := CopyInternal(q);
          BlockUnderConstruction(w, W(), q, b, dest);
          value := Blk(b);
        case Byr(b) =>
          var f := ByrefAssignCopy(b);
          BlockUntouched(w, W(), b, f, dest);
          value := Byr(f);
      }
      ghost var w1 := W();
      var c := heap[dest];
      heap := heap[dest := BlockCell(c.flags, c.code, c.captures[k := value])];
      FilledIs(w1, W(), dest, k, value);
    }

    /** `_Block_byref_release`. */
    method ByrefRelease(arg: nat)
      requires Inv(W()) && ByrefReleasable(W(), arg)
      modifies this
      ensures W() == ReleaseByref(old(W()), arg)
      ensures Dropped(old(W()), W(), Byr(old(heap)[arg].forwarding))
    {
      hide Inv, Dropped;
      ghost var w := W();
      ReleaseByrefKeeps(w, arg);
      var shared := heap[arg].forwarding;
      if !heap[shared].flags.needsFree {
        return;
      }
      HeldCell(w, shared);
      assert heap[shared].flags.count != 0;
      if LastReference(heap[shared].flags) {
        heap := heap[shared := Freed];
        owed := owed - multiset{Byr(shared)};
        assert W() == ByrefFreed(w, shared);
      } else {
        heap := heap[shared := WithFlags(heap[shared], Decremented(heap[shared].flags))];
        owed := owed - multiset{Byr(shared)};
        assert W() == Released(w, shared);
      }
    }

    /** `_Block_release`: the last reference frees the block, after its captures are released. */
    method Release(arg: nat)
      requires Inv(W()) && NoneBuilding(W()) && BlockReleasable(W(), arg)
      modifies this
      ensures W() == ReleaseBlock(old(W()), arg)
      ensures Dropped(old(W()), W(), Blk(arg))
      ensures OnHeap(old(heap)[arg]) && LastReference(old(heap)[arg].flags) ==> heap[arg].Freed?
      ensures OnHeap(old(heap)[arg]) && !LastReference(old(heap)[arg].flags) ==>
        W() == old(W()).(heap := old(heap)[arg := WithFlags(old(heap)[arg], Decremented(old(heap)[arg].flags))],
                         owed := old(owed) - multiset{Blk(arg)})
      ensures !OnHeap(old(heap)[arg]) ==> W() == Drop(old(W()), Blk(arg))
      decreases rank[arg], 2
    {
      hide Inv, Dropped, NoneBuilding, DisposeSlots, Disposing, DisposeReady;
      ghost var w := W();
      InvCells(w);
      ReleaseBlockKeeps(w, arg);
      if arg == 0 || heap[arg].flags.isGlobal || !heap[arg].flags.needsFree {
        NotOnHeap(w, arg);
        owed := owed - multiset{Blk(arg)};
        return;
      }
      HeldCell(w, arg);
      if LastReference(heap[arg].flags) {
        NotBuilding(w, arg);
        DisposingKeeps(w, arg);
        heap := heap[arg := WithFlags(heap[arg], heap[arg].flags.(count := 0, deallocating := true))];
        owed := owed - multiset{Blk(arg)} + multiset(heap[arg].captures);
        detached := detached + {arg};
        MarkedIs(w, W(), arg);
        CallDisposeHelper(arg);
        DisposalDone(w, W(), arg);
        heap := heap[arg := Freed];
        detached := detached - {arg};
      } else {
        heap := heap[arg := WithFlags(heap[arg], Decremented(heap[arg].flags))];
        owed := owed - multiset{Blk(arg)};
        assert W() == Released(w, arg);
      }
    }

    /** `_Block_tryRetain`: succeeds unless the block is being disposed of. */
    method TryRetain(arg: nat) returns (retainedIt: bool)
      requires Inv(W()) && arg < |heap| && heap[arg].BlockCell?
      modifies this
      ensures (W(), retainedIt) == TryRetained(old(W()), arg)
      ensures Inv(W()) && detached == old(detached) && retained == old(retained)
      ensures retainedIt <==> !old(heap)[arg].flags.deallocating
      ensures owed == if OnHeap(old(heap)[arg]) then old(owed) + multiset{Blk(arg)} else old(owed)
    {
      hide Inv;
      ghost var w := W();
      InvCells(w);
      TryRetainedKeeps(w, arg);
      var f := heap[arg].flags;
      if f.deallocating {
        return false;
      }
      // A latched count stays as it is.
      if f.count != L.LATCHED {
        heap := heap[arg := WithFlags(heap[arg], f.(count := f.count + 1))];
      }
      if f.needsFree {
        owed := owed + multiset{Blk(arg)};
      }
      assert heap == w.heap[arg := WithFlags(w.heap[arg], Incremented(f))];
      return true;
    }

    /** `_Block_call_dispose_helper`: the compiler's helper disposes of every capture. */
    method CallDisposeHelper(arg: nat)
      requires Inv(W()) && NoneBuilding(W()) && DisposeReady(W(), arg)
      modifies this
      ensures arg < |old(heap)| && old(heap)[arg].BlockCell?
      ensures W() == DisposeSlots(old(W()), Helped(old(heap)[arg]), 0, RankOf(old(W()), arg))
      ensures Disposed(old(W()), W(), arg, |old(heap)[arg].captures|)
      decreases rank[arg], 1
    {
      hide Inv, NoneBuilding, Disposed, RefOk, DisposeSlots, DisposeRef;
      ghost var w0 := W();
      DisposeStarts(w0, arg);
      if !heap[arg].flags.hasCopyDispose {
        NoDisposals(w0, rank[arg]);
        return;
      }
      var captures := heap[arg].captures;
      ghost var r := rank[arg];
      for k := 0 to |captures|
        invariant Disposed(w0, W(), arg, k)
        invariant DisposeSlots(W(), captures, k, r) == DisposeSlots(w0, captures, 0, r)
      {
        ghost var w := W();
        NextDisposed(w0, w, arg, k);
        DisposeSlotsNext(w, captures, k, r);
        ObjectDispose(captures[k], arg);
        OneDisposed(w0, w, W(), arg, k);
      }
      DisposalsDone(W(), captures, r);
    }

    /** `_Block_object_dispose`, for the flags 3, 7 (through `_Block_destroy`) and 8 or 24, of a capture
        of block `p`. */
    method ObjectDispose(captured: Ref, ghost p: nat)
      requires Inv(W()) && NoneBuilding(W()) && captured in owed
      requires p < |heap| && RefOk(heap, rank, p, captured)
      modifies this
      ensures p < |old(rank)| && W() == DisposeRef(old(W()), captured, old(rank)[p])
      ensures Dropped(old(W()), W(), captured)
      decreases rank[p], 0
    {
      hide Inv, NoneBuilding, Dropped, ReleaseBlock, ReleaseByref;
      ghost var w := W();
      InvCells(w);
      OwedAlive(w, captured);
      DisposeRefKeeps(w, p, captured);
      match captured {
        case Obj(o) =>
          retained := retained - multiset{o};
          owed := owed - multiset{captured};
          assert W() == ReleaseObject(w, o);
        case Blk(q) =>
          Release(q);
        case Byr(b) =>
          ByrefRelease(b);
      }
    }

    // ---- Compiled code --------------------------------------------------------------------

    /** `Block_copy`: the variables keep their values, and share cells as before. */
    method Copy(arg: nat) returns (res: nat)
      requires Valid() && arg < |heap| && Copyable(W(), arg)
      modifies this
      ensures Valid() && (W(), res) == CopyBlock(old(W()), arg) && Copied(old(W()), W(), arg, res)
      ensures forall x: nat, y: nat :: Variable(old(W()), x) && Variable(old(W()), y) ==>
        && Variable(W(), x) && Variable(W(), y) && Value(W(), x) == Value(old(W()), x)
        && (Resolve(W(), x) == Resolve(W(), y) <==> Resolve(old(W()), x) == Resolve(old(W()), y))
    {
      hide Inv, Copied, CopyBlock, Variable, Resolve, Value;
      ghost var w := W();
      InvCells(w);
      res := CopyInternal(arg);
      CopiedParts(w, W(), arg, res);
      forall x: nat, y: nat | Variable(w, x) && Variable(w, y)
        ensures Variable(W(), x) && Variable(W(), y) && Value(W(), x) == Value(w, x)
        ensures Resolve(W(), x) == Resolve(W(), y) <==> Resolve(w, x) == Resolve(w, y)
      {
        VariablesKept(w, W(), w.rank[arg] + 1, x, y);
      }
    }

    /** A block literal, a global block, or the declaration of a `__block` variable. */
    method Make(c: Cell) returns (at: nat)
      requires Valid() && Newborn(heap, c)
      modifies this
      ensures Valid() && W() == Born(old(W()), c) && at == old(|heap|)
    {
      BornKeeps(W(), c);
      hide Inv;
      at := |heap|;
      heap := heap + [c];
      rank := rank + [at];
    }

    method ReadVariable(x: nat) returns (v: nat)
      requires Valid() && x < |heap| && heap[x].ByrefCell?
      ensures Variable(W(), x) && v == Value(W(), x)
    {
      ForwardingSettles(W(), x);
      hide Inv;
      v := heap[heap[x].forwarding].value;
    }

    /** A write through any reference to a variable is read through every other, and through no
        reference to another variable. */
    method WriteVariable(x: nat, v: nat)
      requires Valid() && x < |heap| && heap[x].ByrefCell?
      modifies this
      ensures Valid() && Variable(old(W()), x) && W() == Written(old(W()), Resolve(old(W()), x), v)
      ensures forall y: nat :: Variable(old(W()), y) ==>
        && Variable(W(), y) && Resolve(W(), y) == Resolve(old(W()), y)
        && Value(W(), y) == if Resolve(old(W()), y) == Resolve(old(W()), x) then v else Value(old(W()), y)
    {
      hide Inv, Variable, Resolve, Value, Written;
      ghost var w := W();
      ForwardingFits(w, x);
      WrittenKeeps(w, heap[x].forwarding, v);
      forall y: nat | Variable(w, y) ensures WrittenAt(w, x, v, y) {
        WrittenValue(w, x, v, y);
      }
      var f := heap[x].forwarding;
      heap := heap[f := heap[f].(value := v)];
      WrittenIs(w, W(), f, v);
    }

    /** Leaving the scope of a `__block` variable. */
    method ExitVariable(x: nat)
      requires Valid() && x < |heap| && heap[x].ByrefCell? && !heap[x].flags.needsFree
      modifies this
      ensures Valid() && W() == LeaveVariable(old(W()), x) && Left(old(W()), W(), x)
    {
      hide Inv, Dropped, Owned, Left, ReleaseByref;
      ghost var w := W();
      LeaveVariableKeeps(w, x);
      ClosingKeeps(w, x);
      ClosingReady(w, x);
      detached := detached + {x};
      owed := owed + Owned(w.heap, w.detached, x);
      assert W() == Closing(w, x);
      ByrefRelease(x);
      ClosedKeeps(w, W(), x);
      heap := heap[x := Freed];
      detached := detached - {x};
      LeftParts(w, W(), x);
    }

    /** Leaving the scope of a block literal: its captures are not released. */
    method ExitBlock(p: nat)
      requires Valid() && p < |heap| && OnStack(heap[p])
      modifies this
      ensures Valid() && W() == Gone(old(W()), p)
    {
      hide Inv;
      ScopeEnds(W(), p);
      heap := heap[p := Freed];
    }
  }
}
