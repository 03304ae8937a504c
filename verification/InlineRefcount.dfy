/** The retain count kept in an instance variable: fetch-and-add, fetch-and-subtract and
    compare-and-swap steps of any number of callers, with traps and resurrection. */
module InlineRefcount {

  /** What the logic block answers; `Bogus` is any value outside the enumeration. */
  datatype Fate = Resurrect | DeallocNow | DeallocLater | Bogus

  /** Where a call is: outside; in the logic block, having retained there or not; with the block's
      answer in hand; with the object marked; in `_tryRetain`, before and after the load. A call
      made inside the logic block counts as another caller. */
  datatype Pc =
    | Idle
    | InLogic(resurrected: bool)
    | Decided(fate: Fate)
    | Marked(fate: Fate)
    | TryLoop
    | TryLoaded(prev: int)

  /** The variable, the callers, how often `dealloc` was started or scheduled, who owns references,
      and whether the process has trapped. */
  datatype State = State(rc: int, pcs: map<nat, Pc>, deallocs: nat, held: multiset<nat>, trapped: bool)

  function PcOf(s: State, t: nat): Pc { if t in s.pcs then s.pcs[t] else Idle }

  function At(s: State, t: nat, pc: Pc): State { s.(pcs := s.pcs[t := pc]) }

  predicate Odd(rc: int) { rc % 2 == 1 }

  datatype Event =
    | Retain(t: nat)
    | Release(t: nat)
    | LogicReturn(t: nat, fate: Fate)
    | MarkCas(t: nat)
    | Finish(t: nat)
    | TryCall(t: nat)
    | TryLoad(t: nat)
    | TryDecide(t: nat)
    | Transfer(t: nat, u: nat)

  predicate Enabled(s: State, e: Event) {
    && !s.trapped
    && match e
       case Retain(t) => PcOf(s, t).Idle? || PcOf(s, t).InLogic?
       case Release(t) => PcOf(s, t).Idle?
       case LogicReturn(t, _) => PcOf(s, t).InLogic?
       case MarkCas(t) => PcOf(s, t).Decided?
       case Finish(t) => PcOf(s, t).Marked?
       case TryCall(t) => PcOf(s, t).Idle?
       case TryLoad(t) => PcOf(s, t).TryLoop?
       case TryDecide(t) => PcOf(s, t).TryLoaded?
       case Transfer(_, _) => true
  }

  function AfterRetain(s: State, t: nat): State {
    var r := s.(rc := s.rc + 2, held := s.held + multiset{t});
    if s.rc < -2 then r.(trapped := true)
    else if PcOf(s, t).InLogic? then At(r, t, InLogic(true)) else r
  }

  function AfterRelease(s: State, t: nat): State {
    var r := s.(rc := s.rc - 2, held := s.held - multiset{t});
    if s.rc > 0 then r
    else if s.rc < 0 then r.(trapped := true)
    else At(r, t, InLogic(false))
  }

  function AfterTry(s: State, t: nat, prev: int): State {
    if Odd(prev) then At(s, t, Idle)
    else if prev == -2 then At(s, t, Idle)
    else if prev < -2 then s.(trapped := true)
    else if s.rc == prev then At(s, t, Idle).(rc := prev + 2, held := s.held + multiset{t})
    else At(s, t, TryLoop)
  }

  function AfterFinish(s: State, t: nat, fate: Fate): State {
    match fate
    case DeallocNow => At(s, t, Idle).(deallocs := s.deallocs + 1)
    case DeallocLater => At(s, t, Idle).(deallocs := s.deallocs + 1)
    case _ => s.(trapped := true)
  }

  function Next(s: State, e: Event): State
    requires Enabled(s, e)
  {
    match e
    case Retain(t) => AfterRetain(s, t)
    case Release(t) => AfterRelease(s, t)
    case LogicReturn(t, fate) => if fate.Resurrect? then At(s, t, Idle) else At(s, t, Decided(fate))
    case MarkCas(t) => if s.rc == -2 then At(s, t, Marked(PcOf(s, t).fate)).(rc := 1) else s.(trapped := true)
    case Finish(t) => AfterFinish(s, t, PcOf(s, t).fate)
    case TryCall(t) => At(s, t, TryLoop)
    case TryLoad(t) => At(s, t, TryLoaded(s.rc))
    case TryDecide(t) => AfterTry(s, t, PcOf(s, t).prev)
    case Transfer(t, u) => if t in s.held then s.(held := s.held - multiset{t} + multiset{u}) else s
  }

  predicate Marks(s: State, e: Event) { Enabled(s, e) && e.MarkCas? && s.rc == -2 }

  predicate TryRetainSucceeds(s: State, e: Event) {
    Enabled(s, e) && e.TryDecide? && var prev := PcOf(s, e.t).prev; !Odd(prev) && prev > -2 && s.rc == prev
  }

  /** `-retainCount`: an arithmetic shift right. */
  function RetainCount(s: State): int { (s.rc + 2) / 2 }

  /** A trap, or an answer. */
  datatype Reply = Trap | Says(yes: bool)

  /** `-_isDeallocating` */
  function IsDeallocating(s: State): Reply {
    if s.rc == -2 then Says(true)
    else if s.rc < -2 then Trap
    else Says(Odd(s.rc))
  }

  /** A new object: one owner, and the variable is zero. */
  ghost predicate Init(s: State) {
    s.rc == 0 && s.pcs == map[] && s.deallocs == 0 && |s.held| == 1 && !s.trapped
  }

  ghost predicate IsRun(states: seq<State>, events: seq<Event>) {
    && |states| == |events| + 1
    && Init(states[0])
    && (forall i :: 0 <= i < |events| ==> Enabled(states[i], events[i]) && states[i + 1] == Next(states[i], events[i]))
  }

  // ---- Every run, whatever the callers do ---------------------------------------------------

  ghost predicate MarkedAt(s: State, t: nat) { PcOf(s, t).Marked? }

  /** Only a marked object is deallocated, and the one who marked it is the one to do it. */
  ghost predicate Inv(s: State) {
    && s.deallocs <= 1
    && (!Odd(s.rc) ==> s.deallocs == 0)
    && (forall t :: MarkedAt(s, t) ==> Odd(s.rc) && s.deallocs == 0)
    && (forall t, u :: MarkedAt(s, t) && MarkedAt(s, u) ==> t == u)
  }

  /** A step moves one caller and leaves the others where they are. */
  lemma OthersStay(s: State, e: Event, u: nat)
    requires Enabled(s, e) && u != e.t
    ensures PcOf(Next(s, e), u) == PcOf(s, u)
    ensures MarkedAt(Next(s, e), u) <==> MarkedAt(s, u)
    ensures Pending(Next(s, e), u) <==> Pending(s, u)
  {
    OthersStayPut(s, e, u);
    hide Next, PcOf, Enabled;
  }

  lemma OthersStayPut(s: State, e: Event, u: nat)
    requires Enabled(s, e) && u != e.t
    ensures PcOf(Next(s, e), u) == PcOf(s, u)
  {
    assert forall s1: State, pc: Pc :: PcOf(At(s1, e.t, pc), u) == PcOf(s1, u);
    hide Odd, PcOf;
  }

  lemma OddSteps(rc: int)
    ensures Odd(rc + 2) <==> Odd(rc)
    ensures Odd(rc - 2) <==> Odd(rc)
    ensures Odd(1) && !Odd(-2) && !Odd(0)
  {
  }

  /** What a step does to the variable, the number of deallocations and the caller that moves. */
  lemma StepEffect(s: State, e: Event)
    requires Enabled(s, e)
    ensures var s' := Next(s, e);
      && (Odd(s'.rc) <==> Odd(s.rc) || Marks(s, e))
      && (Marks(s, e) ==> !Odd(s.rc))
      && (MarkedAt(s', e.t) <==> Marks(s, e) || (MarkedAt(s, e.t) && s'.deallocs == s.deallocs))
      && (s'.deallocs == s.deallocs || (s'.deallocs == s.deallocs + 1 && MarkedAt(s, e.t)))
    ensures TryRetainSucceeds(s, e) ==> !Odd(s.rc)
  {
    hide Odd;
    OddSteps(s.rc);
  }

  lemma NextKeepsInv(s: State, e: Event)
    requires Inv(s) && Enabled(s, e)
    ensures Inv(Next(s, e))
    ensures Odd(Next(s, e).rc) <==> Odd(s.rc) || Marks(s, e)
    ensures Marks(s, e) ==> !Odd(s.rc)
    ensures TryRetainSucceeds(s, e) ==> !Odd(s.rc)
  {
    hide Odd, Next, Marks, TryRetainSucceeds, PcOf, Enabled;
    StepEffect(s, e);
    forall t: nat | t != e.t ensures MarkedAt(Next(s, e), t) <==> MarkedAt(s, t) {
      OthersStay(s, e, t);
    }
  }

  lemma {:induction false} RunInv(states: seq<State>, events: seq<Event>, i: nat)
    requires IsRun(states, events) && i < |states|
    ensures Inv(states[i])
  {
    hide Next;
    if i > 0 {
      hide Inv;
      RunInv(states, events, i - 1);
      NextKeepsInv(states[i - 1], events[i - 1]);
    }
  }

  /** Over every interleaving `dealloc` is started at most once. */
  lemma DeallocStartsOnce(states: seq<State>, events: seq<Event>, i: nat)
    requires IsRun(states, events) && i < |states|
    ensures states[i].deallocs <= 1 && (states[i].deallocs == 1 ==> Odd(states[i].rc))
  {
    RunInv(states, events, i);
  }

  /** Once marked the variable is odd for ever. */
  lemma {:induction false} OddForever(states: seq<State>, events: seq<Event>, i: nat, j: nat)
    requires IsRun(states, events) && i <= j < |states| && Odd(states[i].rc)
    ensures Odd(states[j].rc)
  {
    hide Next, Inv, Odd;
    if i < j {
      OddForever(states, events, i, j - 1);
      RunInv(states, events, j - 1);
      NextKeepsInv(states[j - 1], events[j - 1]);
    }
  }

  /** After the step that marks, no step marks again and no `_tryRetain` succeeds. */
  lemma NothingAfterMark(states: seq<State>, events: seq<Event>, i: nat, j: nat)
    requires IsRun(states, events) && i < j < |events| && Marks(states[i], events[i])
    ensures !Marks(states[j], events[j]) && !TryRetainSucceeds(states[j], events[j])
  {
    hide Next, Inv, Odd, Marks, TryRetainSucceeds;
    RunInv(states, events, i);
    NextKeepsInv(states[i], events[i]);
    OddForever(states, events, i + 1, j);
    RunInv(states, events, j);
    NextKeepsInv(states[j], events[j]);
  }

  // ---- The variable is the history of the calls ---------------------------------------------

  /** Exactly when a step traps. */
  lemma TrapsWhen(s: State, e: Event)
    requires Enabled(s, e)
    ensures Next(s, e).trapped <==> match e
      case Retain(_) => s.rc < -2
      case Release(_) => s.rc < 0
      case MarkCas(_) => s.rc != -2
      case Finish(t) => !PcOf(s, t).fate.DeallocNow? && !PcOf(s, t).fate.DeallocLater?
      case TryDecide(t) => PcOf(s, t).prev < -2 && !Odd(PcOf(s, t).prev)
      case _ => false
  {
  }

  /** A caller of `_tryRetain` is refused by an odd value and by -2, returns when the variable is
      still what it loaded, and else loads again. */
  lemma TryEnds(s: State, e: Event)
    requires e.TryDecide? && Enabled(s, e)
    ensures var prev := PcOf(s, e.t).prev; var s' := Next(s, e);
      !s'.trapped ==>
        && (PcOf(s', e.t).Idle? <==> Odd(prev) || prev == -2 || s.rc == prev)
        && (!PcOf(s', e.t).Idle? ==> PcOf(s', e.t).TryLoop? && s'.rc == s.rc)
  {
  }

  /** The reference an event gives to its caller, and the one it takes from it. */
  ghost function Gained(s: State, e: Event): multiset<nat> {
    if e.Retain? || TryRetainSucceeds(s, e) then multiset{e.t} else multiset{}
  }

  ghost function Dropped(e: Event): multiset<nat> {
    if e.Release? then multiset{e.t} else multiset{}
  }

  /** The references gained and dropped in the first i events, and those passed on: who had them
      and who got them. */
  ghost function AllGained(states: seq<State>, events: seq<Event>, i: nat): multiset<nat>
    requires i <= |events| < |states|
  {
    if i == 0 then multiset{} else AllGained(states, events, i - 1) + Gained(states[i - 1], events[i - 1])
  }

  ghost function AllDropped(events: seq<Event>, i: nat): multiset<nat>
    requires i <= |events|
  {
    if i == 0 then multiset{} else AllDropped(events, i - 1) + Dropped(events[i - 1])
  }

  ghost function Givers(events: seq<Event>, i: nat): multiset<nat>
    requires i <= |events|
  {
    if i == 0 then multiset{}
    else Givers(events, i - 1) + if events[i - 1].Transfer? then multiset{events[i - 1].t} else multiset{}
  }

  ghost function Takers(events: seq<Event>, i: nat): multiset<nat>
    requires i <= |events|
  {
    if i == 0 then multiset{}
    else Takers(events, i - 1) + if events[i - 1].Transfer? then multiset{events[i - 1].u} else multiset{}
  }

  /** The number of steps that mark the object. */
  ghost function MarkSteps(states: seq<State>, events: seq<Event>, i: nat): nat
    requires i <= |events| < |states|
  {
    if i == 0 then 0 else MarkSteps(states, events, i - 1) + if Marks(states[i - 1], events[i - 1]) then 1 else 0
  }

  lemma StepCounts(s: State, e: Event)
    requires Enabled(s, e)
    ensures Next(s, e).rc == s.rc + 2 * |Gained(s, e)| - 2 * |Dropped(e)| + (if Marks(s, e) then 3 else 0)
  {
  }

  /** Whatever the callers do, the variable counts the references gained and dropped, by two, and
      marking adds three. */
  lemma {:induction false} VariableIsHistory(states: seq<State>, events: seq<Event>, i: nat)
    requires IsRun(states, events) && i < |states|
    ensures states[i].rc
      == 2 * (|AllGained(states, events, i)| - |AllDropped(events, i)|) + 3 * MarkSteps(states, events, i)
  {
    hide Next, Marks, Enabled, Gained, Dropped;
    if i > 0 {
      VariableIsHistory(states, events, i - 1);
      StepCounts(states[i - 1], events[i - 1]);
    }
  }

  // ---- Callers that keep to the rules -------------------------------------------------------

  /** Release what you own; retain while you own, or once in the logic block, which then answers
      `Resurrect`; answer `Resurrect` only then. `_tryRetain` is free to all. */
  predicate Disciplined(s: State, e: Event) {
    match e
    case Retain(t) => t in s.held || PcOf(s, t) == InLogic(false)
    case Release(t) => t in s.held
    case LogicReturn(t, fate) => (fate.Resurrect? <==> PcOf(s, t) == InLogic(true)) && !fate.Bogus?
    case Transfer(t, _) => t in s.held
    case _ => true
  }

  ghost predicate DisciplinedRun(states: seq<State>, events: seq<Event>) {
    && IsRun(states, events)
    && (forall i :: 0 <= i < |events| ==> Disciplined(states[i], events[i]))
  }

  /** The caller took the count to its last step and has not yet marked or resurrected. */
  ghost predicate Pending(s: State, t: nat) { PcOf(s, t) == InLogic(false) || PcOf(s, t).Decided? }

  ghost predicate SomePending(s: State) { exists t :: Pending(s, t) }

  ghost predicate SomeMarked(s: State) { exists t :: MarkedAt(s, t) }

  /** Before marking the variable is twice the number of references less two; when there are none
      exactly one caller is on its way to mark or resurrect. After marking it is 1, there are no
      references, and `dealloc` has been started or its caller is about to. */
  ghost predicate CountInv(s: State) {
    && !s.trapped
    && (if Odd(s.rc) then s.rc == 1 && s.held == multiset{} else s.rc == 2 * (|s.held| - 1))
    && (s.rc == -2 ==> SomePending(s))
    && (s.rc == 1 ==> s.deallocs == 1 || SomeMarked(s))
    && (forall t :: Pending(s, t) ==> s.rc == -2)
    && (forall t, u :: Pending(s, t) && Pending(s, u) ==> t == u)
    && (forall t :: PcOf(s, t).Decided? || PcOf(s, t).Marked? ==>
          PcOf(s, t).fate.DeallocNow? || PcOf(s, t).fate.DeallocLater?)
    && (forall t :: PcOf(s, t).TryLoaded? ==> PcOf(s, t).prev >= -2)
  }

  lemma HeldSizes(held: multiset<nat>, t: nat)
    ensures |held + multiset{t}| == |held| + 1
    ensures t in held ==> |held - multiset{t}| == |held| - 1
    ensures |held| == 0 <==> held == multiset{}
    ensures t in held ==> |held| >= 1
  {
    if t in held {
      assert held == (held - multiset{t}) + multiset{t};
    }
  }

  /** A disciplined step keeps the count, does not trap, and leaves the caller that moves in a
      proper place. */
  ghost predicate MoverGood(s: State, e: Event, s': State) {
    && !s'.trapped
    && (if Odd(s'.rc) then s'.rc == 1 && s'.held == multiset{} else s'.rc == 2 * (|s'.held| - 1))
    && (Pending(s', e.t) ==> s'.rc == -2 && (s.rc != -2 || Pending(s, e.t)))
    && (s.rc == -2 && !Pending(s, e.t) ==> s'.rc == -2)
    && (s'.rc == -2 ==> Pending(s', e.t) || (s.rc == -2 && !Pending(s, e.t)))
    && (s'.rc == 1 ==>
          MarkedAt(s', e.t) || s'.deallocs == 1 || (s.rc == 1 && !MarkedAt(s, e.t) && s'.deallocs == s.deallocs))
    && (s.deallocs == 1 ==> s'.rc == 1 ==> s'.deallocs == 1)
    && (PcOf(s', e.t).Decided? || PcOf(s', e.t).Marked? ==>
          PcOf(s', e.t).fate.DeallocNow? || PcOf(s', e.t).fate.DeallocLater?)
    && (PcOf(s', e.t).TryLoaded? ==> PcOf(s', e.t).prev >= -2)
  }

  /** What the invariants say of one caller. */
  ghost predicate MoverBefore(s: State, t: nat) {
    && (if Odd(s.rc) then s.rc == 1 && s.held == multiset{} else s.rc == 2 * (|s.held| - 1))
    && (Pending(s, t) ==> s.rc == -2)
    && (MarkedAt(s, t) ==> Odd(s.rc) && s.deallocs == 0)
    && (!Odd(s.rc) ==> s.deallocs == 0)
    && (PcOf(s, t).Decided? || PcOf(s, t).Marked? ==> PcOf(s, t).fate.DeallocNow? || PcOf(s, t).fate.DeallocLater?)
    && (PcOf(s, t).TryLoaded? ==> PcOf(s, t).prev >= -2)
  }

  lemma BeforeStep(s: State, t: nat)
    requires Inv(s) && CountInv(s)
    ensures MoverBefore(s, t)
  {
    hide Odd, PcOf;
  }

  lemma RetainStep(s: State, e: Event)
    requires e.Retain?
    requires MoverBefore(s, e.t) && Enabled(s, e) && Disciplined(s, e)
    ensures MoverGood(s, e, Next(s, e))
    ensures TryRetainSucceeds(s, e) ==> s.held != multiset{}
  {
    hide Odd;
    OddSteps(s.rc);
    HeldSizes(s.held, e.t);
  }

  lemma ReleaseStep(s: State, e: Event)
    requires e.Release?
    requires MoverBefore(s, e.t) && Enabled(s, e) && Disciplined(s, e)
    ensures MoverGood(s, e, Next(s, e))
    ensures TryRetainSucceeds(s, e) ==> s.held != multiset{}
  {
    hide Odd;
    OddSteps(s.rc);
    HeldSizes(s.held, e.t);
  }

  lemma TransferStep(s: State, e: Event)
    requires e.Transfer?
    requires MoverBefore(s, e.t) && Enabled(s, e) && Disciplined(s, e)
    ensures MoverGood(s, e, Next(s, e))
    ensures TryRetainSucceeds(s, e) ==> s.held != multiset{}
  {
    hide Odd;
    OddSteps(s.rc);
    HeldSizes(s.held, e.t);
    HeldSizes(s.held - multiset{e.t}, e.u);
  }

  lemma TryStartStep(s: State, e: Event)
    requires e.TryCall? || e.TryLoad?
    requires MoverBefore(s, e.t) && Enabled(s, e) && Disciplined(s, e)
    ensures MoverGood(s, e, Next(s, e))
    ensures TryRetainSucceeds(s, e) ==> s.held != multiset{}
  {
    hide Odd;
    OddSteps(s.rc);
  }

  lemma TryDecideStep(s: State, e: Event)
    requires e.TryDecide?
    requires MoverBefore(s, e.t) && Enabled(s, e) && Disciplined(s, e)
    ensures MoverGood(s, e, Next(s, e))
    ensures TryRetainSucceeds(s, e) ==> s.held != multiset{}
  {
    hide Odd;
    OddSteps(s.rc);
    HeldSizes(s.held, e.t);
  }

  lemma LogicReturnStep(s: State, e: Event)
    requires e.LogicReturn?
    requires MoverBefore(s, e.t) && Enabled(s, e) && Disciplined(s, e)
    ensures MoverGood(s, e, Next(s, e))
    ensures TryRetainSucceeds(s, e) ==> s.held != multiset{}
  {
    hide Odd;
    OddSteps(s.rc);
  }

  lemma MarkStep(s: State, e: Event)
    requires e.MarkCas? || e.Finish?
    requires MoverBefore(s, e.t) && Enabled(s, e) && Disciplined(s, e)
    ensures MoverGood(s, e, Next(s, e))
    ensures TryRetainSucceeds(s, e) ==> s.held != multiset{}
  {
    hide Odd;
    OddSteps(s.rc);
    HeldSizes(s.held, e.t);
  }

  lemma DisciplinedStep(s: State, e: Event)
    requires MoverBefore(s, e.t) && Enabled(s, e) && Disciplined(s, e)
    ensures MoverGood(s, e, Next(s, e))
    ensures TryRetainSucceeds(s, e) ==> s.held != multiset{}
  {
    hide *;
    match e
    case Retain(_) => RetainStep(s, e);
    case Release(_) => ReleaseStep(s, e);
    case Transfer(_, _) => TransferStep(s, e);
    case TryCall(_) => TryStartStep(s, e);
    case TryLoad(_) => TryStartStep(s, e);
    case TryDecide(_) => TryDecideStep(s, e);
    case LogicReturn(_, _) => LogicReturnStep(s, e);
    case _ => MarkStep(s, e);
  }

  lemma NextKeepsCount(s: State, e: Event)
    requires Inv(s) && CountInv(s) && Enabled(s, e) && Disciplined(s, e)
    ensures CountInv(Next(s, e))
    ensures TryRetainSucceeds(s, e) ==> s.held != multiset{}
  {
    hide Odd, Next, Enabled, Disciplined, PcOf, Inv, Pending, MarkedAt, TryRetainSucceeds, MoverBefore;
    BeforeStep(s, e.t);
    DisciplinedStep(s, e);
    forall t: nat | t != e.t
      ensures PcOf(Next(s, e), t) == PcOf(s, t)
      ensures Pending(Next(s, e), t) <==> Pending(s, t)
      ensures MarkedAt(Next(s, e), t) <==> MarkedAt(s, t)
    {
      OthersStay(s, e, t);
    }
  }

  lemma InitCount(s: State)
    requires Init(s)
    ensures CountInv(s)
  {
  }

  lemma {:induction false} RunCount(states: seq<State>, events: seq<Event>, i: nat)
    requires DisciplinedRun(states, events) && i < |states|
    ensures CountInv(states[i])
  {
    hide Next, Inv, CountInv, Disciplined, Enabled, Init;
    if i == 0 {
      InitCount(states[0]);
    } else {
      RunCount(states, events, i - 1);
      RunInv(states, events, i - 1);
      NextKeepsCount(states[i - 1], events[i - 1]);
    }
  }

  /** In a disciplined run nobody traps and the variable counts the owned references: until the
      object is marked, twice their number less two, so that `-retainCount` is their number; and
      `-_isDeallocating` says that there are none. */
  lemma CountIsOwners(states: seq<State>, events: seq<Event>, i: nat)
    requires DisciplinedRun(states, events) && i < |states|
    ensures var s := states[i];
      && !s.trapped
      && IsDeallocating(s) == Says(s.held == multiset{})
      && (!Odd(s.rc) ==> s.rc == 2 * (|s.held| - 1) && RetainCount(s) == |s.held|)
      && (Odd(s.rc) ==> s.rc == 1)
  {
    hide Next, Enabled, Disciplined, Init;
    RunCount(states, events, i);
    HeldSizes(states[i].held, 0);
  }

  lemma StepOwners(s: State, e: Event)
    requires Enabled(s, e) && Disciplined(s, e)
    ensures Next(s, e).held + Dropped(e) + (if e.Transfer? then multiset{e.t} else multiset{})
      == s.held + Gained(s, e) + (if e.Transfer? then multiset{e.u} else multiset{})
  {
    hide Odd, Next, Enabled;
    HeldAfter(s, e);
    if (e.Release? || e.Transfer?) && e.t in s.held {
      PutBack(s.held, e.t);
    }
  }

  lemma HeldAfter(s: State, e: Event)
    requires Enabled(s, e)
    ensures Next(s, e).held == match e
      case Release(t) => s.held - multiset{t}
      case Transfer(t, u) => if t in s.held then s.held - multiset{t} + multiset{u} else s.held
      case _ => s.held + Gained(s, e)
  {
    hide Odd;
  }

  lemma PutBack(held: multiset<nat>, t: nat)
    requires t in held
    ensures held - multiset{t} + multiset{t} == held
  {
  }

  /** In a disciplined run every caller owns what it owned at first, with what it has gained and
      been passed, less what it has dropped and passed on. */
  lemma {:induction false} OwnersAreHistory(states: seq<State>, events: seq<Event>, i: nat)
    requires DisciplinedRun(states, events) && i < |states|
    ensures states[i].held + AllDropped(events, i) + Givers(events, i)
      == states[0].held + AllGained(states, events, i) + Takers(events, i)
  {
    hide Next, Disciplined, Enabled, Gained, Dropped, Init;
    if i > 0 {
      OwnersAreHistory(states, events, i - 1);
      var s, e := states[i - 1], events[i - 1];
      StepOwners(s, e);
      MoreOnBothSides(s.held, AllDropped(events, i - 1), Givers(events, i - 1), states[0].held,
                      AllGained(states, events, i - 1), Takers(events, i - 1), states[i].held, Dropped(e),
                      if e.Transfer? then multiset{e.t} else multiset{}, Gained(s, e),
                      if e.Transfer? then multiset{e.u} else multiset{});
    }
  }

  lemma MoreOnBothSides(h: multiset<nat>, d: multiset<nat>, g: multiset<nat>, h0: multiset<nat>, a: multiset<nat>,
                        k: multiset<nat>, h': multiset<nat>, d1: multiset<nat>, g1: multiset<nat>, a1: multiset<nat>,
                        k1: multiset<nat>)
    requires h + d + g == h0 + a + k && h' + d1 + g1 == h + a1 + k1
    ensures h' + (d + d1) + (g + g1) == h0 + (a + a1) + (k + k1)
  {
    forall x: nat ensures (h' + (d + d1) + (g + g1))[x] == (h0 + (a + a1) + (k + k1))[x] {
      assert (h + d + g)[x] == (h0 + a + k)[x] && (h' + d1 + g1)[x] == (h + a1 + k1)[x];
    }
  }

  lemma {:induction false} AsManyTakers(events: seq<Event>, i: nat)
    requires i <= |events|
    ensures |Takers(events, i)| == |Givers(events, i)|
  {
    if i > 0 {
      AsManyTakers(events, i - 1);
    }
  }

  /** So there is the first reference, one for every retain, and one less for every release. */
  lemma OwnersCounted(states: seq<State>, events: seq<Event>, i: nat)
    requires DisciplinedRun(states, events) && i < |states|
    ensures |states[i].held| == 1 + |AllGained(states, events, i)| - |AllDropped(events, i)|
  {
    hide Next, Disciplined, Enabled;
    OwnersAreHistory(states, events, i);
    AsManyTakers(events, i);
    var left := states[i].held + AllDropped(events, i) + Givers(events, i);
    assert |left| == |states[i].held| + |AllDropped(events, i)| + |Givers(events, i)|;
  }

  /** In a disciplined run `_tryRetain` succeeds only while somebody owns a reference. */
  lemma TryRetainNeedsOwner(states: seq<State>, events: seq<Event>, i: nat)
    requires DisciplinedRun(states, events) && i < |events| && TryRetainSucceeds(states[i], events[i])
    ensures states[i].held != multiset{}
  {
    hide Next, Inv, CountInv, Disciplined, Enabled, Init, TryRetainSucceeds;
    RunCount(states, events, i);
    RunInv(states, events, i);
    NextKeepsCount(states[i], events[i]);
  }

  /** When every call has returned, the object has been deallocated, once, exactly if all
      references have been given up. */
  lemma QuietMeansDeallocated(states: seq<State>, events: seq<Event>, i: nat)
    requires DisciplinedRun(states, events) && i < |states|
    requires forall t :: PcOf(states[i], t).Idle?
    ensures states[i].deallocs == (if states[i].held == multiset{} then 1 else 0)
  {
    hide Next, Enabled, Disciplined, Init;
    RunCount(states, events, i);
    RunInv(states, events, i);
    HeldSizes(states[i].held, 0);
  }
}
