/** The latching reference count in the low half of a block's flags word, under compare-and-swap
    by any number of threads. */
module LatchingCount {
  import opened Words

  /** Bit 0 says deallocating, bits 1 to 15 are the count, the rest are other flags. */
  const HALF: nat := 0x1_0000
  const LATCHED: nat := 0x7fff

  function Low(w: nat): nat { w % HALF }

  function Count(w: nat): nat { Low(w) / 2 }

  predicate Deallocating(w: nat) { Low(w) % 2 == 1 }

  function Flags(w: nat): nat { w / HALF }

  predicate Latched(w: nat) { Count(w) == LATCHED }

  /** `(w & (BLOCK_REFCOUNT_MASK|BLOCK_DEALLOCATING)) == 2` */
  predicate OneLeft(w: nat) { Low(w) == 2 }

  /** The word a decrement writes, and whether its caller is to deallocate. */
  function Decremented(w: nat): (r: (nat, bool))
    requires Count(w) != 0
  {
    if OneLeft(w) then (w - 1, true) else (w - 2, false)
  }

  /** The three counters used with retain and release. */
  datatype Op = Incr | IncrNotDeallocating | DecrShouldDeallocate

  /** Outside, at the head of the loop, or with a value loaded. */
  datatype Pc = Idle | Looping(op: Op) | Loaded(op: Op, old_value: nat)

  /** The flags word, the threads, and how often a caller was told to deallocate. */
  datatype State = State(word: nat, pcs: map<nat, Pc>, deallocs: nat)

  function PcOf(s: State, t: nat): Pc { if t in s.pcs then s.pcs[t] else Idle }

  function At(s: State, t: nat, pc: Pc): State { s.(pcs := s.pcs[t := pc]) }

  /** A thread enters a counter, loads the word, or acts on what it loaded. */
  datatype Event = Call(t: nat, op: Op) | Load(t: nat) | Act(t: nat)

  predicate Enabled(s: State, e: Event) {
    match e
    case Call(t, _) => PcOf(s, t).Idle?
    case Load(t) => PcOf(s, t).Looping?
    case Act(t) => PcOf(s, t).Loaded?
  }

  function Next(s: State, e: Event): State
    requires Enabled(s, e)
  {
    match e
    case Call(t, op) => At(s, t, Looping(op))
    case Load(t) => At(s, t, Loaded(PcOf(s, t).op, s.word))
    case Act(t) =>
      var v := PcOf(s, t).old_value;
      match PcOf(s, t).op
      case Incr =>
        if Latched(v) then At(s, t, Idle)
        else if s.word == v then At(s, t, Idle).(word := v + 2)
        else At(s, t, Looping(Incr))
      case IncrNotDeallocating =>
        if Deallocating(v) then At(s, t, Idle)
        else if Latched(v) then At(s, t, Idle)
        else if s.word == v then At(s, t, Idle).(word := v + 2)
        else At(s, t, Looping(IncrNotDeallocating))
      case DecrShouldDeallocate =>
        if Latched(v) then At(s, t, Idle)
        else if Count(v) == 0 then At(s, t, Idle)
        else if s.word == v then
          At(s, t, Idle).(word := Decremented(v).0, deallocs := s.deallocs + (if Decremented(v).1 then 1 else 0))
        else At(s, t, Looping(DecrShouldDeallocate))
  }

  /** The event ends a decrement that returns true. */
  predicate TellsToDeallocate(s: State, e: Event) {
    && e.Act? && Enabled(s, e)
    && var pc := PcOf(s, e.t);
       pc.op.DecrShouldDeallocate? && !Latched(pc.old_value) && Count(pc.old_value) != 0
       && s.word == pc.old_value && Decremented(pc.old_value).1
  }

  /** The event ends a conditional increment that returns true. */
  predicate TryRetainSucceeds(s: State, e: Event) {
    && e.Act? && Enabled(s, e)
    && var pc := PcOf(s, e.t);
       pc.op.IncrNotDeallocating? && !Deallocating(pc.old_value) && (Latched(pc.old_value) || s.word == pc.old_value)
  }

  // ---- Runs ---------------------------------------------------------------------------------

  /** A live object that nobody is at work on. */
  ghost predicate Init(s: State) {
    && !Deallocating(s.word) && Count(s.word) >= 1
    && s.pcs == map[] && s.deallocs == 0
  }

  ghost predicate IsRun(states: seq<State>, events: seq<Event>) {
    && |states| == |events| + 1
    && Init(states[0])
    && (forall i :: 0 <= i < |events| ==> Enabled(states[i], events[i]) && states[i + 1] == Next(states[i], events[i]))
  }

  /** What every reachable state satisfies: the deallocating bit stands for the one order to
      deallocate; and a latched word that a thread has loaded is still there, marked if the word
      is marked. */
  ghost predicate Inv(s0: State, s: State) {
    && Flags(s.word) == Flags(s0.word)
    && s.deallocs == (if Deallocating(s.word) then 1 else 0)
    && (Count(s.word) == 0 ==> Deallocating(s.word))
    && (forall t :: t in s.pcs && s.pcs[t].Loaded? && Latched(s.pcs[t].old_value) ==>
          Latched(s.word) && (Deallocating(s.word) ==> Deallocating(s.pcs[t].old_value)))
  }

  /** A change of the low half that stays inside it leaves the flags above alone. */
  lemma WithinHalf(w: nat, k: int)
    requires 0 <= Low(w) + k < HALF
    ensures w + k >= 0
    ensures Low(w + k) == Low(w) + k && Flags(w + k) == Flags(w)
  {
    ModUnique(w + k, HALF, w / HALF, w % HALF + k);
  }

  /** Adding 2 to an unlatched word adds 1 to the count and touches nothing else. */
  lemma IncrementWord(w: nat)
    requires !Latched(w)
    ensures Count(w + 2) == Count(w) + 1 && Flags(w + 2) == Flags(w) && Deallocating(w + 2) == Deallocating(w)
  {
    WithinHalf(w, 2);
    hide Low, Flags;
  }

  /** A decrement takes 1 off the count; from 1 it goes to 0 and marks the word. */
  lemma DecrementWord(w: nat)
    requires Count(w) != 0
    ensures Count(Decremented(w).0) == Count(w) - 1 && Flags(Decremented(w).0) == Flags(w)
    ensures Decremented(w).1 <==> Count(w) == 1 && !Deallocating(w)
    ensures Deallocating(Decremented(w).0) <==> Deallocating(w) || Decremented(w).1
  {
    WithinHalf(w, -1);
    WithinHalf(w, -2);
    hide Low, Flags;
  }

  lemma WordFacts(w: nat)
    ensures Latched(w) <==> Count(w) == LATCHED
    ensures !Latched(w) ==>
      Count(w + 2) == Count(w) + 1 && Flags(w + 2) == Flags(w) && Deallocating(w + 2) == Deallocating(w)
    ensures Count(w) != 0 ==>
      && Count(Decremented(w).0) == Count(w) - 1 && Flags(Decremented(w).0) == Flags(w)
      && (Decremented(w).1 <==> Count(w) == 1 && !Deallocating(w))
      && (Deallocating(Decremented(w).0) <==> Deallocating(w) || Decremented(w).1)
  {
    hide Count, Deallocating, Flags, Decremented;
    if !Latched(w) {
      IncrementWord(w);
    }
    if Count(w) != 0 {
      DecrementWord(w);
    }
  }

  /** Every step keeps the invariant. The order to deallocate is given exactly when an unmarked
      count falls to zero, which marks the word; nothing else marks it and nothing unmarks it. */
  lemma NextKeepsInv(s0: State, s: State, e: Event)
    requires Init(s0) && Inv(s0, s) && Enabled(s, e)
    ensures Inv(s0, Next(s, e))
    ensures Latched(s.word) ==> Next(s, e).word == s.word
    ensures TellsToDeallocate(s, e) <==> Count(s.word) > 0 && !Deallocating(s.word) && Count(Next(s, e).word) == 0
    ensures Deallocating(Next(s, e).word) <==> Deallocating(s.word) || TellsToDeallocate(s, e)
    ensures TryRetainSucceeds(s, e) ==> !Deallocating(s.word)
  {
    hide Count, Deallocating, Flags, Latched, Decremented;
    WordFacts(s.word);
    if e.Act? {
      WordFacts(PcOf(s, e.t).old_value);
    }
  }

  lemma {:induction false} RunInv(states: seq<State>, events: seq<Event>, i: nat)
    requires IsRun(states, events) && i < |states|
    ensures Inv(states[0], states[i])
  {
    hide Inv, Next;
    if i == 0 {
      InitInv(states[0]);
    } else {
      RunInv(states, events, i - 1);
      NextKeepsInv(states[0], states[i - 1], events[i - 1]);
    }
  }

  lemma InitInv(s: State)
    requires Init(s)
    ensures Inv(s, s)
  {
  }

  /** One step of a run. */
  lemma StepFacts(states: seq<State>, events: seq<Event>, i: nat)
    requires IsRun(states, events) && i < |events|
    ensures var s, e, s' := states[i], events[i], states[i + 1];
      && Enabled(s, e)
      && (Latched(s.word) ==> s'.word == s.word)
      && (Count(s.word) == 0 ==> Deallocating(s.word))
      && (TellsToDeallocate(s, e) <==> Count(s.word) > 0 && !Deallocating(s.word) && Count(s'.word) == 0)
      && (Deallocating(s'.word) <==> Deallocating(s.word) || TellsToDeallocate(s, e))
      && (TryRetainSucceeds(s, e) ==> !Deallocating(s.word))
  {
    hide Next, Count, Deallocating, Latched, TellsToDeallocate, TryRetainSucceeds;
    RunInv(states, events, i);
    NextKeepsInv(states[0], states[i], events[i]);
  }

  /** A marked word stays marked. */
  lemma {:induction false} DeallocatingForever(states: seq<State>, events: seq<Event>, i: nat, j: nat)
    requires IsRun(states, events) && i <= j < |states| && Deallocating(states[i].word)
    ensures Deallocating(states[j].word)
  {
    hide *;
    if i < j {
      DeallocatingForever(states, events, i, j - 1);
      RunShape(states, events);
      StepFacts(states, events, j - 1);
    }
  }

  /** A latched word never changes again, so the object is leaked rather than freed. */
  lemma {:induction false} LatchedForever(states: seq<State>, events: seq<Event>, i: nat, j: nat)
    requires IsRun(states, events) && i <= j < |states| && Latched(states[i].word)
    ensures states[j].word == states[i].word
  {
    hide *;
    if i < j {
      LatchedForever(states, events, i, j - 1);
      RunShape(states, events);
      StepFacts(states, events, j - 1);
    }
  }

  lemma RunShape(states: seq<State>, events: seq<Event>)
    requires IsRun(states, events)
    ensures |states| == |events| + 1
  {
  }

  /** Nobody is told to deallocate twice, and once somebody is told no conditional retain succeeds. */
  lemma DeallocateOnce(states: seq<State>, events: seq<Event>, i: nat, j: nat)
    requires IsRun(states, events) && i < j < |events| && TellsToDeallocate(states[i], events[i])
    ensures !TellsToDeallocate(states[j], events[j]) && !TryRetainSucceeds(states[j], events[j])
  {
    hide *;
    RunShape(states, events);
    StepFacts(states, events, i);
    DeallocatingForever(states, events, i + 1, j);
    StepFacts(states, events, j);
  }

  ghost predicate PositiveUpTo(states: seq<State>, i: nat)
    requires i < |states|
  {
    forall k :: 0 <= k <= i ==> Count(states[k].word) > 0
  }

  /** As long as the count has never been zero the word is not marked. */
  lemma {:induction false} UnmarkedWhilePositive(states: seq<State>, events: seq<Event>, i: nat)
    requires IsRun(states, events) && i < |states| && PositiveUpTo(states, i)
    ensures !Deallocating(states[i].word)
  {
    hide Count, Deallocating, Next, TellsToDeallocate;
    if i > 0 {
      UnmarkedWhilePositive(states, events, i - 1);
      StepFacts(states, events, i - 1);
    }
  }

  /** The order to deallocate is given exactly by the step in which the count first reaches zero. */
  lemma DeallocateAtFirstZero(states: seq<State>, events: seq<Event>, i: nat)
    requires IsRun(states, events) && i < |events|
    ensures TellsToDeallocate(states[i], events[i]) <==> PositiveUpTo(states, i) && Count(states[i + 1].word) == 0
  {
    hide Count, Deallocating, Next, TellsToDeallocate, TryRetainSucceeds;
    StepFacts(states, events, i);
    if TellsToDeallocate(states[i], events[i]) {
      forall k | 0 <= k <= i ensures Count(states[k].word) > 0 {
        StepFacts(states, events, k);
        if Count(states[k].word) == 0 {
          DeallocatingForever(states, events, k, i);
        }
      }
    }
    if PositiveUpTo(states, i) {
      UnmarkedWhilePositive(states, events, i);
    }
  }

  // ---- The count is the history of the calls ------------------------------------------------

  /** The event ends thread e.t's call of op, which last loaded v. */
  ghost predicate Ends(s: State, e: Event, s': State, op: Op, v: nat) {
    e.Act? && PcOf(s, e.t) == Loaded(op, v) && PcOf(s', e.t).Idle?
  }

  /** The event ends a retain: any latching_incr_int, or a conditional one that was not refused. */
  ghost predicate EndsRetain(s: State, e: Event, s': State) {
    exists v: nat :: Ends(s, e, s', Incr, v) || (Ends(s, e, s', IncrNotDeallocating, v) && !Deallocating(v))
  }

  /** The event ends a release of a count that was not zero. */
  ghost predicate EndsRelease(s: State, e: Event, s': State) {
    exists v: nat :: Ends(s, e, s', DecrShouldDeallocate, v) && Count(v) != 0
  }

  ghost function Retains(states: seq<State>, events: seq<Event>, i: nat): nat
    requires i <= |events| < |states|
  {
    if i == 0 then 0
    else Retains(states, events, i - 1) + if EndsRetain(states[i - 1], events[i - 1], states[i]) then 1 else 0
  }

  ghost function Releases(states: seq<State>, events: seq<Event>, i: nat): nat
    requires i <= |events| < |states|
  {
    if i == 0 then 0
    else Releases(states, events, i - 1) + if EndsRelease(states[i - 1], events[i - 1], states[i]) then 1 else 0
  }

  /** A thread that acts on what it loaded has finished if the word is still that, or if the word
      it loaded tells it to do nothing; else it loads again. */
  lemma ActEnds(s: State, e: Event)
    requires e.Act? && Enabled(s, e)
    ensures var pc := PcOf(s, e.t); var v := pc.old_value; var pc' := PcOf(Next(s, e), e.t);
      && (pc'.Idle? <==> s.word == v || Latched(v) || (pc.op.IncrNotDeallocating? && Deallocating(v))
                         || (pc.op.DecrShouldDeallocate? && Count(v) == 0))
      && (!pc'.Idle? ==> pc' == Looping(pc.op) && Next(s, e).word == s.word)
  {
  }

  lemma CountStep(s0: State, s: State, e: Event)
    requires Init(s0) && Inv(s0, s) && Enabled(s, e) && !Latched(s.word)
    ensures var s' := Next(s, e);
      Count(s'.word)
        == Count(s.word) + (if EndsRetain(s, e, s') then 1 else 0) - (if EndsRelease(s, e, s') then 1 else 0)
  {
    hide Count, Deallocating, Flags, Latched, Decremented;
    WordFacts(s.word);
    if e.Act? {
      ActCounts(s, e);
    }
  }

  lemma ActCounts(s: State, e: Event)
    requires e.Act? && Enabled(s, e)
    ensures var pc := PcOf(s, e.t); var s' := Next(s, e);
      && (EndsRetain(s, e, s') <==>
            (PcOf(s', e.t).Idle? && (pc.op.Incr? || (pc.op.IncrNotDeallocating? && !Deallocating(pc.old_value)))))
      && (EndsRelease(s, e, s') <==>
            (PcOf(s', e.t).Idle? && pc.op.DecrShouldDeallocate? && Count(pc.old_value) != 0))
  {
    hide Count, Deallocating, Next;
    var pc, s' := PcOf(s, e.t), Next(s, e);
    assert Ends(s, e, s', pc.op, pc.old_value) <==> PcOf(s', e.t).Idle?;
  }

  /** Until a word has latched, its count is the initial one plus the retains that have ended less
      the releases that have ended. */
  lemma {:induction false} Conservation(states: seq<State>, events: seq<Event>, i: nat)
    requires IsRun(states, events) && i < |states| && (i == 0 || !Latched(states[i - 1].word))
    ensures Count(states[i].word) == Count(states[0].word) + Retains(states, events, i) - Releases(states, events, i)
  {
    hide Count, Latched, Next, Inv, EndsRetain, EndsRelease, Init;
    if i > 0 {
      if i > 1 && Latched(states[i - 2].word) {
        LatchedForever(states, events, i - 2, i - 1);
      }
      Conservation(states, events, i - 1);
      RunInv(states, events, i - 1);
      CountStep(states[0], states[i - 1], events[i - 1]);
    }
  }

  /** In every reachable state the flags above the count are the initial ones, and at most one
      order to deallocate has been given. */
  lemma FlagsKept(states: seq<State>, events: seq<Event>, i: nat)
    requires IsRun(states, events) && i < |states|
    ensures Flags(states[i].word) == Flags(states[0].word) && states[i].deallocs <= 1
  {
    RunInv(states, events, i);
  }
}
