/**
 The bounded set of upstream slots. Any number of requests run `process` at once; each that is
 not answered locally takes a slot without waiting and gives it back on every way out.
 */
module UpstreamSlots {

  type Id = nat

  datatype Pc = PreRouting | WantSlot | TryResolve | DefaultResolve | Release | PostRouting | Deferred | Finished

  /** `held` is the variable the deferred function tests; `deferred` says that function has been
      registered. `taken` and `returned` count this call's channel operations. */
  datatype Call = Call(pc: Pc, held: bool, deferred: bool, taken: nat, returned: nat)

  /** `occupied` is the number of elements in the buffered channel of capacity `limit`. */
  datatype State = State(calls: map<Id, Call>, occupied: int, limit: nat)

  datatype Resolution = Error | Resolved | NotResolved

  datatype Step =
    | Arrive(id: Id)
    | PreRouted(id: Id, resolved: bool)
    | Acquire(id: Id)
    | TriedResolve(id: Id, outcome: Resolution)
    | DefaultResolved(id: Id, ok: bool)
    | ExplicitRelease(id: Id)
    | PostRouted(id: Id)
    | RunDeferred(id: Id)

  const New: Call := Call(PreRouting, false, false, 0, 0)

  predicate Enabled(s: State, step: Step) {
    if step.Arrive? then step.id !in s.calls
    else
      && step.id in s.calls
      && var pc := s.calls[step.id].pc;
         match step
         case PreRouted(_, _) => pc == PreRouting
         case Acquire(_) => pc == WantSlot
         case TriedResolve(_, _) => pc == TryResolve
         case DefaultResolved(_, _) => pc == DefaultResolve
         case ExplicitRelease(_) => pc == Release
         case PostRouted(_) => pc == PostRouting
         case RunDeferred(_) => pc == Deferred
  }

  /** Leaving `process`: the deferred function runs if it has been registered. */
  function Leave(c: Call): Call {
    c.(pc := if c.deferred then Deferred else Finished)
  }

  /** What a step does to its call; `room` says whether the channel has space. */
  function CallAfter(c: Call, step: Step, room: bool): Call {
    match step
    case Arrive(_) => New
    case PreRouted(_, resolved) => c.(pc := if resolved then PostRouting else WantSlot)
    case Acquire(_) =>
      if room then c.(pc := TryResolve, held := true, deferred := true, taken := c.taken + 1) else Leave(c)
    case TriedResolve(_, outcome) =>
      (match outcome
       case Error => Leave(c)
       case Resolved => c.(pc := Release)
       case NotResolved => c.(pc := DefaultResolve))
    case DefaultResolved(_, ok) => if ok then c.(pc := Release) else Leave(c)
    case ExplicitRelease(_) => c.(pc := PostRouting, held := false, returned := c.returned + 1)
    case PostRouted(_) => Leave(c)
    case RunDeferred(_) =>
      if c.held then c.(pc := Finished, held := false, returned := c.returned + 1) else c.(pc := Finished)
  }

  /** ... and to the channel: a send, a receive, or nothing. */
  function ChannelAfter(occupied: int, c: Call, step: Step, room: bool): int {
    match step
    case Acquire(_) => if room then occupied + 1 else occupied
    case ExplicitRelease(_) => occupied - 1
    case RunDeferred(_) => if c.held then occupied - 1 else occupied
    case _ => occupied
  }

  function Next(s: State, step: Step): State
    requires Enabled(s, step)
  {
    var c := if step.id in s.calls then s.calls[step.id] else New;
    var room := s.occupied < s.limit;
    State(s.calls[step.id := CallAfter(c, step, room)], ChannelAfter(s.occupied, c, step, room), s.limit)
  }

  /** Receiving from the channel, which blocks when it is empty. */
  predicate Receives(s: State, step: Step)
    requires Enabled(s, step)
  {
    step.ExplicitRelease? || (step.RunDeferred? && s.calls[step.id].held)
  }

  ghost predicate Run(s: State, steps: seq<Step>)
    decreases |steps|
  {
    steps == [] || (Enabled(s, steps[0]) && Run(Next(s, steps[0]), steps[1..]))
  }

  ghost function Final(s: State, steps: seq<Step>): State
    requires Run(s, steps)
    decreases |steps|
  {
    if steps == [] then s else Final(Next(s, steps[0]), steps[1..])
  }

  // ---- the invariant ------------------------------------------------------------------------

  predicate BetweenAcquireAndRelease(c: Call) {
    c.taken != c.returned
  }

  function Holders(calls: map<Id, Call>): set<Id> {
    set id | id in calls && BetweenAcquireAndRelease(calls[id])
  }

  ghost predicate WellFormed(c: Call) {
    && (c.held <==> c.taken == 1 && c.returned == 0)
    && (c.held || (c.taken == c.returned <= 1))
    && (c.deferred <==> c.taken == 1)
    && (match c.pc
        case PreRouting => c == New
        case WantSlot => c == New.(pc := WantSlot)
        case TryResolve => c.held
        case DefaultResolve => c.held
        case Release => c.held
        case PostRouting => !c.held
        case Deferred => c.deferred
        case Finished => !c.held)
  }

  ghost predicate Inv(s: State) {
    && (forall id :: id in s.calls ==> WellFormed(s.calls[id]))
    && s.occupied == |Holders(s.calls)| && s.occupied <= s.limit
  }

  lemma HoldersUpdate(calls: map<Id, Call>, id: Id, c: Call)
    ensures Holders(calls[id := c]) == (if BetweenAcquireAndRelease(c) then Holders(calls) + {id} else Holders(calls) - {id})
    ensures |Holders(calls[id := c])| - |Holders(calls)|
         == (if BetweenAcquireAndRelease(c) then 1 else 0)
          - (if id in calls && BetweenAcquireAndRelease(calls[id]) then 1 else 0)
  {
    assert id in Holders(calls) <==> id in calls && BetweenAcquireAndRelease(calls[id]);
  }

  lemma CallKept(s: State, step: Step)
    requires Inv(s) && Enabled(s, step)
    ensures var c := if step.id in s.calls then s.calls[step.id] else New;
            var room := s.occupied < s.limit;
            var c' := CallAfter(c, step, room);
            && WellFormed(c')
            && ChannelAfter(s.occupied, c, step, room) - s.occupied
               == (if BetweenAcquireAndRelease(c') then 1 else 0) - (if BetweenAcquireAndRelease(c) then 1 else 0)
            && (Receives(s, step) ==> BetweenAcquireAndRelease(c) && step.id in s.calls)
  {
    hide Holders;
  }

  lemma InvKept(s: State, step: Step)
    requires Inv(s) && Enabled(s, step)
    ensures Inv(Next(s, step))
    ensures Receives(s, step) ==> 0 < s.occupied
  {
    CallKept(s, step);
    OccupancyKept(s, step);
    SomebodyHolds(s, step);
    hide WellFormed, Enabled, Receives, CallAfter, ChannelAfter, Holders, BetweenAcquireAndRelease;
  }

  lemma OccupancyKept(s: State, step: Step)
    requires Inv(s) && Enabled(s, step)
    ensures Next(s, step).occupied == |Holders(Next(s, step).calls)| && Next(s, step).occupied <= s.limit
  {
    CallKept(s, step);
    var c := if step.id in s.calls then s.calls[step.id] else New;
    hide WellFormed, Enabled, Receives, CallAfter;
    HoldersUpdate(s.calls, step.id, CallAfter(c, step, s.occupied < s.limit));
    hide Holders, BetweenAcquireAndRelease;
    assert ChannelAfter(s.occupied, c, step, s.occupied < s.limit) <= s.limit;
  }

  lemma SomebodyHolds(s: State, step: Step)
    requires Inv(s) && Enabled(s, step)
    ensures Receives(s, step) ==> 0 < s.occupied
  {
    CallKept(s, step);
    hide WellFormed, Enabled, Receives, CallAfter, ChannelAfter, BetweenAcquireAndRelease;
    assert Receives(s, step) ==> step.id in Holders(s.calls);
  }

  /** For every interleaving and every way out: the occupied slots are exactly the calls between
      acquire and release, never more than the limit; releasing never waits; and a call that has
      finished has returned every slot it took, which is at most one. */
  lemma {:induction false} SlotsAreConserved(s: State, steps: seq<Step>)
    requires s.calls == map[] && s.occupied == 0 && Run(s, steps)
    ensures var f := Final(s, steps);
            && f.occupied == |Holders(f.calls)| && f.occupied <= f.limit
            && (forall id :: id in f.calls && f.calls[id].pc.Finished? ==> f.calls[id].taken == f.calls[id].returned <= 1)
            && (forall step :: Enabled(f, step) && Receives(f, step) ==> 0 < f.occupied)
  {
    InvThroughout(s, steps);
    var f := Final(s, steps);
    forall step | Enabled(f, step) && Receives(f, step) ensures 0 < f.occupied {
      InvKept(f, step);
    }
  }

  lemma {:induction false} InvThroughout(s: State, steps: seq<Step>)
    requires Inv(s) && Run(s, steps)
    ensures Inv(Final(s, steps)) && Final(s, steps).limit == s.limit
    decreases |steps|
  {
    if steps != [] {
      InvKept(s, steps[0]);
      assert Next(s, steps[0]).limit == s.limit;
      hide Inv, Next, Enabled;
      InvThroughout(Next(s, steps[0]), steps[1..]);
    }
  }

  /** When every call has finished, however it ended, all slots are free again. */
  lemma QuietMeansFree(s: State, steps: seq<Step>)
    requires s.calls == map[] && s.occupied == 0 && Run(s, steps)
    requires forall id :: id in Final(s, steps).calls ==> Final(s, steps).calls[id].pc.Finished?
    ensures Final(s, steps).occupied == 0
  {
    InvThroughout(s, steps);
    assert Holders(Final(s, steps).calls) == {};
  }

  // ---- the ways out -------------------------------------------------------------------------

  /** The steps on which `process` returns an error. */
  predicate Fails(s: State, step: Step) {
    || (step.Acquire? && s.occupied >= s.limit)
    || (step.TriedResolve? && step.outcome.Error?)
    || (step.DefaultResolved? && !step.ok)
  }

  /** A call that fails goes straight to its exit, past the post-routing middlewares: without a slot
      it is over at once, and otherwise the deferred function gives the slot back. */
  lemma ErrorsLeaveAtOnce(s: State, step: Step)
    requires Inv(s) && Enabled(s, step) && Fails(s, step)
    ensures var s' := Next(s, step); var id := step.id;
            && s'.occupied == s.occupied
            && if step.Acquire? then s'.calls[id].pc.Finished? && s'.calls[id].taken == 0
               else s'.calls[id].pc.Deferred? && s'.calls[id].held && Enabled(s', RunDeferred(id))
                    && var s'' := Next(s', RunDeferred(id));
                       s''.calls[id].pc.Finished? && s''.occupied == s.occupied - 1
  {
  }

  /** A call that gets its answer outside gives its slot back before post-routing, and the deferred
      function then has nothing left to give; one answered before routing never takes a slot. */
  lemma AnswersLeaveThroughPostRouting(s: State, id: Id)
    requires Inv(s)
    ensures Enabled(s, ExplicitRelease(id)) ==>
              var s1 := Next(s, ExplicitRelease(id));
              && s1.occupied == s.occupied - 1 && Enabled(s1, PostRouted(id))
              && var s2 := Next(s1, PostRouted(id));
                 && s2.occupied == s1.occupied && Enabled(s2, RunDeferred(id))
                 && Next(s2, RunDeferred(id)).occupied == s1.occupied && Next(s2, RunDeferred(id)).calls[id].pc.Finished?
    ensures Enabled(s, PreRouted(id, true)) ==>
              var s1 := Next(s, PreRouted(id, true));
              && Enabled(s1, PostRouted(id))
              && var s2 := Next(s1, PostRouted(id));
                 s2.calls[id].pc.Finished? && s2.calls[id].taken == 0 && s2.occupied == s.occupied
    ensures Enabled(s, TriedResolve(id, Resolved)) ==> Enabled(Next(s, TriedResolve(id, Resolved)), ExplicitRelease(id))
    ensures Enabled(s, DefaultResolved(id, true)) ==> Enabled(Next(s, DefaultResolved(id, true)), ExplicitRelease(id))
  {
    hide Holders;
  }
}
