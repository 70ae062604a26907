/**
  The synthetic Kalshi connection protocol of inci_tennis_adapters/kalshi_candidate.py,
  written there twice: as a transition function and as a relation that checks it.

  Digests and construction provenance are left out; contents compare by value. Everything here holds for events with
  or without a barrier, whether or not their kind calls for one.
*/
module KalshiProtocol {
  import opened Common

  datatype Physical = Absent | Connecting | Connected | Closing | Uncertain | Closed | Halted

  datatype EventKind =
    | OpenRequested | OpenSucceeded | OpenFailed
    | ReceiveArmed | ReceiveCompleted | ReceiveFailed
    | CloseRequested | CloseProven | CloseTimeout | CloseFailed
    | BarrierRequired | BarrierWitnessed | HaltRequested

  datatype Action = NoAction | ConnectionOpened | ConnectionClosed | RequireBarrier | TransitionRejected | HaltAction

  datatype Reason =
    | TransitionInvalid | GenerationOverflow | OpenFailure | ReceiveFailure | CloseUncertain | HaltRequest

  datatype Barrier = Barrier(generation: nat, nonce: string)

  datatype State = State(physical: Physical, generation: nat, activeReceive: bool, pending: Option<Barrier>)

  datatype Event = Event(kind: EventKind, barrier: Option<Barrier>)

  /** `state`, `action` and `reason` of a transition record. */
  datatype Outcome = Outcome(state: State, action: Action, reason: Option<Reason>)

  predicate StateSemantics(s: State) {
    && s.generation <= MAX_SIGNED_64
    && (s.pending.Some? ==> s.pending.value.generation == s.generation)
    && match s.physical
       case Absent => s.generation == 0 && !s.activeReceive && s.pending.None?
       case Connecting => !s.activeReceive && s.pending.None?
       case Connected => s.generation >= 1 && !(s.activeReceive && s.pending.Some?)
       case Closing => s.generation >= 1 && !s.activeReceive
       case Closed => s.generation >= 1 && !s.activeReceive
       case Uncertain => !s.activeReceive
       case Halted => !s.activeReceive
  }

  const INITIAL_STATE := State(Absent, 0, false, None)

  predicate SameBarrier(left: Option<Barrier>, right: Option<Barrier>) {
    left.Some? && right.Some? && left.value == right.value
  }

  // ---------- The relation ----------

  /** The checking relation: each legal case fixes the outcome, everything else is a rejection. */
  predicate RelationMatches(prior: State, e: Event, o: Outcome) {
    var kind, barrier, pending := e.kind, e.barrier, prior.pending;
    var physical, generation := prior.physical, prior.generation;
    var barrierCurrent := barrier.Some? && barrier.value.generation == generation;
    if physical == Halted then
      Rejects(prior, o)
    else if kind == HaltRequested then
      o == Outcome(State(Halted, generation, false, pending), HaltAction, Some(HaltRequest))
    else if physical in {Absent, Closed} && kind == OpenRequested && !prior.activeReceive && pending.None? then
      o == Outcome(State(Connecting, generation, false, None), NoAction, None)
    else if physical == Connecting && kind == OpenSucceeded then
      if generation == MAX_SIGNED_64 then
        o == Outcome(State(Halted, generation, false, None), HaltAction, Some(GenerationOverflow))
      else
        o == Outcome(State(Connected, generation + 1, false, None), ConnectionOpened, None)
    else if physical == Connecting && kind == OpenFailed then
      o == Outcome(State(Halted, generation, false, None), HaltAction, Some(OpenFailure))
    else if physical == Connected && kind == ReceiveArmed && !prior.activeReceive && pending.None? then
      o == Outcome(State(physical, generation, true, None), NoAction, None)
    else if physical == Connected && kind == ReceiveCompleted && prior.activeReceive && pending.None? then
      o == Outcome(State(physical, generation, false, None), NoAction, None)
    else if physical == Connected && kind == ReceiveFailed && prior.activeReceive && pending.None?
            && barrierCurrent then
      o == Outcome(State(Closing, generation, false, barrier), RequireBarrier, Some(ReceiveFailure))
    else if physical == Connected && kind == BarrierRequired && !prior.activeReceive && pending.None?
            && barrierCurrent then
      o == Outcome(State(physical, generation, false, barrier), RequireBarrier, None)
    else if physical == Connected && kind == CloseRequested && !prior.activeReceive && barrierCurrent
            && (pending.None? || SameBarrier(pending, barrier)) then
      o == Outcome(State(Closing, generation, false, barrier), RequireBarrier, None)
    else if physical in {Connected, Closing, Closed} && kind == BarrierWitnessed && !prior.activeReceive
            && pending.Some? && SameBarrier(pending, barrier) then
      o == Outcome(State(physical, generation, false, None), NoAction, None)
    else if physical == Closing && kind == CloseProven && !prior.activeReceive then
      o == Outcome(State(Closed, generation, false, pending), ConnectionClosed, None)
    else if physical == Closing && kind in {CloseTimeout, CloseFailed} then
      o == Outcome(State(Halted, generation, false, pending), HaltAction, Some(CloseUncertain))
    else
      Rejects(prior, o)
  }

  predicate Rejects(prior: State, o: Outcome) {
    o == Rejected(prior)
  }

  // ---------- The transition function ----------

  function Rejected(s: State): Outcome {
    Outcome(s, TransitionRejected, Some(TransitionInvalid))
  }

  function Transition(s: State, e: Event): Outcome {
    if s.physical == Halted then Rejected(s)
    else if e.kind == HaltRequested then
      Outcome(State(Halted, s.generation, false, s.pending), HaltAction, Some(HaltRequest))
    else if s.physical in {Absent, Closed} && e.kind == OpenRequested && !s.activeReceive && s.pending.None? then
      Outcome(State(Connecting, s.generation, false, None), NoAction, None)
    else if s.physical == Connecting && e.kind == OpenSucceeded then
      if s.generation == MAX_SIGNED_64 then
        Outcome(State(Halted, s.generation, false, None), HaltAction, Some(GenerationOverflow))
      else
        Outcome(State(Connected, s.generation + 1, false, None), ConnectionOpened, None)
    else if s.physical == Connecting && e.kind == OpenFailed then
      Outcome(State(Halted, s.generation, false, None), HaltAction, Some(OpenFailure))
    else
      var connected := if s.physical == Connected then ConnectedTransition(s, e) else None;
      if connected.Some? then connected.value
      else if s.physical in {Connected, Closing, Closed} && e.kind == BarrierWitnessed && !s.activeReceive
              && s.pending.Some? && SameBarrier(s.pending, e.barrier) then
        Outcome(State(s.physical, s.generation, false, None), NoAction, None)
      else if s.physical == Closing && e.kind == CloseProven && !s.activeReceive then
        Outcome(State(Closed, s.generation, false, s.pending), ConnectionClosed, None)
      else if s.physical == Closing && e.kind in {CloseTimeout, CloseFailed} then
        Outcome(State(Halted, s.generation, false, s.pending), HaltAction, Some(CloseUncertain))
      else Rejected(s)
  }

  /** The events a connection handles; None falls through to the later cases. */
  function ConnectedTransition(s: State, e: Event): Option<Outcome> {
    var current := e.barrier.Some? && e.barrier.value.generation == s.generation;
    if e.kind == ReceiveArmed && !s.activeReceive && s.pending.None? then
      Some(Outcome(State(s.physical, s.generation, true, None), NoAction, None))
    else if e.kind == ReceiveCompleted && s.activeReceive && s.pending.None? then
      Some(Outcome(State(s.physical, s.generation, false, None), NoAction, None))
    else if e.kind == ReceiveFailed && s.activeReceive && s.pending.None? && current then
      Some(Outcome(State(Closing, s.generation, false, e.barrier), RequireBarrier, Some(ReceiveFailure)))
    else if e.kind == BarrierRequired && !s.activeReceive && s.pending.None? && current then
      Some(Outcome(State(s.physical, s.generation, false, e.barrier), RequireBarrier, None))
    else if e.kind == CloseRequested && !s.activeReceive && current
            && (s.pending.None? || SameBarrier(s.pending, e.barrier)) then
      Some(Outcome(State(Closing, s.generation, false, e.barrier), RequireBarrier, None))
    else None
  }

  /** The relation accepts the function's outcome and no other, in every state and for every event. */
  lemma RelationIsTransition(s: State, e: Event, o: Outcome)
    ensures RelationMatches(s, e, o) <==> o == Transition(s, e)
  {
  }

  /** Every state the transition builds passes the contract, so building it never raises. */
  lemma TransitionKeepsSemantics(s: State, e: Event)
    requires StateSemantics(s)
    ensures StateSemantics(Transition(s, e).state)
    ensures Transition(s, e).state.physical == Absent ==> Transition(s, e).state == s
    ensures Transition(s, e).state.physical == Uncertain ==> s.physical == Uncertain
  {
  }

  // ---------- What each action takes ----------

  /** A barrier of the current connection is raised: by a failed receive, on demand while idle, or to close. */
  ghost predicate Raises(s: State, e: Event) {
    && s.physical == Connected
    && (exists nonce :: e.barrier == Some(Barrier(s.generation, nonce)))
    && ((e.kind == ReceiveFailed && s.activeReceive && s.pending == None)
        || (e.kind == BarrierRequired && !s.activeReceive && s.pending == None)
        || (e.kind == CloseRequested && !s.activeReceive && s.pending in {None, e.barrier}))
  }

  /** The connection ends for good: on request, on a failed opening, on an unproven close or out of generations. */
  ghost function HaltsFor(s: State, e: Event): Option<Reason> {
    if s.physical == Halted then None
    else if e.kind == HaltRequested then Some(HaltRequest)
    else if s.physical == Connecting && e.kind == OpenFailed then Some(OpenFailure)
    else if s.physical == Connecting && e.kind == OpenSucceeded && s.generation == 9_223_372_036_854_775_807
      then Some(GenerationOverflow)
    else if s.physical == Closing && e.kind in {CloseTimeout, CloseFailed} then Some(CloseUncertain)
    else None
  }

  /** What goes on silently: an opening begins, a receive is armed or completed, a barrier is witnessed. */
  ghost predicate GoesOn(s: State, e: Event, next: State) {
    var idle := !s.activeReceive && s.pending == None;
    || (s.physical in {Absent, Closed} && idle && e.kind == OpenRequested
        && next == State(Connecting, s.generation, false, None))
    || (s.physical == Connected && idle && e.kind == ReceiveArmed
        && next == State(Connected, s.generation, true, None))
    || (s.physical == Connected && s.activeReceive && s.pending == None && e.kind == ReceiveCompleted
        && next == State(Connected, s.generation, false, None))
    || (s.physical in {Connected, Closing, Closed} && !s.activeReceive && s.pending.Some?
        && e == Event(BarrierWitnessed, s.pending) && next == State(s.physical, s.generation, false, None))
  }

  /** Each action comes exactly under its own condition, with its own next state; everything else is rejected. */
  lemma ActionsExactly(s: State, e: Event)
    requires StateSemantics(s)
    ensures var o := Transition(s, e);
      && (o.action == RequireBarrier <==> Raises(s, e))
      && (o.action == RequireBarrier ==>
            && o.state == State(if e.kind == BarrierRequired then Connected else Closing, s.generation, false,
                                e.barrier)
            && o.reason == (if e.kind == ReceiveFailed then Some(ReceiveFailure) else None))
      && (o.action == HaltAction <==> HaltsFor(s, e).Some?)
      && (o.action == HaltAction ==> o == Outcome(State(Halted, s.generation, false, s.pending), HaltAction,
                                                 HaltsFor(s, e)))
      && (o.action == ConnectionOpened <==>
            s.physical == Connecting && e.kind == OpenSucceeded && s.generation < 9_223_372_036_854_775_807)
      && (o.action == ConnectionOpened ==>
            o == Outcome(State(Connected, s.generation + 1, false, None), ConnectionOpened, None))
      && (o.action == ConnectionClosed <==> s.physical == Closing && e.kind == CloseProven)
      && (o.action == ConnectionClosed ==>
            o == Outcome(State(Closed, s.generation, false, s.pending), ConnectionClosed, None))
      && (o.action == NoAction <==> exists next :: GoesOn(s, e, next))
      && (o.action == NoAction ==> GoesOn(s, e, o.state) && o.reason == None)
      && (o.action == TransitionRejected ==> o.state == s && o.reason == Some(TransitionInvalid))
  {
    if e.barrier.Some? && e.barrier.value.generation == s.generation {
      assert e.barrier == Some(Barrier(s.generation, e.barrier.value.nonce));
    }
    if Transition(s, e).action == NoAction { assert GoesOn(s, e, Transition(s, e).state); }
  }

  // ---------- Runs ----------

  function Run(events: seq<Event>): State {
    if events == [] then INITIAL_STATE
    else Transition(Run(events[..|events| - 1]), events[|events| - 1]).state
  }

  /** The outcome of event `i` of a run. */
  function OutcomeAt(events: seq<Event>, i: nat): Outcome
    requires i < |events|
  {
    Transition(Run(events[..i]), events[i])
  }

  function OpenedCount(events: seq<Event>): nat {
    if events == [] then 0
    else
      var n := |events| - 1;
      OpenedCount(events[..n]) + (if OutcomeAt(events, n).action == ConnectionOpened then 1 else 0)
  }

  /**
    In every run from ABSENT the state meets its contract, the generation counts the opened
    connections, a pending barrier carries that generation, and UNCERTAIN is never entered.
  */
  lemma {:induction false} RunInvariant(events: seq<Event>)
    ensures StateSemantics(Run(events))
    ensures Run(events).generation == OpenedCount(events)
    ensures Run(events).pending.Some? ==> Run(events).pending.value.generation == OpenedCount(events)
    ensures Run(events).physical != Uncertain
  {
    if events != [] {
      var n := |events| - 1;
      RunInvariant(events[..n]);
      hide StateSemantics, Transition;
      TransitionKeepsSemantics(Run(events[..n]), events[n]);
      GenerationStep(Run(events[..n]), events[n]);
    }
  }

  /** Only opening a connection moves the generation, by one. */
  lemma GenerationStep(s: State, e: Event)
    requires StateSemantics(s)
    ensures var o := Transition(s, e);
      && o.state.generation == s.generation + (if o.action == ConnectionOpened then 1 else 0)
      && (s.physical != Uncertain ==> o.state.physical != Uncertain)
      && (o.state.pending.Some? && StateSemantics(o.state) ==> o.state.pending.value.generation == o.state.generation)
  {
  }

  /** Event `k` is the accepted witness of barrier `b`. */
  ghost predicate WitnessedAt(events: seq<Event>, k: nat, b: Barrier)
    requires k < |events|
  {
    events[k] == Event(BarrierWitnessed, Some(b)) && OutcomeAt(events, k).action != TransitionRejected
  }

  lemma RunStep(events: seq<Event>, k: nat)
    requires k < |events|
    ensures Run(events[..k + 1]) == OutcomeAt(events, k).state
  {
    assert events[..k + 1][..k] == events[..k];
  }

  /** One step under a pending barrier: only its witness clears it, nothing is opened and no receive is armed. */
  lemma PendingStep(s: State, e: Event, b: Barrier)
    requires StateSemantics(s) && s.pending == Some(b)
    ensures var o := Transition(s, e);
            && (o.state.pending == Some(b) || (e == Event(BarrierWitnessed, Some(b)) && o.action != TransitionRejected))
            && o.action != ConnectionOpened && !o.state.activeReceive
            && o.state.generation == s.generation
  {
  }

  lemma RaisedBarrier(s: State, e: Event)
    requires Transition(s, e).action == RequireBarrier
    ensures e.barrier.Some? && Transition(s, e).state.pending == e.barrier
  {
  }

  lemma {:induction false} PendingUntilWitnessed(events: seq<Event>, i: nat, j: nat, b: Barrier)
    requires i < j <= |events|
    requires OutcomeAt(events, i).action == RequireBarrier && events[i].barrier == Some(b)
    requires forall k :: i < k < j ==> !WitnessedAt(events, k, b)
    ensures Run(events[..j]).pending == Some(b)
  {
    hide Transition, StateSemantics;
    RunStep(events, j - 1);
    var s, e := Run(events[..j - 1]), events[j - 1];
    if i + 1 < j {
      PendingUntilWitnessed(events, i, j - 1, b);
      assert StateSemantics(s) by { RunInvariant(events[..j - 1]); }
      assert !WitnessedAt(events, j - 1, b);
      PendingStep(s, e, b);
    } else {
      RaisedBarrier(s, e);
    }
  }

  /**
    After a BARRIER_REQUIRED action no receive is armed and no connection opened until that same
    identity is witnessed.
  */
  lemma BarrierBlocks(events: seq<Event>, i: nat, j: nat)
    requires i < j < |events|
    requires OutcomeAt(events, i).action == RequireBarrier
    requires OutcomeAt(events, j).action == ConnectionOpened || OutcomeAt(events, j).state.activeReceive
    ensures events[i].barrier.Some?
    ensures exists k :: i < k < j && WitnessedAt(events, k, events[i].barrier.value)
  {
    hide Transition, StateSemantics;
    RaisedBarrier(Run(events[..i]), events[i]);
    var b := events[i].barrier.value;
    if forall k :: i < k < j ==> !WitnessedAt(events, k, b) {
      PendingUntilWitnessed(events, i, j, b);
      RunInvariant(events[..j]);
      PendingStep(Run(events[..j]), events[j], b);
    }
  }

  /** HALTED is absorbing: every later event of the run is rejected. */
  lemma {:induction false} HaltedForever(events: seq<Event>, i: nat, j: nat)
    requires i <= j < |events| && Run(events[..i]).physical == Halted
    ensures OutcomeAt(events, j) == Rejected(Run(events[..i]))
  {
    if i < j {
      HaltedForever(events, i, j - 1);
      RunStep(events, j - 1);
    }
  }
}
