/**
 * The attempts of a call (crates/call/src/helpers/attempt.rs) and the engine's
 * writers of them (crates/b2bua-core/src/attempts.rs): opening, refusing,
 * settling at the turn's close, and retiring the timers of what ended.
 */
module Attempts {
  import opened Wrappers
  import opened Timers
  import opened Legs
  import opened CallModel

  // ---- How an open attempt is decided -----------------------------------

  predicate DialledLegEnded(leg: Leg) {
    leg.State() == LegTerminated && !leg.Cancelling() && !leg.ByeSent()
  }

  /** Some leg the attempt dialled has not reached `LegTerminated`. */
  predicate Rings(legs: seq<Leg>, a: Attempt) {
    exists i :: 0 <= i < |a.legs| && FindLeg(legs, a.legs[i]).Some? && FindLeg(legs, a.legs[i]).value.State() != LegTerminated
  }

  predicate AllLegsEnded(legs: seq<Leg>, a: Attempt) {
    a.legs != [] && forall i :: 0 <= i < |a.legs| ==> FindLeg(legs, a.legs[i]).Some? ==> DialledLegEnded(FindLeg(legs, a.legs[i]).value)
  }

  predicate AnyAnswered(legs: seq<Leg>, a: Attempt) {
    exists i :: 0 <= i < |a.legs| && FindLeg(legs, a.legs[i]).Some? && Bridged(FindLeg(legs, a.legs[i]).value)
  }

  predicate Bridged(leg: Leg) {
    leg.InviteFinal().Some? && 200 <= leg.InviteFinal().value < 300
  }

  /** When open attempts are decided: as another opens, or as the turn closes. */
  datatype Moment = AsAnotherOpens | AsTheTurnCloses(goingAway: bool)

  function Decide(m: Moment, legs: seq<Leg>, a: Attempt): Option<AttemptOutcome> {
    if !a.IsOpen() then None
    else
      match m
      case AsAnotherOpens =>
        if Rings(legs, a) then None else if AllLegsEnded(legs, a) then Some(Failed) else Some(AttemptOutcome.Superseded)
      case AsTheTurnCloses(goingAway) =>
        if AnyAnswered(legs, a) then Some(Answered)
        else if goingAway then Some(CallEnded)
        else if AllLegsEnded(legs, a) then Some(Failed)
        else None
  }

  function Decided(m: Moment, legs: seq<Leg>, a: Attempt): Attempt {
    if Decide(m, legs, a).Some? then a.(outcome := Decide(m, legs, a)) else a
  }

  function DecideAll(m: Moment, legs: seq<Leg>, attempts: seq<Attempt>): (r: seq<Attempt>)
    ensures |r| == |attempts| && forall i :: 0 <= i < |attempts| ==> r[i] == Decided(m, legs, attempts[i])
  {
    seq(|attempts|, i requires 0 <= i < |attempts| => Decided(m, legs, attempts[i]))
  }

  function EndedIds(m: Moment, legs: seq<Leg>, attempts: seq<Attempt>): seq<nat> {
    if attempts == [] then []
    else
      var front, last := EndedIds(m, legs, attempts[..|attempts| - 1]), attempts[|attempts| - 1];
      if Decide(m, legs, last).Some? then front + [last.id] else front
  }

  function RetireAttempts(l: Ledger, ids: seq<nat>): Ledger {
    if ids == [] then l else Retire(RetireAttempts(l, ids[..|ids| - 1]), OfAttempt(ids[|ids| - 1]))
  }

  /** One cancel per timer retired, attempt by attempt. */
  function CancelsOf(l: Ledger, ids: seq<nat>): seq<DriverCommand> {
    if ids == [] then []
    else
      var front := ids[..|ids| - 1];
      CancelsOf(l, front) + Cancels(Taken(RetireAttempts(l, front).entries, OfAttempt(ids[|ids| - 1])))
  }

  // ---- The writes as values ---------------------------------------------

  /** A call's attempts and ledger, with what the turn hands the driver and the attempts it opened. */
  datatype AttemptsState = AttemptsState(attempts: seq<Attempt>, ledger: Ledger, commands: seq<DriverCommand>, begun: seq<nat>)

  function DecideAndRetire(m: Moment, legs: seq<Leg>, s: AttemptsState): AttemptsState {
    var ended := EndedIds(m, legs, s.attempts);
    AttemptsState(DecideAll(m, legs, s.attempts), RetireAttempts(s.ledger, ended), s.commands + CancelsOf(s.ledger, ended), s.begun)
  }

  function Opened(s: AttemptsState, legs: seq<Leg>, cause: AttemptCause, noAnswer: Option<nat>): AttemptsState {
    var settled := DecideAndRetire(AsAnotherOpens, legs, s);
    settled.(attempts := settled.attempts + [Attempt(|s.attempts|, cause, [], noAnswer, None)], begun := s.begun + [|s.attempts|])
  }

  /** The state with an attempt appended whose outcome is `Refused` from the start. */
  function Refusing(s: AttemptsState, legs: seq<Leg>, cause: AttemptCause, noAnswer: Option<nat>): AttemptsState {
    var settled := DecideAndRetire(AsAnotherOpens, legs, s);
    settled.(attempts := settled.attempts + [Attempt(|s.attempts|, cause, [], noAnswer, Some(Refused))], begun := s.begun + [|s.attempts|])
  }

  function RefusingAll(s: AttemptsState, legs: seq<Leg>, cause: AttemptCause, refused: seq<Option<nat>>): AttemptsState {
    if refused == [] then s
    else Refusing(RefusingAll(s, legs, cause, refused[..|refused| - 1]), legs, cause, refused[|refused| - 1])
  }

  /** The cause a fold's refused routes are recorded under. */
  function FoldCause(topic: Topic): Option<AttemptCause> {
    match topic
    case FailureTopic => Some(Failover)
    case ReleaseTopic => Some(Reroute)
    case _ => None
  }

  function Folded(s: AttemptsState, legs: seq<Leg>, state: CallState, topic: Topic, refused: seq<Option<nat>>): AttemptsState {
    if state != Active || FoldCause(topic).None? then s else RefusingAll(s, legs, FoldCause(topic).value, refused)
  }

  // ---- The writers ------------------------------------------------------

  ghost function StateOf(call: Call, fx: HandlerEffects): AttemptsState
    reads call, fx
  {
    AttemptsState(call.attempts, call.TimerLedger(), fx.critical, fx.openedAttempts)
  }

  /** Drop what attempt `id` has in the ledger and cancel each of it. */
  method RetireAttempt(call: Call, fx: HandlerEffects, id: nat)
    modifies call`timers, fx`critical
    ensures call.TimerLedger() == Retire(old(call.TimerLedger()), OfAttempt(id))
    ensures fx.critical == old(fx.critical) + Cancels(Taken(old(call.timers), OfAttempt(id)))
  {
    var gone := call.RetireTimers(OfAttempt(id));
    for i := 0 to |gone|
      invariant fx.critical == old(fx.critical) + Cancels(gone[..i])
      invariant call.TimerLedger() == Retire(old(call.TimerLedger()), OfAttempt(id))
    {
      assert Cancels(gone[..i + 1]) == Cancels(gone[..i]) + [CancelTimer(gone[i].key)];
      fx.critical := fx.critical + [CancelTimer(gone[i].key)];
    }
    assert gone[..|gone|] == gone;
  }

  /** Decide the open attempts: each as it then stands, and the ones that ended. */
  method DecideOpen(m: Moment, legs: seq<Leg>, attempts: seq<Attempt>) returns (settled: seq<Attempt>, ended: seq<nat>)
    ensures settled == DecideAll(m, legs, attempts) && ended == EndedIds(m, legs, attempts)
  {
    settled, ended := [], [];
    for i := 0 to |attempts|
      invariant ended == EndedIds(m, legs, attempts[..i]) && settled == DecideAll(m, legs, attempts[..i])
    {
      assert attempts[..i + 1][..i] == attempts[..i];
      settled := settled + [Decided(m, legs, attempts[i])];
      if Decide(m, legs, attempts[i]).Some? {
        ended := ended + [attempts[i].id];
      }
    }
    assert attempts[..|attempts|] == attempts;
  }

  method RetireEach(call: Call, fx: HandlerEffects, ids: seq<nat>)
    modifies call`timers, fx`critical
    ensures call.TimerLedger() == RetireAttempts(old(call.TimerLedger()), ids)
    ensures fx.critical == old(fx.critical) + CancelsOf(old(call.TimerLedger()), ids)
  {
    for i := 0 to |ids|
      invariant call.TimerLedger() == RetireAttempts(old(call.TimerLedger()), ids[..i])
      invariant fx.critical == old(fx.critical) + CancelsOf(old(call.TimerLedger()), ids[..i])
    {
      assert ids[..i + 1][..i] == ids[..i];
      RetireAttempt(call, fx, ids[i]);
    }
    assert ids[..|ids|] == ids;
  }

  /** Give the open attempts the outcomes of moment `m`, and drop the timers of those that ended. */
  method SettleOpen(call: Call, fx: HandlerEffects, m: Moment)
    modifies call`attempts, call`timers, fx`critical
    ensures StateOf(call, fx) == DecideAndRetire(m, call.bLegs, old(StateOf(call, fx)))
  {
    var settled, ended := DecideOpen(m, call.bLegs, call.attempts);
    call.attempts := settled;
    RetireEach(call, fx, ended);
  }

  /** Settle the earlier attempts as another opens, then append a new open one. */
  method Open(call: Call, fx: HandlerEffects, cause: AttemptCause, noAnswer: Option<nat>) returns (id: nat)
    modifies call`attempts, call`timers, fx`critical, fx`openedAttempts
    ensures StateOf(call, fx) == Opened(old(StateOf(call, fx)), call.bLegs, cause, noAnswer)
    ensures id == |old(call.attempts)|
  {
    id := |call.attempts|;
    SettleOpen(call, fx, AsAnotherOpens);
    call.attempts := call.attempts + [Attempt(id, cause, [], noAnswer, None)];
    fx.openedAttempts := fx.openedAttempts + [id];
  }

  /** Record a route admission refused. */
  method Refuse(call: Call, fx: HandlerEffects, cause: AttemptCause, noAnswer: Option<nat>) returns (id: nat)
    requires Numbered(call.attempts)
    modifies call`attempts, call`timers, fx`critical, fx`openedAttempts
    ensures StateOf(call, fx) == Refusing(old(StateOf(call, fx)), call.bLegs, cause, noAnswer)
    ensures Numbered(call.attempts)
    ensures id == |old(call.attempts)|
  {
    id := Open(call, fx, cause, noAnswer);
    var at := 0;
    while at < |call.attempts| && !(call.attempts[at].id == id && call.attempts[at].IsOpen())
      invariant 0 <= at <= |call.attempts|
      invariant forall i :: 0 <= i < at ==> !(call.attempts[i].id == id && call.attempts[i].IsOpen())
    {
      at := at + 1;
    }
    if at < |call.attempts| {
      call.attempts := call.attempts[at := call.attempts[at].(outcome := Some(Refused))];
    }
  }

  /** Append one refused attempt per listed route, on an active call and a consult's topic only. */
  method RecordRefusedRoutes(call: Call, fx: HandlerEffects, topic: Topic, refused: seq<Option<nat>>)
    requires Numbered(call.attempts)
    modifies call`attempts, call`timers, fx`critical, fx`openedAttempts
    ensures StateOf(call, fx) == Folded(old(StateOf(call, fx)), call.bLegs, call.state, topic, refused)
    ensures Numbered(call.attempts)
  {
    if call.state != Active {
      return;
    }
    var cause := FoldCause(topic);
    if cause.None? {
      return;
    }
    ghost var before := StateOf(call, fx);
    for i := 0 to |refused|
      invariant Numbered(call.attempts)
      invariant StateOf(call, fx) == RefusingAll(before, call.bLegs, cause.value, refused[..i])
    {
      assert refused[..i + 1][..i] == refused[..i];
      var _ := Refuse(call, fx, cause.value, refused[i]);
    }
    assert refused[..|refused|] == refused;
  }

  // ---- The scopes a closing turn leaves ---------------------------------

  function EndedKeys(entries: seq<TimerEntry>, attempts: seq<Attempt>, legs: seq<Leg>, cursors: set<string>): set<TimerKey> {
    set e | e in entries && ScopeEnded(attempts, legs, cursors, e.key) :: Identity(e.key)
  }

  /** The state once every timer whose scope ended is retired. */
  function Swept(s: AttemptsState, legs: seq<Leg>, cursors: set<string>): AttemptsState {
    var ended := Among(EndedKeys(s.ledger.entries, s.attempts, legs, cursors));
    s.(ledger := Retire(s.ledger, ended), commands := s.commands + Cancels(Taken(s.ledger.entries, ended)))
  }

  /** Drop and cancel the entries `Ended` holds of. */
  method SweepEndedScopes(call: Call, fx: HandlerEffects)
    modifies call`timers, fx`critical
    ensures StateOf(call, fx) == Swept(old(StateOf(call, fx)), [call.aLeg] + call.bLegs, call.cursors)
  {
    var ended := {};
    for i := 0 to |call.timers|
      invariant call.timers == old(call.timers) && fx.critical == old(fx.critical)
      invariant ended == EndedKeys(call.timers[..i], call.attempts, [call.aLeg] + call.bLegs, call.cursors)
    {
      assert call.timers[..i + 1] == call.timers[..i] + [call.timers[i]];
      if call.Ended(call.timers[i].key) {
        ended := ended + {Identity(call.timers[i].key)};
      }
    }
    assert call.timers[..|call.timers|] == call.timers;
    var gone := call.RetireTimers(Among(ended));
    fx.critical := fx.critical + Cancels(gone);
  }

  /**
   * Whatever a turn's handlers armed, a swept ledger guards only what still
   * lives: exactly the entries whose attempt is open, whose leg has not ended
   * and whose service machine is under way stay.
   */
  lemma {:induction false} SweepLeavesTheLiving(s: AttemptsState, legs: seq<Leg>, cursors: set<string>, e: TimerEntry)
    ensures e in Swept(s, legs, cursors).ledger.entries <==>
            e in s.ledger.entries && !ScopeEnded(s.attempts, legs, cursors, e.key)
  {
    var keys := EndedKeys(s.ledger.entries, s.attempts, legs, cursors);
    Partition(s.ledger.entries, Among(keys));
    if e in s.ledger.entries && Identity(e.key) in keys {
      var other :| other in s.ledger.entries && ScopeEnded(s.attempts, legs, cursors, other.key) && Identity(other.key) == Identity(e.key);
      assert other.key.scope == e.key.scope;
    }
  }

  // ---- What the outcomes say of the legs --------------------------------

  /** The leg's INVITE was refused with a failure final, and no dialog of it lives on. */
  predicate RefusedLeg(leg: Leg) {
    leg.InviteFinal().Some? && leg.InviteFinal().value >= 300 && forall i :: 0 <= i < |leg.dialogs| ==> !leg.dialogs[i].IsLive()
  }

  /**
   * How an open attempt ends, by its legs: one never dialled is superseded by
   * the next and otherwise lasts as long as the call; one whose every leg was
   * refused has failed; one with an answered leg is answered at the turn's
   * close, even of a call going away; the next opening does not end one with an
   * early leg.
   */
  lemma OutcomesTellOfLegs(legs: seq<Leg>, a: Attempt, goingAway: bool)
    requires a.IsOpen()
    ensures a.legs == [] ==>
      && Decide(AsAnotherOpens, legs, a) == Some(AttemptOutcome.Superseded)
      && Decide(AsTheTurnCloses(goingAway), legs, a) == if goingAway then Some(CallEnded) else None
    ensures a.legs != [] && (forall i :: 0 <= i < |a.legs| ==> FindLeg(legs, a.legs[i]).Some? && RefusedLeg(FindLeg(legs, a.legs[i]).value)) ==>
      && Decide(AsAnotherOpens, legs, a) == Some(Failed)
      && Decide(AsTheTurnCloses(goingAway), legs, a) == if goingAway then Some(CallEnded) else Some(Failed)
    ensures (exists i :: 0 <= i < |a.legs| && FindLeg(legs, a.legs[i]).Some? && Bridged(FindLeg(legs, a.legs[i]).value)) ==>
      Decide(AsTheTurnCloses(goingAway), legs, a) == Some(Answered)
    ensures (exists i :: 0 <= i < |a.legs| && FindLeg(legs, a.legs[i]).Some? && FindLeg(legs, a.legs[i]).value.State() == LegEarly) ==>
      Decide(AsAnotherOpens, legs, a) == None
  {
  }

  /** `leg` is the leg of the call one of the attempt's names stands for. */
  ghost predicate Dialled(legs: seq<Leg>, a: Attempt, leg: Leg) {
    exists i :: 0 <= i < |a.legs| && FindLeg(legs, a.legs[i]) == Some(leg)
  }

  /** Nothing of the leg stands, and nothing this stack sent on it awaits its final: no BYE, no CANCEL of an INVITE unanswered. */
  ghost predicate DoneWith(leg: Leg) {
    && OnItsWayOut(leg)
    && (forall d :: d in leg.dialogs ==> d.state != Confirmed && d.state != Ending(Bye))
    && (leg.dialled.Some? && leg.dialled.value.cancelSent ==> leg.dialled.value.finalReceived.Some?)
  }

  ghost predicate StillStands(leg: Leg) {
    !OnItsWayOut(leg) || exists d :: d in leg.dialogs && d.state == Confirmed
  }

  /** The leg's INVITE was answered with a 2xx, received or sent. */
  ghost predicate Got2xx(leg: Leg) {
    exists status :: 200 <= status < 300 && (if leg.dialled.Some? then leg.dialled.value.finalReceived else leg.finalSent) == Some(status)
  }

  lemma {:induction false} LegReads(leg: Leg)
    ensures DialledLegEnded(leg) <==> DoneWith(leg)
    ensures leg.State() != LegTerminated <==> StillStands(leg)
    ensures Bridged(leg) <==> Got2xx(leg)
    ensures DoneWith(leg) ==> !StillStands(leg)
  {
    LegStates(leg);
    AnyIsSome(leg, Ending(Bye));
    if Bridged(leg) {
      assert 200 <= leg.InviteFinal().value < 300;
    }
  }

  /**
   * Every outcome, if and only if: as another opens, an attempt with a leg that
   * still stands stays open, one done with on every leg it dialled has failed,
   * any other is superseded; as the turn closes, one with an answered leg is
   * answered, any other ends with a call going away, and one done with on every
   * leg has failed.
   */
  lemma {:induction false} OutcomesExactly(legs: seq<Leg>, a: Attempt, goingAway: bool)
    requires a.IsOpen()
    ensures
      var stands := exists leg :: Dialled(legs, a, leg) && StillStands(leg);
      var answered := exists leg :: Dialled(legs, a, leg) && Got2xx(leg);
      var done := a.legs != [] && forall leg :: Dialled(legs, a, leg) ==> DoneWith(leg);
      && Decide(AsAnotherOpens, legs, a) == (if stands then None else if done then Some(Failed) else Some(AttemptOutcome.Superseded))
      && Decide(AsTheTurnCloses(goingAway), legs, a)
         == (if answered then Some(Answered) else if goingAway then Some(CallEnded) else if done then Some(Failed) else None)
  {
    StandsIsRinging(legs, a);
    AnsweredIsBridged(legs, a);
    DoneIsEnded(legs, a);
  }

  lemma {:induction false} StandsIsRinging(legs: seq<Leg>, a: Attempt)
    ensures Rings(legs, a) <==> exists leg :: Dialled(legs, a, leg) && StillStands(leg)
  {
    if Rings(legs, a) {
      var i :| 0 <= i < |a.legs| && FindLeg(legs, a.legs[i]).Some? && FindLeg(legs, a.legs[i]).value.State() != LegTerminated;
      LegReads(FindLeg(legs, a.legs[i]).value);
      assert Dialled(legs, a, FindLeg(legs, a.legs[i]).value);
    }
    if leg :| Dialled(legs, a, leg) && StillStands(leg) {
      LegReads(leg);
    }
  }

  lemma {:induction false} AnsweredIsBridged(legs: seq<Leg>, a: Attempt)
    ensures AnyAnswered(legs, a) <==> exists leg :: Dialled(legs, a, leg) && Got2xx(leg)
  {
    if AnyAnswered(legs, a) {
      var i :| 0 <= i < |a.legs| && FindLeg(legs, a.legs[i]).Some? && Bridged(FindLeg(legs, a.legs[i]).value);
      LegReads(FindLeg(legs, a.legs[i]).value);
      assert Dialled(legs, a, FindLeg(legs, a.legs[i]).value);
    }
    if leg :| Dialled(legs, a, leg) && Got2xx(leg) {
      LegReads(leg);
    }
  }

  lemma {:induction false} DoneIsEnded(legs: seq<Leg>, a: Attempt)
    ensures AllLegsEnded(legs, a) <==> a.legs != [] && forall leg :: Dialled(legs, a, leg) ==> DoneWith(leg)
  {
    if AllLegsEnded(legs, a) {
      forall leg | Dialled(legs, a, leg) ensures DoneWith(leg) { LegReads(leg); }
    }
    if forall leg :: Dialled(legs, a, leg) ==> DoneWith(leg) {
      forall i | 0 <= i < |a.legs| && FindLeg(legs, a.legs[i]).Some? ensures DialledLegEnded(FindLeg(legs, a.legs[i]).value) {
        assert Dialled(legs, a, FindLeg(legs, a.legs[i]).value);
        LegReads(FindLeg(legs, a.legs[i]).value);
      }
    }
  }

  // ---- What every write keeps -------------------------------------------

  /** An attempt's number is its position. */
  ghost predicate Numbered(attempts: seq<Attempt>) {
    forall i :: 0 <= i < |attempts| ==> attempts[i].id == i
  }

  /** No timer outlives its attempt. */
  ghost predicate Scoped(s: AttemptsState) {
    forall e :: e in s.ledger.entries && e.key.scope.AttemptScope? ==>
      e.key.scope.id < |s.attempts| && s.attempts[e.key.scope.id].IsOpen()
  }

  ghost predicate Sound(s: AttemptsState) {
    Numbered(s.attempts) && Scoped(s)
  }

  /** Attempts only grow: an ended one keeps its outcome. */
  ghost predicate Continues(before: seq<Attempt>, after: seq<Attempt>) {
    && |before| <= |after|
    && forall i :: 0 <= i < |before| && !before[i].IsOpen() ==> after[i].outcome == before[i].outcome
  }

  lemma {:induction false} RetiredAre(l: Ledger, ids: seq<nat>, e: TimerEntry)
    ensures e in RetireAttempts(l, ids).entries
      <==> e in l.entries && !(e.key.scope.AttemptScope? && e.key.scope.id in ids)
  {
    if ids != [] {
      var front, last := ids[..|ids| - 1], ids[|ids| - 1];
      RetiredAre(l, front, e);
      Partition(RetireAttempts(l, front).entries, OfAttempt(last));
      assert ids == front + [last];
    }
  }

  lemma {:induction false} EndedAre(m: Moment, legs: seq<Leg>, attempts: seq<Attempt>, id: nat)
    requires Numbered(attempts)
    ensures id in EndedIds(m, legs, attempts) <==> id < |attempts| && Decide(m, legs, attempts[id]).Some?
  {
    if attempts != [] {
      var front := attempts[..|attempts| - 1];
      EndedAre(m, legs, front, id);
    }
  }

  /** Deciding the open attempts leaves no timer of one that ended. */
  lemma {:induction false} DecidingKeeps(m: Moment, legs: seq<Leg>, s: AttemptsState)
    requires Sound(s)
    ensures Sound(DecideAndRetire(m, legs, s)) && Continues(s.attempts, DecideAndRetire(m, legs, s).attempts)
  {
    var after := DecideAndRetire(m, legs, s);
    forall e | e in after.ledger.entries && e.key.scope.AttemptScope?
      ensures e.key.scope.id < |after.attempts| && after.attempts[e.key.scope.id].IsOpen()
    {
      RetiredAre(s.ledger, EndedIds(m, legs, s.attempts), e);
      EndedAre(m, legs, s.attempts, e.key.scope.id);
    }
  }

  lemma {:induction false} OpeningKeeps(s: AttemptsState, legs: seq<Leg>, cause: AttemptCause, noAnswer: Option<nat>)
    requires Sound(s)
    ensures Sound(Opened(s, legs, cause, noAnswer)) && Continues(s.attempts, Opened(s, legs, cause, noAnswer).attempts)
    ensures Sound(Refusing(s, legs, cause, noAnswer)) && Continues(s.attempts, Refusing(s, legs, cause, noAnswer).attempts)
  {
    DecidingKeeps(AsAnotherOpens, legs, s);
  }

  lemma {:induction false} RefusingAllKeeps(s: AttemptsState, legs: seq<Leg>, cause: AttemptCause, refused: seq<Option<nat>>)
    requires Sound(s)
    ensures
      var after := RefusingAll(s, legs, cause, refused);
      Sound(after) && Continues(s.attempts, after.attempts) && |after.attempts| == |s.attempts| + |refused|
  {
    if refused != [] {
      var front := refused[..|refused| - 1];
      RefusingAllKeeps(s, legs, cause, front);
      OpeningKeeps(RefusingAll(s, legs, cause, front), legs, cause, refused[|refused| - 1]);
    }
  }

  // ---- Runs -------------------------------------------------------------

  /** One write to a call's attempts, or a change of its legs and state by the rules. */
  datatype Write =
    | Opening(cause: AttemptCause, noAnswer: Option<nat>)
    | RefusingOne(cause: AttemptCause, noAnswer: Option<nat>)
    | Folding(topic: Topic, refused: seq<Option<nat>>)
    | Closing(goingAway: bool)
    | Dialling(id: nat, legId: string)
    | Arming(key: TimerKey, fireAt: int)
    | Sweeping(aLeg: Leg, cursors: set<string>)
    | Rewriting(state: CallState, legs: seq<Leg>)

  datatype CallAttempts = CallAttempts(s: AttemptsState, legs: seq<Leg>, state: CallState)

  function Joined(attempts: seq<Attempt>, id: nat, legId: string): seq<Attempt> {
    if id < |attempts| then attempts[id := attempts[id].(legs := attempts[id].legs + [legId])] else attempts
  }

  function Apply(c: CallAttempts, w: Write): CallAttempts {
    match w
    case Opening(cause, noAnswer) => c.(s := Opened(c.s, c.legs, cause, noAnswer))
    case RefusingOne(cause, noAnswer) => c.(s := Refusing(c.s, c.legs, cause, noAnswer))
    case Folding(topic, refused) => c.(s := Folded(c.s, c.legs, c.state, topic, refused))
    case Closing(goingAway) => c.(s := DecideAndRetire(AsTheTurnCloses(goingAway), c.legs, c.s))
    case Dialling(id, legId) => c.(s := c.s.(attempts := Joined(c.s.attempts, id, legId)))
    case Arming(key, fireAt) => c.(s := c.s.(ledger := Arm(c.s.ledger, key, fireAt)))
    case Sweeping(aLeg, cursors) => c.(s := Swept(c.s, [aLeg] + c.legs, cursors))
    case Rewriting(state, legs) => c.(state := state, legs := legs)
  }

  function ApplyAll(c: CallAttempts, ws: seq<Write>): CallAttempts {
    if ws == [] then c else Apply(ApplyAll(c, ws[..|ws| - 1]), ws[|ws| - 1])
  }

  /** A timer scoped to an attempt is armed while that attempt is open. */
  ghost predicate ArmsOpen(c: CallAttempts, w: Write) {
    w.Arming? && w.key.scope.AttemptScope? ==>
      w.key.scope.id < |c.s.attempts| && c.s.attempts[w.key.scope.id].IsOpen()
  }

  ghost predicate AlwaysArmsOpen(c: CallAttempts, ws: seq<Write>) {
    forall i :: 0 <= i < |ws| ==> ArmsOpen(ApplyAll(c, ws[..i]), ws[i])
  }

  lemma {:induction false} ApplyKeeps(c: CallAttempts, w: Write)
    requires Sound(c.s) && ArmsOpen(c, w)
    ensures Sound(Apply(c, w).s) && Continues(c.s.attempts, Apply(c, w).s.attempts)
  {
    match w
    case Opening(cause, noAnswer) => OpeningKeeps(c.s, c.legs, cause, noAnswer);
    case RefusingOne(cause, noAnswer) => OpeningKeeps(c.s, c.legs, cause, noAnswer);
    case Folding(topic, refused) =>
      if c.state == Active && FoldCause(topic).Some? { RefusingAllKeeps(c.s, c.legs, FoldCause(topic).value, refused); }
    case Closing(goingAway) => DecidingKeeps(AsTheTurnCloses(goingAway), c.legs, c.s);
    case Dialling(_, _) =>
    case Arming(key, _) => Partition(c.s.ledger.entries, Keyed(key));
    case Sweeping(aLeg, cursors) =>
      Partition(c.s.ledger.entries, Among(EndedKeys(c.s.ledger.entries, c.s.attempts, [aLeg] + c.legs, cursors)));
    case Rewriting(_, _) =>
  }

  /**
   * Over every run of writes, attempts keep their numbers, an ended attempt
   * never reopens nor changes its outcome, and no ledger timer is scoped to an
   * ended attempt.
   */
  lemma {:induction false} NoTimerOutlivesItsAttempt(c: CallAttempts, ws: seq<Write>)
    requires Sound(c.s) && AlwaysArmsOpen(c, ws)
    ensures Sound(ApplyAll(c, ws).s) && Continues(c.s.attempts, ApplyAll(c, ws).s.attempts)
  {
    if ws != [] {
      var front := ws[..|ws| - 1];
      forall i | 0 <= i < |front| ensures ArmsOpen(ApplyAll(c, front[..i]), front[i]) {
        assert front[..i] == ws[..i];
      }
      NoTimerOutlivesItsAttempt(c, front);
      assert ArmsOpen(ApplyAll(c, ws[..|ws| - 1]), ws[|ws| - 1]);
      ApplyKeeps(ApplyAll(c, front), ws[|ws| - 1]);
    }
  }

  /** Whatever is written, an attempt's number is its position and an ended one keeps its outcome. */
  lemma {:induction false} NumberedOn(c: CallAttempts, w: Write)
    requires Numbered(c.s.attempts)
    ensures Numbered(Apply(c, w).s.attempts) && Continues(c.s.attempts, Apply(c, w).s.attempts)
  {
    if w.Folding? && c.state == Active && FoldCause(w.topic).Some? {
      RefusingAllNumbered(c.s, c.legs, FoldCause(w.topic).value, w.refused);
    }
  }

  lemma {:induction false} RefusingAllNumbered(s: AttemptsState, legs: seq<Leg>, cause: AttemptCause, refused: seq<Option<nat>>)
    requires Numbered(s.attempts)
    ensures
      var after := RefusingAll(s, legs, cause, refused).attempts;
      Numbered(after) && Continues(s.attempts, after)
  {
    if refused != [] {
      var front := refused[..|refused| - 1];
      RefusingAllNumbered(s, legs, cause, front);
      RefusingNumbered(RefusingAll(s, legs, cause, front), legs, cause, refused[|refused| - 1]);
    }
  }

  lemma RefusingNumbered(s: AttemptsState, legs: seq<Leg>, cause: AttemptCause, noAnswer: Option<nat>)
    requires Numbered(s.attempts)
    ensures
      var after := Refusing(s, legs, cause, noAnswer).attempts;
      Numbered(after) && Continues(s.attempts, after)
  {
  }

  lemma {:induction false} NumberedThroughout(c: CallAttempts, ws: seq<Write>)
    requires Numbered(c.s.attempts)
    ensures Numbered(ApplyAll(c, ws).s.attempts) && Continues(c.s.attempts, ApplyAll(c, ws).s.attempts)
  {
    if ws != [] {
      NumberedThroughout(c, ws[..|ws| - 1]);
      NumberedOn(ApplyAll(c, ws[..|ws| - 1]), ws[|ws| - 1]);
    }
  }

  /** A numbered attempt is found at its number. */
  lemma {:induction false} FoundAtItsNumber(attempts: seq<Attempt>, id: nat)
    requires forall i :: 0 <= i < |attempts| ==> attempts[i].id == attempts[0].id + i
    requires FindAttempt(attempts, id).Some?
    ensures attempts[0].id <= id < attempts[0].id + |attempts| && attempts[id - attempts[0].id] == FindAttempt(attempts, id).value
  {
    if attempts[0].id != id {
      var rest := attempts[1..];
      assert forall i :: 0 <= i < |rest| ==> rest[i] == attempts[i + 1];
      FoundAtItsNumber(rest, id);
    }
  }

  lemma {:induction false} SweepIsScoped(s: AttemptsState, legs: seq<Leg>, cursors: set<string>)
    requires Numbered(s.attempts)
    ensures Sound(Swept(s, legs, cursors))
  {
    var after := Swept(s, legs, cursors);
    forall e | e in after.ledger.entries && e.key.scope.AttemptScope?
      ensures e.key.scope.id < |after.attempts| && after.attempts[e.key.scope.id].IsOpen()
    {
      SweepLeavesTheLiving(s, legs, cursors, e);
      FoundAtItsNumber(s.attempts, e.key.scope.id);
    }
  }

  /**
   * Whatever a turn's handlers armed, under ended attempts too, once the turn's
   * close swept the ledger no timer is scoped to an ended attempt: after any run
   * of writes that ends in a sweep.
   */
  lemma {:induction false} SweptRunIsSound(c: CallAttempts, ws: seq<Write>)
    requires Numbered(c.s.attempts) && ws != [] && ws[|ws| - 1].Sweeping?
    ensures Sound(ApplyAll(c, ws).s) && Continues(c.s.attempts, ApplyAll(c, ws).s.attempts)
  {
    NumberedThroughout(c, ws);
    NumberedThroughout(c, ws[..|ws| - 1]);
    var before, last := ApplyAll(c, ws[..|ws| - 1]), ws[|ws| - 1];
    SweepIsScoped(before.s, [last.aLeg] + before.legs, last.cursors);
  }

  // ---- How many are open ------------------------------------------------

  ghost predicate AtMostOneOpen(attempts: seq<Attempt>) {
    forall i, j :: 0 <= i < j < |attempts| ==> !(attempts[i].IsOpen() && attempts[j].IsOpen())
  }

  /** No open attempt of the call has a live leg. */
  ghost predicate NoneRings(legs: seq<Leg>, attempts: seq<Attempt>) {
    forall i :: 0 <= i < |attempts| && attempts[i].IsOpen() ==> !Rings(legs, attempts[i])
  }

  /**
   * Opening leaves one attempt open exactly when no open attempt still rings:
   * the ones that ring are open next to the new one.
   */
  lemma {:induction false} OneOpenIffNoneRings(s: AttemptsState, legs: seq<Leg>, cause: AttemptCause, noAnswer: Option<nat>)
    ensures AtMostOneOpen(Opened(s, legs, cause, noAnswer).attempts) <==> NoneRings(legs, s.attempts)
  {
    var after := Opened(s, legs, cause, noAnswer).attempts;
    var n := |s.attempts|;
    forall i | 0 <= i < n ensures after[i].IsOpen() <==> s.attempts[i].IsOpen() && Rings(legs, s.attempts[i]) {
      assert after[i] == Decided(AsAnotherOpens, legs, s.attempts[i]);
    }
    assert after[n].IsOpen();
    if !NoneRings(legs, s.attempts) {
      var i :| 0 <= i < n && s.attempts[i].IsOpen() && Rings(legs, s.attempts[i]);
      assert after[i].IsOpen();
    }
  }

  /** A ringing attempt makes a second one possible. */
  lemma {:induction false} TwoMayBeOpen()
    ensures
      var ringing := Leg("b-1", [], Some(OutboundInvite(1, 0, None, false)), None, Some(0), false);
      var first := Attempt(0, Route, ["b-1"], Some(20000), None);
      var s := AttemptsState([first], Ledger([], 0), [], []);
      && Sound(s) && AtMostOneOpen(s.attempts)
      && !AtMostOneOpen(Opened(s, [ringing], Transfer, None).attempts)
  {
    var ringing := Leg("b-1", [], Some(OutboundInvite(1, 0, None, false)), None, Some(0), false);
    var first := Attempt(0, Route, ["b-1"], Some(20000), None);
    assert FindLeg([ringing], "b-1") == Some(ringing);
    assert ringing.State() == LegTrying;
    assert first.legs[0] == "b-1";
    assert Rings([ringing], first);
    OneOpenIffNoneRings(AttemptsState([first], Ledger([], 0), [], []), [ringing], Transfer, None);
    assert [first][0].IsOpen() && Rings([ringing], [first][0]);
    assert !NoneRings([ringing], [first]);
  }

  /** Every opening of the run finds no open attempt still ringing. */
  ghost predicate OpensQuietly(c: CallAttempts, ws: seq<Write>) {
    ws == [] ||
    var front, before := ws[..|ws| - 1], ApplyAll(c, ws[..|ws| - 1]);
    OpensQuietly(c, front) && (ws[|ws| - 1].Opening? ==> NoneRings(before.legs, before.s.attempts))
  }

  /** A write other than an opening opens nothing. */
  lemma {:induction false} OnlyOpeningOpens(c: CallAttempts, w: Write, i: nat)
    requires !w.Opening? && i < |Apply(c, w).s.attempts| && Apply(c, w).s.attempts[i].IsOpen()
    ensures i < |c.s.attempts| && c.s.attempts[i].IsOpen()
  {
    if w.Folding? && c.state == Active && FoldCause(w.topic).Some? {
      RefusedOpenNothing(c.s, c.legs, FoldCause(w.topic).value, w.refused, i);
    }
  }

  lemma {:induction false} RefusedOpenNothing(s: AttemptsState, legs: seq<Leg>, cause: AttemptCause, refused: seq<Option<nat>>, i: nat)
    requires i < |RefusingAll(s, legs, cause, refused).attempts| && RefusingAll(s, legs, cause, refused).attempts[i].IsOpen()
    ensures i < |s.attempts| && s.attempts[i].IsOpen()
  {
    if refused != [] {
      RefusedOpenNothing(s, legs, cause, refused[..|refused| - 1], i);
    }
  }

  /** At most one attempt is open at the start of the run and after each of its writes. */
  ghost predicate OneOpenInEveryPrefix(c: CallAttempts, ws: seq<Write>) {
    AtMostOneOpen(ApplyAll(c, ws).s.attempts) && (ws == [] || OneOpenInEveryPrefix(c, ws[..|ws| - 1]))
  }

  /** One write more keeps at most one open exactly when it is no opening beside a ringing attempt. */
  lemma {:induction false} OneOpenOn(c: CallAttempts, w: Write)
    requires AtMostOneOpen(c.s.attempts)
    ensures AtMostOneOpen(Apply(c, w).s.attempts) <==> (w.Opening? ==> NoneRings(c.legs, c.s.attempts))
  {
    if w.Opening? {
      OneOpenIffNoneRings(c.s, c.legs, w.cause, w.noAnswer);
    } else {
      var after := Apply(c, w).s.attempts;
      forall i, j | 0 <= i < j < |after| ensures !(after[i].IsOpen() && after[j].IsOpen()) {
        if after[i].IsOpen() && after[j].IsOpen() {
          OnlyOpeningOpens(c, w, i);
          OnlyOpeningOpens(c, w, j);
        }
      }
    }
  }

  /**
   * At most one attempt is open throughout a run if and only if at most one was
   * at its start and every opening of the run finds no open attempt ringing.
   */
  lemma {:induction false} AtMostOneThroughout(c: CallAttempts, ws: seq<Write>)
    ensures OneOpenInEveryPrefix(c, ws) <==> AtMostOneOpen(c.s.attempts) && OpensQuietly(c, ws)
  {
    if ws != [] {
      var front := ws[..|ws| - 1];
      AtMostOneThroughout(c, front);
      if OneOpenInEveryPrefix(c, front) {
        OneOpenOn(ApplyAll(c, front), ws[|ws| - 1]);
      }
    }
  }

  /** Opening appends one open attempt of the given cause and deadline, numbered next, and notes it. */
  lemma OpenedAppends(s: AttemptsState, legs: seq<Leg>, cause: AttemptCause, noAnswer: Option<nat>)
    ensures
      var after, n := Opened(s, legs, cause, noAnswer), |s.attempts|;
      |after.attempts| == n + 1 && after.attempts[n] == Attempt(n, cause, [], noAnswer, None) && after.begun == s.begun + [n]
  {
  }

  /** After the first `base` attempts there is one per refused route, in order, refused, with its own deadline. */
  ghost predicate RefusedFrom(base: nat, attempts: seq<Attempt>, cause: AttemptCause, refused: seq<Option<nat>>) {
    && |attempts| == base + |refused|
    && forall i :: 0 <= i < |refused| ==> attempts[base + i] == Attempt(base + i, cause, [], refused[i], Some(Refused))
  }

  /** One refusal more: a refused attempt at the end, and the decided ones as they were. */
  lemma {:induction false} RefusedOne(s: AttemptsState, legs: seq<Leg>, cause: AttemptCause, noAnswer: Option<nat>) returns (all: seq<Attempt>)
    ensures all == Refusing(s, legs, cause, noAnswer).attempts && |all| == |s.attempts| + 1
    ensures all[|s.attempts|] == Attempt(|s.attempts|, cause, [], noAnswer, Some(Refused))
    ensures forall k :: 0 <= k < |s.attempts| && !s.attempts[k].IsOpen() ==> all[k] == s.attempts[k]
  {
    all := Refusing(s, legs, cause, noAnswer).attempts;
  }

  lemma RefusedMore(base: nat, front: seq<Attempt>, all: seq<Attempt>, cause: AttemptCause, refused: seq<Option<nat>>)
    requires refused != [] && RefusedFrom(base, front, cause, refused[..|refused| - 1])
    requires |all| == |front| + 1 && all[|front|] == Attempt(|front|, cause, [], refused[|refused| - 1], Some(Refused))
    requires forall k :: 0 <= k < |front| && !front[k].IsOpen() ==> all[k] == front[k]
    ensures RefusedFrom(base, all, cause, refused)
  {
  }

  /** Refused routes are recorded as attempts of their own, in order. */
  lemma {:induction false} RefusedInOrder(s: AttemptsState, legs: seq<Leg>, cause: AttemptCause, refused: seq<Option<nat>>)
    ensures RefusedFrom(|s.attempts|, RefusingAll(s, legs, cause, refused).attempts, cause, refused)
  {
    if refused != [] {
      var front := refused[..|refused| - 1];
      RefusedInOrder(s, legs, cause, front);
      var so := RefusingAll(s, legs, cause, front);
      var all := RefusedOne(so, legs, cause, refused[|refused| - 1]);
      RefusedMore(|s.attempts|, so.attempts, all, cause, refused);
    }
  }

  /** The cause a topic's refusals are recorded under. */
  predicate RecordedUnder(topic: Topic, cause: AttemptCause) {
    (topic.FailureTopic? && cause == Failover) || (topic.ReleaseTopic? && cause == Reroute)
  }

  /**
   * What a fold adds to an active call's attempts: one refused attempt per route
   * listed, in order, each with its own deadline, under the topic's cause. Any
   * other topic, and a call going away, adds none.
   */
  lemma {:induction false} FoldGains(s: AttemptsState, legs: seq<Leg>, state: CallState, topic: Topic, refused: seq<Option<nat>>)
    ensures state != Active || !(topic.FailureTopic? || topic.ReleaseTopic?) ==> Folded(s, legs, state, topic, refused) == s
    ensures state == Active && (topic.FailureTopic? || topic.ReleaseTopic?) ==>
      var after, n := Folded(s, legs, state, topic, refused).attempts, |s.attempts|;
      && |after| == n + |refused|
      && forall i, cause :: 0 <= i < |refused| && RecordedUnder(topic, cause) ==> after[n + i] == Attempt(n + i, cause, [], refused[i], Some(Refused))
  {
    if state == Active && (topic.FailureTopic? || topic.ReleaseTopic?) {
      RefusedInOrder(s, legs, FoldCause(topic).value, refused);
    }
  }

  // ---- What is cancelled ------------------------------------------------

  lemma {:induction false} CancelOfEach(l: Ledger, ids: seq<nat>, e: TimerEntry)
    requires e in l.entries && e !in RetireAttempts(l, ids).entries
    ensures CancelTimer(e.key) in CancelsOf(l, ids)
  {
    var front, last := ids[..|ids| - 1], ids[|ids| - 1];
    if e in RetireAttempts(l, front).entries {
      var gone := Taken(RetireAttempts(l, front).entries, OfAttempt(last));
      Partition(RetireAttempts(l, front).entries, OfAttempt(last));
      var i :| 0 <= i < |gone| && gone[i] == e;
      assert Cancels(gone)[i] == CancelTimer(e.key);
    } else {
      CancelOfEach(l, front, e);
    }
  }

  /** Every timer that deciding attempts or sweeping scopes takes off the ledger is cancelled. */
  lemma {:induction false} GoneIsCancelled(m: Moment, legs: seq<Leg>, cursors: set<string>, s: AttemptsState, e: TimerEntry)
    requires e in s.ledger.entries
    ensures e !in DecideAndRetire(m, legs, s).ledger.entries ==> CancelTimer(e.key) in DecideAndRetire(m, legs, s).commands
    ensures e !in Swept(s, legs, cursors).ledger.entries ==> CancelTimer(e.key) in Swept(s, legs, cursors).commands
  {
    if e !in DecideAndRetire(m, legs, s).ledger.entries {
      CancelOfEach(s.ledger, EndedIds(m, legs, s.attempts), e);
    }
    if e !in Swept(s, legs, cursors).ledger.entries {
      var sel := Among(EndedKeys(s.ledger.entries, s.attempts, legs, cursors));
      Partition(s.ledger.entries, sel);
      var gone := Taken(s.ledger.entries, sel);
      var i :| 0 <= i < |gone| && gone[i] == e;
      assert Cancels(gone)[i] == CancelTimer(e.key);
    }
  }

  /** Which timers a sweep lets live, scope by scope. */
  lemma LivingScopes(attempts: seq<Attempt>, legs: seq<Leg>, cursors: set<string>, key: TimerKey)
    ensures !ScopeEnded(attempts, legs, cursors, key) <==>
      && (key.timerType.Service? ==> key.timerType.serviceId in cursors)
      && (key.scope.AttemptScope? ==> FindAttempt(attempts, key.scope.id).Some? && FindAttempt(attempts, key.scope.id).value.outcome.None?)
      && (key.scope.LegScope? ==> FindLeg(legs, key.scope.legId).Some? && FindLeg(legs, key.scope.legId).value.State() != LegTerminated)
  {
  }
}
