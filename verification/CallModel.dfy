/**
 * The call record and the effects of one turn as the core's passes read and
 * write them (crates/call/src/model, crates/b2bua-core/src/effects.rs,
 * crates/b2bua-sdk/src/event.rs), with the writers of the timer ledger.
 */
module CallModel {
  import opened Wrappers
  import opened Timers
  import opened Legs

  datatype CallState = Active | Terminating | Terminated

  // ---- Off-turn requests and effects ------------------------------------

  /** The change numbers a consult reserved for the admits it may send. */
  datatype ConsultAdmits = ConsultAdmits(firstChange: nat, mayHold: bool)

  /** A `/call/failure` consult's request: the failed leg it names, and the rest. */
  datatype FailureRequest = FailureRequest(failedLegId: string, body: string)

  datatype OffTurnRequest =
    | Refer(referred: string, sentAtMs: int)
    | ServiceHttp(correlationId: string, image: string, timeoutMs: Option<nat>)
    | Failure(request: FailureRequest, limiter: ConsultAdmits)
    | Release(released: string, limiter: ConsultAdmits)
    | Admit(correlationId: string, entries: seq<string>, change: nat)

  datatype OffTurnEffect =
    | ReferAsyncHttp(referred: string)
    | ServiceHttpRequest(correlationId: string, image: string, timeoutMs: Option<nat>)
    | FailureAsyncHttp(request: FailureRequest, limiter: ConsultAdmits, deadline: Option<nat>)
    | ReleaseAsyncHttp(released: string, limiter: ConsultAdmits, deadline: Option<nat>)
    | LimiterAdmit(correlationId: string, entries: seq<string>, change: nat)
    | Reenter(event: CallEvent)

  // ---- Events -----------------------------------------------------------

  datatype Topic =
    | ReferTopic
    | ServiceHttpResult
    | LimiterAdmitResult
    | FailureTopic
    | ReleaseTopic
    | OtherTopic(name: string)

  datatype AdmitReport = AdmitReport(key: string, change: nat, outcome: string)

  datatype Payload = Payload(
    correlationId: Option<string>,
    consultChange: Option<nat>,
    report: Option<AdmitReport>,
    failedLegId: Option<string>,
    error: Option<string>)

  /** `Unrelated` stands for SIP messages, CANCELs and transaction timeouts. */
  datatype CallEvent =
    | Timer(key: TimerKey, generation: nat)
    | Internal(topic: Topic, outcome: string, payload: Payload)
    | Unrelated(what: string)

  // ---- Attempts and answered finals -------------------------------------

  datatype AttemptOutcome = Answered | Failed | Superseded | CallEnded | Refused

  datatype AttemptCause = Route | Failover | Reroute | Transfer

  /** `noAnswer`: the ring deadline in milliseconds, never zero; `None` is off. */
  datatype Attempt = Attempt(
    id: nat,
    cause: AttemptCause,
    legs: seq<string>,
    noAnswer: Option<nat>,
    outcome: Option<AttemptOutcome>)
  {
    predicate IsOpen() { outcome.None? }
  }

  /** The attempt `id` names. */
  function FindAttempt(attempts: seq<Attempt>, id: nat): Option<Attempt> {
    if attempts == [] then None
    else if attempts[0].id == id then Some(attempts[0])
    else FindAttempt(attempts[1..], id)
  }

  datatype AnsweredRequest = AnsweredRequest(verb: string, branch: string, response: string, untilMs: int)

  /** The attempt or leg of `key` is gone or over, or its service is not among the running `cursors`. */
  predicate ScopeEnded(attempts: seq<Attempt>, legs: seq<Leg>, cursors: set<string>, key: TimerKey) {
    || (key.scope.AttemptScope? && !(FindAttempt(attempts, key.scope.id).Some? && FindAttempt(attempts, key.scope.id).value.IsOpen()))
    || (key.scope.LegScope? && !(FindLeg(legs, key.scope.legId).Some? && FindLeg(legs, key.scope.legId).value.State() != LegTerminated))
    || (key.timerType.Service? && key.timerType.serviceId !in cursors)
  }

  // ---- The mutable call and the effects of its turn ---------------------

  class Call {
    var state: CallState
    const limiterKey: string
    var timers: seq<TimerEntry>
    var timerGeneration: nat
    var awaited: seq<OffTurnRequest>
    var answered: seq<AnsweredRequest>
    var attempts: seq<Attempt>
    var aLeg: Leg
    var aInviteCseq: int
    var bLegs: seq<Leg>
    var cursors: set<string>

    /** The scope of `key` has ended as the call stands. */
    predicate Ended(key: TimerKey)
      reads this`attempts, this`aLeg, this`bLegs, this`cursors
    {
      ScopeEnded(attempts, [aLeg] + bLegs, cursors, key)
    }

    ghost function TimerLedger(): Ledger
      reads this`timers, this`timerGeneration
    {
      Ledger(timers, timerGeneration)
    }

    constructor (limiterKey: string, aLeg: Leg, aInviteCseq: int)
      ensures state == Active && this.limiterKey == limiterKey
      ensures TimerLedger() == Ledger([], 0) && awaited == [] && answered == [] && attempts == [] && bLegs == []
      ensures this.aLeg == aLeg && this.aInviteCseq == aInviteCseq && cursors == {}
    {
      state := Active;
      this.limiterKey := limiterKey;
      timers, timerGeneration := [], 0;
      awaited, answered, attempts := [], [], [];
      this.aLeg, this.aInviteCseq, bLegs := aLeg, aInviteCseq, [];
      cursors := {};
    }

    /** Split the ledger by `sel`: what it takes is returned, what it keeps stays. */
    method RetireTimers(sel: Selector) returns (gone: seq<TimerEntry>)
      modifies this`timers
      ensures gone == Taken(old(timers), sel)
      ensures TimerLedger() == Retire(old(TimerLedger()), sel)
    {
      gone := [];
      var kept := [];
      for i := 0 to |timers|
        invariant timers == old(timers)
        invariant gone == Taken(timers[..i], sel) && kept == Kept(timers[..i], sel)
      {
        KeptAppend(timers[..i], [timers[i]], sel);
        assert timers[..i + 1] == timers[..i] + [timers[i]];
        if Selects(sel, timers[i]) {
          gone := gone + [timers[i]];
        } else {
          kept := kept + [timers[i]];
        }
      }
      assert timers[..|timers|] == timers;
      timers := kept;
    }

    /** Arm `key` under the next generation; the entry to schedule. */
    method ArmTimer(key: TimerKey, fireAt: int) returns (entry: TimerEntry)
      modifies this`timers, this`timerGeneration
      ensures TimerLedger() == Arm(old(TimerLedger()), key, fireAt)
      ensures entry == TimerEntry(key, timerGeneration, fireAt)
    {
      timerGeneration := timerGeneration + 1;
      entry := TimerEntry(key, timerGeneration, fireAt);
      var _ := RetireTimers(Keyed(key));
      timers := timers + [entry];
    }
  }

  class HandlerEffects {
    var critical: seq<DriverCommand>
    var fireAndForget: seq<OffTurnEffect>
    var openedAttempts: seq<nat>

    constructor ()
      ensures critical == [] && fireAndForget == [] && openedAttempts == []
    {
      critical, fireAndForget, openedAttempts := [], [], [];
    }
  }

  /** Arm `key` on `call` and hand the instance to the driver (timer_arm.rs). */
  method ArmScheduled(call: Call, fx: HandlerEffects, key: TimerKey, fireAt: int)
    modifies call`timers, call`timerGeneration, fx`critical
    ensures call.TimerLedger() == Arm(old(call.TimerLedger()), key, fireAt)
    ensures fx.critical == old(fx.critical) + [ScheduleTimer(TimerEntry(key, call.timerGeneration, fireAt))]
  {
    var entry := call.ArmTimer(key, fireAt);
    fx.critical := fx.critical + [ScheduleTimer(entry)];
  }
}
