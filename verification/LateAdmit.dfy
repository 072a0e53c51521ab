/**
 * Why a late answer may be read after all: an admit sent twice under one id has
 * two deadlines, and the answer to the first, late for its own, is in time for
 * the second's.
 */
module LateAdmit {
  import opened Wrappers
  import opened Timers
  import opened CallModel
  import opened OffTurn
  import opened AnswerDeadline
  import opened AnswerLemmas
  import opened Turns
  import opened Runs

  /** A turn of rules that only send `effects`. */
  function Sending(effects: seq<OffTurnEffect>): Rules { Rules([], Active, effects, [], 0) }

  /** A turn on an event of no interest here that sends `fx`. */
  function SendStep(what: string, fx: OffTurnEffect): Step {
    Deliver(Unrelated(what), false, Sending([fx]), Sending([]))
  }

  function FireStep(key: TimerKey, generation: nat): Step {
    Deliver(Timer(key, generation), false, Sending([]), Sending([]))
  }

  function AdmitKey(id: string, change: nat): TimerKey { CallKey(ServiceAdmitAnswer(id, change)) }

  /** The answer to the admit `id` sent as `change`, of the call under `limiterKey`. */
  function AdmitAnswer(limiterKey: string, id: string, change: nat): CallEvent {
    Internal(LimiterAdmitResult, "granted", Payload(Some(id), None, Some(AdmitReport(limiterKey, change, "granted")), None, None))
  }

  lemma {:induction false} ExecPush(b: AnswerBudgets, w: World, run: seq<Step>, s: Step)
    ensures Exec(b, w, run + [s]) == Next(b, Exec(b, w, run), s)
  {
    assert (run + [s])[..|run|] == run;
  }

  /** A turn that sends one bounded request arms its deadline and does no more. */
  lemma {:induction false} SendsOne(b: AnswerBudgets, c: CallRecord, fx: OffTurnEffect)
    requires DeadlineOf(fx, b).Some? && ImageOf(fx, 0).Some?
    ensures
      var t, d := Turn(b, c, [], Sending([fx])), DeadlineOf(fx, b).value;
      && t.0.state == Active && t.0.limiterKey == c.limiterKey
      && t.0.ledger == Arm(c.ledger, CallKey(d.0), FireAt(0, d.1))
  {
    OneEffect(Armed(c.ledger, []), c.awaited, fx, b, 0);
  }

  /** An event of no interest here is read as it is: the step is its turn. */
  lemma {:induction false} UnrelatedStep(b: AnswerBudgets, w: World, what: string, rules: Rules, frame: Rules)
    requires w.call.state == Active
    ensures Next(b, w, Deliver(Unrelated(what), false, rules, frame)).call == Turn(b, w.call, [], rules).0
  {
    UnrelatedIsRead(w.call, what);
  }

  lemma UnrelatedIsRead(c: CallRecord, what: string)
    ensures Read(c, Unrelated(what)) == c && Closed(c.limiterKey, c.ledger, Unrelated(what)) == []
    ensures Verdict(c.limiterKey, c.ledger, Unrelated(what)) == Screened.Other
  {
    UnsettledAll(c.awaited, Unrelated(what));
  }

  lemma {:induction false} SendStepArms(b: AnswerBudgets, w: World, what: string, fx: OffTurnEffect)
    requires w.call.state == Active && DeadlineOf(fx, b).Some? && ImageOf(fx, 0).Some?
    ensures
      var next, d := Next(b, w, SendStep(what, fx)).call, DeadlineOf(fx, b).value;
      && next.state == Active && next.limiterKey == w.call.limiterKey
      && next.ledger == Arm(w.call.ledger, CallKey(d.0), FireAt(0, d.1))
  {
    UnrelatedStep(b, w, what, Sending([fx]), Sending([]));
    SendsOne(b, w.call, fx);
  }

  /** A run that sends one more request, its deadline armed last. */
  lemma {:induction false} SendMore(b: AnswerBudgets, w: World, run: seq<Step>, what: string, fx: OffTurnEffect) returns (more: seq<Step>)
    requires AllAdmissible(run) && Exec(b, w, run).call.state == Active && DeadlineOf(fx, b).Some? && ImageOf(fx, 0).Some?
    ensures AllAdmissible(more) && Exec(b, w, more).call.state == Active
    ensures Exec(b, w, more).call.limiterKey == Exec(b, w, run).call.limiterKey
    ensures
      var d := DeadlineOf(fx, b).value;
      Exec(b, w, more).call.ledger == Arm(Exec(b, w, run).call.ledger, CallKey(d.0), FireAt(0, d.1))
  {
    more := run + [SendStep(what, fx)];
    ExecPush(b, w, run, SendStep(what, fx));
    SendStepArms(b, Exec(b, w, run), what, fx);
    assert Admissible(SendStep(what, fx));
  }

  /** A run that sends an admit as two changes and lets the first one's timer run out: both deadlines are in the ledger. */
  lemma {:induction false} SentTwice(b: AnswerBudgets, w: World, what: string, id: string, first: nat, second: nat)
    returns (past: seq<Step>, e: TimerEntry, other: TimerEntry)
    requires Initial(w) && first != second
    ensures AllAdmissible(past) && Exec(b, w, past).call.state == Active && Exec(b, w, past).call.ledger.entries == [e] + [other]
    ensures e.key == AdmitKey(id, first) && other.key == AdmitKey(id, second)
  {
    var one := SendMore(b, w, [], what, LimiterAdmit(id, [], first));
    var two := SendMore(b, w, one, what, LimiterAdmit(id, [], second));
    e, other := Exec(b, w, one).call.ledger.entries[0], Exec(b, w, two).call.ledger.entries[1];
    KeptAll(Exec(b, w, one).call.ledger.entries, Keyed(AdmitKey(id, second)));
    past := two + [Expire(AdmitKey(id, first))];
    ExecPush(b, w, two, Expire(AdmitKey(id, first)));
  }

  lemma NothingSent(b: AnswerBudgets, c: CallRecord)
    ensures Turn(b, c, [], Sending([])).0.ledger == c.ledger && Turn(b, c, [], Sending([])).0.limiterKey == c.limiterKey
  {
  }

  /** The fire of the first of two entries is its expiry, and leaves the second. */
  lemma {:induction false} FirstExpires(b: AnswerBudgets, w: World, e: TimerEntry, other: TimerEntry)
    requires w.call.state == Active && w.call.ledger.entries == [e] + [other]
    requires IsAnswerDeadline(e.key.timerType) && !SameKey(e.key, other.key)
    ensures InstanceOf(e) in Given(w, FireStep(e.key, e.generation))
    ensures
      var next := Next(b, w, FireStep(e.key, e.generation)).call;
      next.ledger.entries == [other] && next.limiterKey == w.call.limiterKey
  {
    assert w.call.ledger.entries[1..] == [other];
    OnlyFirstHeld(w.call.ledger.entries, e.key);
    NothingSent(b, Read(w.call, Timer(e.key, e.generation)));
  }

  /** An admit's answer is awaited wherever any deadline of its id is pending. */
  lemma {:induction false} AnyChangeAwaits(c: CallRecord, id: string, change: nat, e: TimerEntry)
    requires e in c.ledger.entries && e.key.timerType.ServiceAdmitAnswer? && e.key.timerType.correlationId == id
    ensures AnswerTo(AdmitAnswer(c.limiterKey, id, change)) == Some(ServiceAdmitAnswer(id, change))
    ensures Verdict(c.limiterKey, c.ledger, AdmitAnswer(c.limiterKey, id, change)) == Awaited
  {
    LateVerdict(c, AdmitAnswer(c.limiterKey, id, change));
  }

  /**
   * From a call just created, any admit sent as two changes, the first one's
   * deadline then expiring: the late answer to the first is awaited.
   */
  lemma {:induction false} LateAdmitMayBeAwaited(b: AnswerBudgets, w: World, what: string, id: string, first: nat, second: nat)
    returns (past: seq<Step>, expiry: Step)
    requires Initial(w) && first != second
    ensures AllAdmissible(past + [expiry]) && expiry.Deliver? && expiry.event.Timer? && expiry.event.key == AdmitKey(id, first)
    ensures (AdmitKey(id, first), expiry.event.generation) in Given(Exec(b, w, past), expiry)
    ensures
      var now := Exec(b, w, past + [expiry]).call;
      Verdict(now.limiterKey, now.ledger, AdmitAnswer(now.limiterKey, id, first)) == Awaited
  {
    var e, other;
    past, e, other := SentTwice(b, w, what, id, first, second);
    expiry := FireStep(e.key, e.generation);
    FirstExpires(b, Exec(b, w, past), e, other);
    ExecPush(b, w, past, expiry);
    AnyChangeAwaits(Exec(b, w, past + [expiry]).call, id, first, other);
  }
}
