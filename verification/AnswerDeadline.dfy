/**
 * Answer deadlines: how long a call waits for each answer it is owed, and how an
 * event is read against what is still owed (crates/b2bua-core/src/answer_deadline.rs);
 * with the screen a timer fire meets before that (crates/b2bua-core/src/rule_chain/timer_screen.rs).
 */
module AnswerDeadline {
  import opened Wrappers
  import opened Timers
  import opened CallModel
  import opened OffTurn
  import Int64

  // ---- Budgets, in milliseconds -----------------------------------------

  const MARGIN: nat := 2000
  const ADMIT_SLACK: nat := 100
  const MAX_LIMITER_FAILOVER: nat := 5
  const FAILURE_CHAIN: nat := MAX_LIMITER_FAILOVER + 1

  function FailureBudget(decision: nat, admit: nat): Option<nat> {
    if decision == 0 then None else Some((decision + admit + ADMIT_SLACK) * FAILURE_CHAIN)
  }

  function ReleaseBudget(decision: nat, admit: nat): Option<nat> {
    if decision == 0 then None else Some(decision + admit + ADMIT_SLACK)
  }

  datatype AnswerBudgets = AnswerBudgets(http: nat, admit: nat, failure: Option<nat>, release: Option<nat>)

  /** When a request of `budget` sent at `nowMs` is given up. */
  function FireAt(nowMs: int, budget: nat): int {
    Int64.SatAdd(nowMs, if budget + MARGIN > Int64.MAX then Int64.MAX else budget + MARGIN)
  }

  // ---- What closes what -------------------------------------------------

  /** The admit report an event carries: a service's admit result's, or a route fold's. */
  function ReportOf(event: CallEvent): Option<AdmitReport> {
    if event.Internal? && (event.topic.LimiterAdmitResult? || IsRouteFold(event.topic, event.outcome))
    then event.payload.report else None
  }

  predicate IsRouteFold(topic: Topic, outcome: string) {
    || (topic.FailureTopic? && outcome in {"failover", "reject", "redirect", "terminate"})
    || (topic.ReleaseTopic? && outcome in {"reroute", "release"})
  }

  /** The event reports an admit whose limiter key is not this call's. */
  predicate OfAnotherCall(limiterKey: string, event: CallEvent) {
    ReportOf(event).Some? && ReportOf(event).value.key != limiterKey
  }

  /** The timer an HTTP or admit result ends, by the id it carries. */
  function ServiceAnswered(event: CallEvent): Option<TimerType> {
    if !event.Internal? || event.payload.correlationId.None? then None
    else
      var id := event.payload.correlationId.value;
      match event.topic
      case ServiceHttpResult => Some(ServiceHttpAnswer(id))
      case LimiterAdmitResult =>
        Some(ServiceAdmitAnswer(id, if ReportOf(event).Some? then ReportOf(event).value.change else 0))
      case _ => None
  }

  /** The timer a fold ends: that of the change number it carries, if any. */
  function ConsultAnswered(event: CallEvent): Option<TimerType> {
    if !event.Internal? || event.payload.consultChange.None? then None
    else
      var change := event.payload.consultChange.value;
      match event.topic
      case FailureTopic => Some(FailureAnswer(change, ""))
      case ReleaseTopic => Some(ReleaseAnswer(change))
      case _ => None
  }

  function AnswerTo(event: CallEvent): Option<TimerType> {
    if ServiceAnswered(event).Some? then ServiceAnswered(event) else ConsultAnswered(event)
  }

  /** The timer to arm for an effect with the time allowed for its answer; `None` where nothing is waited for. */
  function DeadlineOf(fx: OffTurnEffect, b: AnswerBudgets): Option<(TimerType, nat)> {
    match fx
    case ServiceHttpRequest(id, _, timeoutMs) =>
      Some((ServiceHttpAnswer(id), if timeoutMs.Some? then timeoutMs.value else b.http))
    case LimiterAdmit(id, _, change) => Some((ServiceAdmitAnswer(id, change), b.admit))
    case FailureAsyncHttp(request, limiter, _) =>
      if b.failure.None? then None
      else Some((FailureAnswer(limiter.firstChange, request.failedLegId), b.failure.value))
    case ReleaseAsyncHttp(_, limiter, _) =>
      if b.release.None? then None else Some((ReleaseAnswer(limiter.firstChange), b.release.value))
    case Reenter(event) =>
      if ServiceAnswered(event).None? then None else Some((ServiceAnswered(event).value, 0))
    case ReferAsyncHttp(_) => None
  }

  /** An effect after arming: consults carry the change number of their timer. */
  function Naming(fx: OffTurnEffect, b: AnswerBudgets): OffTurnEffect {
    match fx
    case FailureAsyncHttp(request, limiter, _) =>
      FailureAsyncHttp(request, limiter, if b.failure.Some? then Some(limiter.firstChange) else None)
    case ReleaseAsyncHttp(request, limiter, _) =>
      ReleaseAsyncHttp(request, limiter, if b.release.Some? then Some(limiter.firstChange) else None)
    case _ => fx
  }

  function CallKey(t: TimerType): TimerKey { TimerKey(t, CallScope) }

  // ---- Arming -----------------------------------------------------------

  datatype Armed = Armed(ledger: Ledger, commands: seq<DriverCommand>)

  function ArmDeadline(a: Armed, d: (TimerType, nat), nowMs: int): Armed {
    var l := Arm(a.ledger, CallKey(d.0), FireAt(nowMs, d.1));
    Armed(l, a.commands + [ScheduleTimer(TimerEntry(CallKey(d.0), l.generation, FireAt(nowMs, d.1)))])
  }

  function ArmEach(a: Armed, ds: seq<(TimerType, nat)>, nowMs: int): Armed {
    if ds == [] then a else ArmDeadline(ArmEach(a, ds[..|ds| - 1], nowMs), ds[|ds| - 1], nowMs)
  }

  function Deadlines(fxs: seq<OffTurnEffect>, b: AnswerBudgets): seq<(TimerType, nat)> {
    if fxs == [] then []
    else
      var front := Deadlines(fxs[..|fxs| - 1], b);
      match DeadlineOf(fxs[|fxs| - 1], b)
      case None => front
      case Some(d) => front + [d]
  }

  function NamingAll(fxs: seq<OffTurnEffect>, b: AnswerBudgets): (r: seq<OffTurnEffect>)
    ensures |r| == |fxs| && forall i :: 0 <= i < |fxs| ==> r[i] == Naming(fxs[i], b)
  {
    seq(|fxs|, i requires 0 <= i < |fxs| => Naming(fxs[i], b))
  }

  /** Arm and schedule a timer per answer owed by the turn's effects, in their order, on a call that lives on. */
  method ArmAnswers(call: Call, fx: HandlerEffects, b: AnswerBudgets, nowMs: int)
    modifies call`timers, call`timerGeneration, fx`critical, fx`fireAndForget
    ensures call.state == Terminated ==>
      call.TimerLedger() == old(call.TimerLedger()) && fx.critical == old(fx.critical) && fx.fireAndForget == old(fx.fireAndForget)
    ensures call.state != Terminated ==>
      && Armed(call.TimerLedger(), fx.critical)
         == ArmEach(Armed(old(call.TimerLedger()), old(fx.critical)), Deadlines(old(fx.fireAndForget), b), nowMs)
      && fx.fireAndForget == NamingAll(old(fx.fireAndForget), b)
  {
    if call.state == Terminated {
      return;
    }
    var deadlines := [];
    var named := [];
    for i := 0 to |fx.fireAndForget|
      invariant fx.fireAndForget == old(fx.fireAndForget)
      invariant deadlines == Deadlines(fx.fireAndForget[..i], b)
      invariant named == NamingAll(fx.fireAndForget[..i], b)
    {
      assert fx.fireAndForget[..i + 1][..i] == fx.fireAndForget[..i];
      match DeadlineOf(fx.fireAndForget[i], b) {
        case None =>
        case Some(d) => deadlines := deadlines + [d];
      }
      named := named + [Naming(fx.fireAndForget[i], b)];
    }
    assert fx.fireAndForget[..|fx.fireAndForget|] == fx.fireAndForget;
    fx.fireAndForget := named;
    for i := 0 to |deadlines|
      invariant fx.fireAndForget == named
      invariant Armed(call.TimerLedger(), fx.critical)
             == ArmEach(Armed(old(call.TimerLedger()), old(fx.critical)), deadlines[..i], nowMs)
    {
      assert deadlines[..i + 1][..i] == deadlines[..i];
      ArmScheduled(call, fx, CallKey(deadlines[i].0), FireAt(nowMs, deadlines[i].1));
    }
    assert deadlines[..|deadlines|] == deadlines;
  }

  // ---- Screening --------------------------------------------------------

  datatype Screened = Other | Awaited | Expired(event: CallEvent) | Unawaited

  function LostHttpAnswer(id: string): CallEvent {
    Internal(ServiceHttpResult, "error", Payload(Some(id), None, None, None, Some("no_answer")))
  }

  function LostAdmitAnswer(limiterKey: string, id: string, change: nat): CallEvent {
    Internal(LimiterAdmitResult, "unavailable",
             Payload(Some(id), None, Some(AdmitReport(limiterKey, change, "unavailable")), None, None))
  }

  function LostFailureAnswer(unanswered: string): CallEvent {
    Internal(FailureTopic, "reject", Payload(None, None, None, Some(unanswered), None))
  }

  /** What a delivered fire is to the rules. */
  function Expiry(limiterKey: string, key: TimerKey): Screened {
    match key.timerType
    case ServiceHttpAnswer(id) => Expired(LostHttpAnswer(id))
    case ServiceAdmitAnswer(id, change) => Expired(LostAdmitAnswer(limiterKey, id, change))
    case FailureAnswer(_, unanswered) => Expired(LostFailureAnswer(unanswered))
    case _ => Other
  }

  function Verdict(limiterKey: string, l: Ledger, event: CallEvent): Screened {
    if event.Timer? then Expiry(limiterKey, event.key)
    else if AnswerTo(event).None? then Other
    else if OfAnotherCall(limiterKey, event) then Unawaited
    else if Taken(l.entries, Closing(AnswerTo(event).value)) == [] then Unawaited
    else Awaited
  }

  /** The ledger entries the screen takes off for an answer. */
  function Closed(limiterKey: string, l: Ledger, event: CallEvent): seq<TimerEntry> {
    if Verdict(limiterKey, l, event) == Awaited && AnswerTo(event).Some?
    then Taken(l.entries, Closing(AnswerTo(event).value)) else []
  }

  function LedgerAfter(limiterKey: string, l: Ledger, event: CallEvent): Ledger {
    if Verdict(limiterKey, l, event) == Awaited && AnswerTo(event).Some?
    then Retire(l, Closing(AnswerTo(event).value)) else l
  }

  function AwaitedAfter(limiterKey: string, rs: seq<OffTurnRequest>, event: CallEvent): seq<OffTurnRequest> {
    if OfAnotherCall(limiterKey, event) then rs else Unsettled(rs, event)
  }

  /** Several deadlines may close at once; only the last one's timer is cancelled. */
  function LastCancelled(closed: seq<TimerEntry>): seq<DriverCommand> {
    if closed == [] then [] else [CancelTimer(closed[|closed| - 1].key)]
  }

  /** Screen `event` before the rules read it. */
  method Screen(call: Call, fx: HandlerEffects, event: CallEvent) returns (screened: Screened)
    modifies call`timers, call`awaited, fx`critical
    ensures screened == Verdict(call.limiterKey, old(call.TimerLedger()), event)
    ensures call.TimerLedger() == LedgerAfter(call.limiterKey, old(call.TimerLedger()), event)
    ensures call.awaited == AwaitedAfter(call.limiterKey, old(call.awaited), event)
    ensures fx.critical == old(fx.critical) + LastCancelled(Closed(call.limiterKey, old(call.TimerLedger()), event))
  {
    if !OfAnotherCall(call.limiterKey, event) {
      Settle(call, event);
    }
    if event.Timer? {
      return Expiry(call.limiterKey, event.key);
    }
    var answer := AnswerTo(event);
    if answer.None? {
      return Other;
    }
    if OfAnotherCall(call.limiterKey, event) {
      return Unawaited;
    }
    Partition(call.timers, Closing(answer.value));
    var before := call.timers;
    var gone := call.RetireTimers(Closing(answer.value));
    if gone == [] {
      forall e | e in before ensures !Selects(Closing(answer.value), e) {
        assert Selects(Closing(answer.value), e) ==> e in gone;
      }
      KeptAll(before, Closing(answer.value));
      return Unawaited;
    }
    fx.critical := fx.critical + [CancelTimer(gone[|gone| - 1].key)];
    return Awaited;
  }

  // ---- The timer screen -------------------------------------------------

  datatype Delivery = Delivered | Superseded | Disarmed | ScopeEnded

  /** Whether a fire of `key` under `generation` reaches the call. */
  function Delivering(l: Ledger, scopeEnded: bool, key: TimerKey, generation: nat): Delivery {
    var held := Taken(l.entries, Keyed(key));
    if held == [] then Disarmed
    else if held[0].generation != generation then Delivery.Superseded
    else if scopeEnded then Delivery.ScopeEnded
    else Delivered
  }

  /** Screen a fire: a delivered one takes its entry off the ledger. */
  method TimerScreen(call: Call, key: TimerKey, generation: nat) returns (d: Delivery)
    requires Valid(call.TimerLedger())
    modifies call`timers
    ensures d == Delivering(old(call.TimerLedger()), call.Ended(key), key, generation)
    ensures call.TimerLedger() == if d == Delivered then Retire(old(call.TimerLedger()), Keyed(key)) else old(call.TimerLedger())
  {
    var es := call.timers;
    var at := 0;
    while at < |es| && !SameKey(es[at].key, key)
      invariant 0 <= at <= |es|
      invariant forall i :: 0 <= i < at ==> !SameKey(es[i].key, key)
    {
      at := at + 1;
    }
    Held(es, at, key);
    if at == |es| {
      return Disarmed;
    }
    if es[at].generation != generation {
      return Delivery.Superseded;
    }
    if call.Ended(key) {
      return Delivery.ScopeEnded;
    }
    call.timers := es[..at] + es[at + 1..];
    return Delivered;
  }

  /** The entry at the first position `key` holds is the only one it holds. */
  lemma {:induction false} Held(es: seq<TimerEntry>, at: nat, key: TimerKey)
    requires OnePerKey(es) && at <= |es|
    requires forall i :: 0 <= i < at ==> !SameKey(es[i].key, key)
    requires at < |es| ==> SameKey(es[at].key, key)
    ensures at == |es| ==> Taken(es, Keyed(key)) == []
    ensures at < |es| ==> Taken(es, Keyed(key)) == [es[at]] && Kept(es, Keyed(key)) == es[..at] + es[at + 1..]
  {
    var front, back, sel := es[..at], es[at..], Keyed(key);
    assert es == front + back;
    KeptAppend(front, back, sel);
    KeptAll(front, sel);
    TakenNone(front, sel);
    if at < |es| {
      OnlyFirstHeld(back, key);
      assert back[1..] == es[at + 1..];
    }
  }

  lemma {:induction false} OnlyFirstHeld(es: seq<TimerEntry>, key: TimerKey)
    requires OnePerKey(es) && es != [] && SameKey(es[0].key, key)
    ensures Taken(es, Keyed(key)) == [es[0]] && Kept(es, Keyed(key)) == es[1..]
  {
    var rest := es[1..];
    forall e | e in rest ensures !Selects(Keyed(key), e) {
      var i :| 0 <= i < |rest| && rest[i] == e;
      assert !SameKey(es[0].key, es[i + 1].key);
    }
    KeptAll(rest, Keyed(key));
    TakenNone(rest, Keyed(key));
  }

  lemma {:induction false} TakenNone(es: seq<TimerEntry>, sel: Selector)
    requires forall e :: e in es ==> !Selects(sel, e)
    ensures Taken(es, sel) == []
  {
    if es != [] { TakenNone(es[1..], sel); }
  }
}
