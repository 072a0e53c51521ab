/**
 * A whole turn as the core runs it on the mutable call: the screens, the rules'
 * writes, the terminal funnel and the landing pass
 * (crates/b2bua-core/src/rule_chain/mod.rs, rules/invariants.rs, landing.rs,
 * crates/b2bua/src/router/process.rs, resend.rs).
 * Each method is proved to do what the transition system of Turns says.
 */
module Landing {
  import opened Timers
  import opened CallModel
  import opened OffTurn
  import opened AnswerDeadline
  import opened AnswerLemmas
  import opened AnsweredFinals
  import opened Turns

  ghost function RecordOf(call: Call): CallRecord
    reads call
  {
    CallRecord(call.state, call.limiterKey, call.TimerLedger(), call.awaited)
  }

  /**
   * Land a turn's result: arm its answer timers, then record its requests, then
   * keep its finals.
   */
  method Land(call: Call, fx: HandlerEffects, sent: seq<Outbound>, b: AnswerBudgets, nowMs: int)
    modifies call`timers, call`timerGeneration, call`awaited, call`answered, fx`critical, fx`fireAndForget
    ensures call.answered == Retained(old(call.answered), call.state, sent, nowMs)
    ensures call.state == Terminated ==>
      && call.TimerLedger() == old(call.TimerLedger()) && call.awaited == []
      && fx.critical == old(fx.critical) && fx.fireAndForget == old(fx.fireAndForget)
    ensures call.state != Terminated ==>
      && Armed(call.TimerLedger(), fx.critical)
         == ArmEach(Armed(old(call.TimerLedger()), old(fx.critical)), Deadlines(old(fx.fireAndForget), b), nowMs)
      && call.awaited == Recorded(old(call.awaited), old(fx.fireAndForget), nowMs)
      && fx.fireAndForget == NamingAll(old(fx.fireAndForget), b)
  {
    ArmAnswers(call, fx, b, nowMs);
    if call.state != Terminated { NamingKeepsImages(call.awaited, old(fx.fireAndForget), b, nowMs); }
    Record(call, fx, nowMs);
    Retain(call, sent, nowMs);
  }

  /** Naming a consult's deadline changes no request the record takes. */
  lemma {:induction false} NamingKeepsImages(rs: seq<OffTurnRequest>, fxs: seq<OffTurnEffect>, b: AnswerBudgets, nowMs: int)
    ensures Recorded(rs, NamingAll(fxs, b), nowMs) == Recorded(rs, fxs, nowMs)
  {
    if fxs != [] {
      var front := fxs[..|fxs| - 1];
      assert NamingAll(fxs, b)[..|fxs| - 1] == NamingAll(front, b);
      NamingKeepsImages(rs, front, b, nowMs);
    }
  }

  /** One write of the rules to the ledger, handed to the driver. */
  method ApplyOne(call: Call, fx: HandlerEffects, op: TimerOp)
    modifies call`timers, call`timerGeneration, fx`critical
    ensures Armed(call.TimerLedger(), fx.critical) == Apply(Armed(old(call.TimerLedger()), old(fx.critical)), op)
  {
    match op
    case ArmOp(key, fireAt) => ArmScheduled(call, fx, key, fireAt);
    case RetireOp(sel) =>
      var gone := call.RetireTimers(sel);
      fx.critical := fx.critical + Cancels(gone);
  }

  method ApplyOps(call: Call, fx: HandlerEffects, ops: seq<TimerOp>)
    modifies call`timers, call`timerGeneration, fx`critical
    ensures Armed(call.TimerLedger(), fx.critical) == ApplyAll(Armed(old(call.TimerLedger()), old(fx.critical)), ops)
  {
    for i := 0 to |ops|
      invariant Armed(call.TimerLedger(), fx.critical) == ApplyAll(Armed(old(call.TimerLedger()), old(fx.critical)), ops[..i])
    {
      assert ops[..i + 1][..i] == ops[..i];
      ApplyOne(call, fx, ops[i]);
    }
    assert ops[..|ops|] == ops;
  }

  /** The rules' writes, the funnel of a call that ended, then the landing. */
  method RunTurn(b: AnswerBudgets, call: Call, fx: HandlerEffects, rules: Rules, sent: seq<Outbound>)
    modifies call`state, call`timers, call`timerGeneration, call`awaited, call`answered, fx`critical, fx`fireAndForget
    ensures (RecordOf(call), fx.critical) == Turn(b, old(RecordOf(call)), old(fx.critical), rules)
    ensures call.answered == Retained(old(call.answered), rules.state, sent, rules.nowMs)
    ensures fx.fireAndForget == if rules.state == Terminated then rules.effects else NamingAll(rules.effects, b)
  {
    ApplyOps(call, fx, rules.ops);
    call.state, fx.fireAndForget := rules.state, rules.effects;
    if call.state == Terminated {
      fx.critical := [CancelAllTimers] + fx.critical;
      call.timers := [];
    }
    Land(call, fx, sent, b, rules.nowMs);
    if call.state != Terminated {
      ApplyOps(call, fx, rules.late);
    }
  }

  /** A fire finds its scope ended as the call stands; other events have none. */
  ghost predicate EndedScope(call: Call, event: CallEvent)
    reads call
  {
    event.Timer? && call.Ended(event.key)
  }

  /** What the transition system takes of scopes is so: only one that can end while the call lives has ended. */
  lemma EndedScopeMayEnd(call: Call, event: CallEvent)
    requires EndedScope(call, event)
    ensures MayEnd(event.key)
  {
  }

  /** The two screens before the rules: a stale fire stops at the first. */
  method ReadEvent(call: Call, fx: HandlerEffects, event: CallEvent) returns (reaches: bool, screened: Screened)
    requires Valid(call.TimerLedger()) && fx.critical == []
    modifies call`timers, call`awaited, fx`critical
    ensures reaches == Reaches(old(RecordOf(call)), event, EndedScope(call, event))
    ensures screened == Verdict(call.limiterKey, old(call.TimerLedger()), event)
    ensures RecordOf(call) == if reaches then Read(old(RecordOf(call)), event) else old(RecordOf(call))
    ensures fx.critical == if reaches then LastCancelled(Closed(call.limiterKey, old(call.TimerLedger()), event)) else []
  {
    if event.Timer? {
      var delivery := TimerScreen(call, event.key, event.generation);
      if delivery != Delivered {
        return false, Expiry(call.limiterKey, event.key);
      }
    }
    screened := Screen(call, fx, event);
    reaches := true;
  }

  /**
   * Deliver an event to a call: the screens, then the turn, the rules reading
   * every event but an unawaited answer. What it leaves on
   * the call, and what its commands make of the driver, is the step of the
   * transition system.
   */
  method DeliverEvent(b: AnswerBudgets, call: Call, fx: HandlerEffects, event: CallEvent,
                      rules: Rules, frame: Rules, sent: seq<Outbound>, ghost w: World)
    requires RecordOf(call) == w.call && Valid(w.call.ledger) && fx.critical == []
    modifies call`state, call`timers, call`timerGeneration, call`awaited, call`answered, fx`critical, fx`fireAndForget
    ensures
      var next := Next(b, w, Deliver(event, old(EndedScope(call, event)), rules, frame));
      RecordOf(call) == next.call && RunAll(w.driver, fx.critical) == next.driver
  {
    if call.state == Terminated {
      return;
    }
    var reaches, screened := ReadEvent(call, fx, event);
    if reaches {
      RunTurn(b, call, fx, if screened == Unawaited then frame else rules, sent);
    }
    DeliveryIsTheStep(b, w, event, old(EndedScope(call, event)), rules, frame, RecordOf(call), fx.critical);
  }

  /** The step a delivered event makes, from what its screens and its turn leave. */
  lemma DeliveryIsTheStep(b: AnswerBudgets, w: World, event: CallEvent, scopeEnded: bool, rules: Rules, frame: Rules,
                          c: CallRecord, commands: seq<DriverCommand>)
    requires w.call.state != Terminated
    requires if Reaches(w.call, event, scopeEnded)
      then (c, commands) == Turn(b, Read(w.call, event), LastCancelled(Closed(w.call.limiterKey, w.call.ledger, event)),
                                 Working(w.call, event, rules, frame))
      else c == w.call && commands == []
    ensures
      var next := Next(b, w, Deliver(event, scopeEnded, rules, frame));
      c == next.call && RunAll(w.driver, commands) == next.driver
  {
  }

  /** The awaited requests to send again, and those left. */
  method Split(rs: seq<OffTurnRequest>, only: set<OffTurnRequest>) returns (again: seq<OffTurnRequest>, kept: seq<OffTurnRequest>)
    ensures again == Again(rs, only) && kept == NotAgain(rs, only)
  {
    again, kept := [], [];
    var i := |rs|;
    while i > 0
      invariant 0 <= i <= |rs| && again == Again(rs[i..], only) && kept == NotAgain(rs[i..], only)
    {
      i := i - 1;
      assert rs[i..][1..] == rs[i + 1..];
      if rs[i] in only {
        again := [rs[i]] + again;
      } else {
        kept := [rs[i]] + kept;
      }
    }
    assert rs[0..] == rs;
  }

  /** Retire the answer deadlines of `rs`, each cancelled. */
  method RetireAnswerDeadlines(call: Call, fx: HandlerEffects, rs: seq<OffTurnRequest>)
    modifies call`timers, call`timerGeneration, fx`critical
    ensures Armed(call.TimerLedger(), fx.critical) == RetireAnswers(Armed(old(call.TimerLedger()), old(fx.critical)), rs)
  {
    for i := 0 to |rs|
      invariant Armed(call.TimerLedger(), fx.critical) == RetireAnswers(Armed(old(call.TimerLedger()), old(fx.critical)), rs[..i])
    {
      assert rs[..i + 1][..i] == rs[..i];
      ApplyOne(call, fx, RetireOp(Closing(DeadlineKey(rs[i]).timerType)));
    }
    assert rs[..|rs|] == rs;
  }

  /**
   * Send again the requests a restored call awaits, the deadlines their sender
   * armed retired: the re-send step of the transition system.
   */
  method ResendAwaited(b: AnswerBudgets, call: Call, fx: HandlerEffects, only: set<OffTurnRequest>,
                       numbering: map<OffTurnRequest, Resent>, late: seq<TimerOp>, nowMs: int, ghost w: World)
    requires RecordOf(call) == w.call && fx.critical == []
    modifies call`state, call`timers, call`timerGeneration, call`awaited, call`answered, fx`critical, fx`fireAndForget
    ensures
      var next := Next(b, w, Resend(only, numbering, late, nowMs));
      RecordOf(call) == next.call && RunAll(w.driver, fx.critical) == next.driver
  {
    var again, kept := Split(call.awaited, only);
    if again == [] || call.state != Active {
      return;
    }
    call.awaited := kept;
    RetireAnswerDeadlines(call, fx, again);
    RunTurn(b, call, fx, Rules([], Active, SentAgain(call.limiterKey, again, numbering), late, nowMs), []);
    ResendIsTheStep(b, w, only, numbering, late, nowMs, RecordOf(call), fx.critical);
  }

  /** The step a re-send makes, from what its turn leaves. */
  lemma ResendIsTheStep(b: AnswerBudgets, w: World, only: set<OffTurnRequest>, numbering: map<OffTurnRequest, Resent>,
                        late: seq<TimerOp>, nowMs: int, c: CallRecord, commands: seq<DriverCommand>)
    requires w.call.state == Active && Again(w.call.awaited, only) != []
    requires
      var again := Again(w.call.awaited, only);
      var retired := RetireAnswers(Armed(w.call.ledger, []), again);
      (c, commands) == Turn(b, w.call.(ledger := retired.ledger, awaited := NotAgain(w.call.awaited, only)), retired.commands,
                            Rules([], Active, SentAgain(w.call.limiterKey, again, numbering), late, nowMs))
    ensures
      var next := Next(b, w, Resend(only, numbering, late, nowMs));
      c == next.call && RunAll(w.driver, commands) == next.driver
  {
  }
}
