/**
 * What one turn of the off-turn protocol arms, records, cancels and sends again,
 * said field by field and not through the functions that decide it.
 */
module Steps {
  import opened Wrappers
  import opened Timers
  import opened CallModel
  import opened OffTurn
  import opened AnswerDeadline
  import opened AnswerLemmas
  import opened Turns
  import opened Runs
  import Int64

  // ---- How long each answer is waited for -------------------------------

  /** `key` is the timer that guards the answer owed for `fx` under the budgets `b`. */
  predicate Guards(fx: OffTurnEffect, b: AnswerBudgets, key: TimerKey) {
    match fx
    case ReferAsyncHttp(_) => false
    case ServiceHttpRequest(id, _, _) => key == TimerKey(ServiceHttpAnswer(id), CallScope)
    case LimiterAdmit(id, _, change) => key == TimerKey(ServiceAdmitAnswer(id, change), CallScope)
    case FailureAsyncHttp(request, limiter, _) =>
      b.failure.Some? && key == TimerKey(FailureAnswer(limiter.firstChange, request.failedLegId), CallScope)
    case ReleaseAsyncHttp(_, limiter, _) => b.release.Some? && key == TimerKey(ReleaseAnswer(limiter.firstChange), CallScope)
    case Reenter(event) =>
      && event.Internal? && event.payload.correlationId.Some?
      && var id := event.payload.correlationId.value;
         var change := if event.payload.report.Some? then event.payload.report.value.change else 0;
         || (event.topic.ServiceHttpResult? && key == TimerKey(ServiceHttpAnswer(id), CallScope))
         || (event.topic.LimiterAdmitResult? && key == TimerKey(ServiceAdmitAnswer(id, change), CallScope))
  }

  /** How long the answer owed for `fx` may take, the margin aside. */
  function Allowance(fx: OffTurnEffect, b: AnswerBudgets): nat {
    match fx
    case ServiceHttpRequest(_, _, timeoutMs) => if timeoutMs.Some? then timeoutMs.value else b.http
    case LimiterAdmit(_, _, _) => b.admit
    case FailureAsyncHttp(_, _, _) => if b.failure.Some? then b.failure.value else 0
    case ReleaseAsyncHttp(_, _, _) => if b.release.Some? then b.release.value else 0
    case ReferAsyncHttp(_) => 0
    case Reenter(_) => 0
  }

  /** What is armed for an effect is the timer that guards it, for its allowance. */
  lemma DeadlineGuards(fx: OffTurnEffect, b: AnswerBudgets, key: TimerKey)
    ensures Guards(fx, b, key) <==> DeadlineOf(fx, b).Some? && CallKey(DeadlineOf(fx, b).value.0) == key
    ensures DeadlineOf(fx, b).Some? ==> DeadlineOf(fx, b).value.1 == Allowance(fx, b)
  {
  }

  lemma {:induction false} DeadlinesAppend(xs: seq<OffTurnEffect>, ys: seq<OffTurnEffect>, b: AnswerBudgets)
    ensures Deadlines(xs + ys, b) == Deadlines(xs, b) + Deadlines(ys, b)
  {
    if ys == [] {
      assert xs + ys == xs;
    } else {
      var front := ys[..|ys| - 1];
      assert (xs + ys)[..|xs + ys| - 1] == xs + front;
      DeadlinesAppend(xs, front, b);
    }
  }

  lemma {:induction false} ArmEachAppend(a: Armed, ds: seq<(TimerType, nat)>, es: seq<(TimerType, nat)>, nowMs: int)
    ensures ArmEach(a, ds + es, nowMs) == ArmEach(ArmEach(a, ds, nowMs), es, nowMs)
  {
    if es == [] {
      assert ds + es == ds;
    } else {
      var front := es[..|es| - 1];
      assert (ds + es)[..|ds + es| - 1] == ds + front;
      ArmEachAppend(a, ds, front, nowMs);
    }
  }

  /** No effect of `fxs` is guarded under the identity of `key`. */
  ghost predicate NoneGuards(fxs: seq<OffTurnEffect>, b: AnswerBudgets, key: TimerKey) {
    forall fx, k :: fx in fxs && Guards(fx, b, k) ==> !SameKey(k, key)
  }

  /** The entry is armed for the answer to `fx` sent at `nowMs`. */
  ghost predicate ArmedFor(e: TimerEntry, fx: OffTurnEffect, b: AnswerBudgets, key: TimerKey, nowMs: int, after: nat) {
    e.key == key && e.fireAt == FireAt(nowMs, Allowance(fx, b)) && e.generation > after
  }

  /** Of the effects of a turn, the last under a key is the one its deadline is armed for. */
  lemma {:induction false} ArmedLast(a: Armed, before: seq<OffTurnEffect>, fx: OffTurnEffect, after: seq<OffTurnEffect>, b: AnswerBudgets,
                                     nowMs: int, key: TimerKey)
    requires Guards(fx, b, key) && NoneGuards(after, b, key)
    ensures exists e :: e in ArmEach(a, Deadlines(before + [fx] + after, b), nowMs).ledger.entries
                     && ArmedFor(e, fx, b, key, nowMs, a.ledger.generation)
  {
    DeadlineGuards(fx, b, key);
    var d := DeadlineOf(fx, b).value;
    DeadlinesSplit(before, fx, after, b);
    forall x | x in Deadlines(after, b) ensures !SameKey(CallKey(d.0), CallKey(x.0)) {
      DeadlinesOf(after, b, x);
      var other :| other in after && DeadlineOf(other, b) == Some(x);
      DeadlineGuards(other, b, CallKey(x.0));
    }
    ArmedThenKept(a, Deadlines(before, b), d, Deadlines(after, b), nowMs);
    var e := TimerEntry(CallKey(d.0), a.ledger.generation + |Deadlines(before, b)| + 1, FireAt(nowMs, d.1));
    assert ArmedFor(e, fx, b, key, nowMs, a.ledger.generation);
  }

  lemma {:induction false} DeadlinesSplit(before: seq<OffTurnEffect>, fx: OffTurnEffect, after: seq<OffTurnEffect>, b: AnswerBudgets)
    requires DeadlineOf(fx, b).Some?
    ensures Deadlines(before + [fx] + after, b) == Deadlines(before, b) + [DeadlineOf(fx, b).value] + Deadlines(after, b)
  {
    DeadlinesAppend(before, [fx], b);
    DeadlinesAppend(before + [fx], after, b);
    assert [fx][..0] == [];
  }

  /** A deadline armed before others of other keys is still there after them. */
  lemma {:induction false} ArmedThenKept(a: Armed, ds: seq<(TimerType, nat)>, d: (TimerType, nat), more: seq<(TimerType, nat)>, nowMs: int)
    requires forall x :: x in more ==> !SameKey(CallKey(d.0), CallKey(x.0))
    ensures TimerEntry(CallKey(d.0), a.ledger.generation + |ds| + 1, FireAt(nowMs, d.1)) in ArmEach(a, ds + [d] + more, nowMs).ledger.entries
  {
    ArmEachAppend(a, ds + [d], more, nowMs);
    ArmEachCounts(a, ds, nowMs);
    assert (ds + [d])[..|ds|] == ds;
    var first := ArmEach(a, ds + [d], nowMs);
    var e := TimerEntry(CallKey(d.0), a.ledger.generation + |ds| + 1, FireAt(nowMs, d.1));
    assert e in first.ledger.entries;
    ArmEachKeeps(first, more, nowMs, e);
  }

  /**
   * After a turn on a call that lives on, each request it sent is guarded until
   * the end of its own allowance: the request's own timeout or the HTTP budget,
   * the admit budget, the consult's budget; at once for an answer re-entered.
   */
  lemma {:induction false} SentIsTimed(b: AnswerBudgets, c: CallRecord, commands: seq<DriverCommand>, r: Rules,
                                       before: seq<OffTurnEffect>, fx: OffTurnEffect, after: seq<OffTurnEffect>, key: TimerKey)
    requires AnswersOnCall(c.ledger) && AllLeaveAnswers(r.ops) && AllLeaveAnswers(r.late) && r.state != Terminated
    requires r.effects == before + [fx] + after && Guards(fx, b, key) && NoneGuards(after, b, key)
    ensures exists e :: e in Turn(b, c, commands, r).0.ledger.entries && ArmedFor(e, fx, b, key, r.nowMs, c.ledger.generation)
  {
    var a := Armed(c.ledger, commands);
    var ruled := ApplyAll(a, r.ops);
    OpsKeepAnswers(a, r.ops);
    OpsCount(a, r.ops);
    ArmedLast(ruled, before, fx, after, b, r.nowMs, key);
    var armed := ArmEach(ruled, Deadlines(r.effects, b), r.nowMs);
    var e :| e in armed.ledger.entries && ArmedFor(e, fx, b, key, r.nowMs, ruled.ledger.generation);
    ArmEachOnCall(ruled, Deadlines(r.effects, b), r.nowMs);
    OpsKeepAnswers(armed, r.late);
    assert e in ApplyAll(armed, r.late).ledger.entries && ArmedFor(e, fx, b, key, r.nowMs, c.ledger.generation);
  }

  lemma {:induction false} OpsCount(a: Armed, ops: seq<TimerOp>)
    ensures ApplyAll(a, ops).ledger.generation >= a.ledger.generation
  {
    if ops != [] { OpsCount(a, ops[..|ops| - 1]); }
  }

  /**
   * A failure consult under the budget of its decision and admit bounds is
   * guarded by an entry that any chain within those bounds is answered before.
   */
  lemma {:induction false} ConsultAnswersInTime(b: AnswerBudgets, c: CallRecord, commands: seq<DriverCommand>, r: Rules,
                                                before: seq<OffTurnEffect>, fx: OffTurnEffect, after: seq<OffTurnEffect>, key: TimerKey,
                                                chain: seq<Round>, decision: nat, admit: nat)
    requires AnswersOnCall(c.ledger) && AllLeaveAnswers(r.ops) && AllLeaveAnswers(r.late) && r.state != Terminated
    requires r.effects == before + [fx] + after && Guards(fx, b, key) && NoneGuards(after, b, key)
    requires decision > 0 && b.failure == FailureBudget(decision, admit) && b.release == ReleaseBudget(decision, admit)
    requires (fx.FailureAsyncHttp? && |chain| <= FAILURE_CHAIN) || (fx.ReleaseAsyncHttp? && |chain| <= 1)
    requires forall x :: x in chain ==> x.consult <= decision && x.admit <= admit + ADMIT_SLACK
    requires Int64.MIN <= r.nowMs <= Int64.MAX
    ensures exists e :: e in Turn(b, c, commands, r).0.ledger.entries && e.key == key && InTime(r.nowMs, Elapsed(chain), e.fireAt)
  {
    SentIsTimed(b, c, commands, r, before, fx, after, key);
    ChainAnswersInTime(chain, decision, admit, r.nowMs);
  }

  // ---- What is on the record --------------------------------------------

  /** The last request of its identity a turn sends stands on the record as sent. */
  lemma {:induction false} RecordedLast(rs: seq<OffTurnRequest>, fxs: seq<OffTurnEffect>, i: nat, nowMs: int)
    requires i < |fxs| && ImageOf(fxs[i], nowMs).Some?
    requires forall j :: i < j < |fxs| && ImageOf(fxs[j], nowMs).Some? ==> !SameRequest(ImageOf(fxs[i], nowMs).value, ImageOf(fxs[j], nowMs).value)
    ensures ImageOf(fxs[i], nowMs).value in Recorded(rs, fxs, nowMs)
  {
    var last, front := fxs[|fxs| - 1], fxs[..|fxs| - 1];
    if i < |fxs| - 1 {
      assert front[i] == fxs[i];
      RecordedLast(rs, front, i, nowMs);
      if ImageOf(last, nowMs).Some? {
        WithoutSameMembers(Recorded(rs, front, nowMs), ImageOf(last, nowMs).value);
      }
    }
  }

  /** After a turn on a call that lives on, every request it sent is awaited. */
  lemma {:induction false} SentIsAwaited(b: AnswerBudgets, c: CallRecord, commands: seq<DriverCommand>, r: Rules, fx: OffTurnEffect)
    requires r.state != Terminated && fx in r.effects && ImageOf(fx, r.nowMs).Some?
    ensures exists x :: x in Turn(b, c, commands, r).0.awaited && SameRequest(x, ImageOf(fx, r.nowMs).value)
  {
    RecordedAll(c.awaited, r.effects, r.nowMs, fx);
  }

  /** A call that ended owes nothing and waits for nothing, and its timers are gone from any driver. */
  lemma {:induction false} EndedOwesNothing(b: AnswerBudgets, c: CallRecord, commands: seq<DriverCommand>, r: Rules, d: Driver, other: Driver)
    requires r.state == Terminated
    ensures
      var t := Turn(b, c, commands, r);
      t.0.ledger.entries == [] && t.0.awaited == [] && RunAll(d, t.1) == RunAll(other, t.1)
  {
    var rest := ApplyAll(Armed(c.ledger, commands), r.ops).commands;
    RunAllAppend(d, [CancelAllTimers], rest);
    RunAllAppend(other, [CancelAllTimers], rest);
    assert [CancelAllTimers][..0] == [];
  }

  // ---- What is cancelled ------------------------------------------------

  lemma {:induction false} CancelsCancel(d: Driver, es: seq<TimerEntry>, e: TimerEntry)
    requires e in es
    ensures Identity(e.key) !in RunAll(d, Cancels(es))
  {
    var front, last := es[..|es| - 1], es[|es| - 1];
    assert Cancels(es)[..|es| - 1] == Cancels(front);
    if e in front {
      CancelsCancel(d, front, e);
    }
  }

  /** What is retired leaves the driver. */
  lemma {:induction false} RetiredLeavesTheDriver(a: Armed, sel: Selector, d: Driver, e: TimerEntry)
    requires e in a.ledger.entries && Selects(sel, e)
    ensures Identity(e.key) !in RunAll(d, RetireCancelled(a, sel).commands)
  {
    var gone := Taken(a.ledger.entries, sel);
    Partition(a.ledger.entries, sel);
    RunAllAppend(d, a.commands, Cancels(gone));
    CancelsCancel(RunAll(d, a.commands), gone, e);
  }

  /** An awaited answer's deadline leaves the driver: the one it closes, and of several the last armed. */
  lemma {:induction false} AnsweredLeavesTheDriver(limiterKey: string, l: Ledger, event: CallEvent, d: Driver)
    requires Verdict(limiterKey, l, event) == Awaited
    ensures
      var closed := Closed(limiterKey, l, event);
      && closed != []
      && Identity(closed[|closed| - 1].key) !in RunAll(d, LastCancelled(closed))
      && (forall e :: e in l.entries && Closes(e.key.timerType, AnswerTo(event).value) ==> e in closed)
  {
    var closed := Closed(limiterKey, l, event);
    Partition(l.entries, Closing(AnswerTo(event).value));
    assert LastCancelled(closed)[..0] == [];
  }

  // ---- What is sent again -----------------------------------------------

  /** `fx` sends `r` again under the numbering `n`: its own payload, and the new change number where it has one. */
  predicate SendsAgain(limiterKey: string, r: OffTurnRequest, n: Resent, fx: OffTurnEffect) {
    match r
    case Refer(referred, _) => fx.ReferAsyncHttp? && fx.referred == referred
    case ServiceHttp(id, image, timeoutMs) =>
      fx.ServiceHttpRequest? && fx.correlationId == id && fx.image == image && fx.timeoutMs == timeoutMs
    case Failure(request, _) =>
      fx.FailureAsyncHttp? && fx.request == request && fx.limiter.firstChange == n.change && fx.limiter.mayHold == n.mayHold
    case Release(released, _) =>
      fx.ReleaseAsyncHttp? && fx.released == released && fx.limiter.firstChange == n.change && fx.limiter.mayHold == n.mayHold
    case Admit(id, entries, change) =>
      if n.superseded then
        && fx.Reenter? && fx.event.Internal? && fx.event.topic.LimiterAdmitResult? && fx.event.outcome == "superseded"
        && fx.event.payload.correlationId == Some(id)
        && fx.event.payload.report == Some(AdmitReport(limiterKey, change, "superseded"))
      else fx.LimiterAdmit? && fx.correlationId == id && fx.entries == entries && fx.change == n.change
  }

  /** A re-send sends each request it was asked for, in order, and nothing else. */
  lemma {:induction false} ResendSendsEach(w: World, only: set<OffTurnRequest>, numbering: map<OffTurnRequest, Resent>, late: seq<TimerOp>, nowMs: int)
    ensures
      var again, sent := Again(w.call.awaited, only), Sends(w, Resend(only, numbering, late, nowMs));
      && |sent| == |again|
      && (forall i :: 0 <= i < |again| ==> SendsAgain(w.call.limiterKey, again[i], Number(numbering, again[i]), sent[i]))
      && (forall r :: r in again <==> r in w.call.awaited && r in only)
  {
    AgainSplits(w.call.awaited, only);
  }

  /** `x` on the record is `r` sent again at `nowMs` under the numbering `n`. */
  predicate IsAgain(r: OffTurnRequest, n: Resent, x: OffTurnRequest, nowMs: int) {
    match r
    case Refer(referred, _) => x == Refer(referred, nowMs)
    case ServiceHttp(_, _, _) => x == r
    case Failure(request, _) => x == Failure(request, ConsultAdmits(n.change, n.mayHold))
    case Release(released, _) => x == Release(released, ConsultAdmits(n.change, n.mayHold))
    case Admit(id, entries, _) => !n.superseded && x == Admit(id, entries, n.change)
  }

  lemma AgainImage(limiterKey: string, r: OffTurnRequest, n: Resent, nowMs: int)
    ensures
      var image := ImageOf(EffectAgain(limiterKey, r, n), nowMs);
      if r.Admit? && n.superseded then image.None? else image.Some? && IsAgain(r, n, image.value, nowMs)
  {
  }

  /** Sending what the record keeps of an effect, under the numbers it had, is the effect again, no deadline named. */
  lemma ImageSentIsTheEffect(limiterKey: string, fx: OffTurnEffect, nowMs: int)
    requires ImageOf(fx, nowMs).Some?
    ensures
      var r := ImageOf(fx, nowMs).value;
      match fx
      case FailureAsyncHttp(request, limiter, _) =>
        EffectAgain(limiterKey, r, Resent(limiter.firstChange, limiter.mayHold, false)) == FailureAsyncHttp(request, limiter, None)
      case ReleaseAsyncHttp(released, limiter, _) =>
        EffectAgain(limiterKey, r, Resent(limiter.firstChange, limiter.mayHold, false)) == ReleaseAsyncHttp(released, limiter, None)
      case LimiterAdmit(_, _, change) => EffectAgain(limiterKey, r, Resent(change, false, false)) == fx
      case ReferAsyncHttp(_) => EffectAgain(limiterKey, r, Resent(0, false, false)) == fx && r.sentAtMs == nowMs
      case ServiceHttpRequest(_, _, _) => EffectAgain(limiterKey, r, Resent(0, false, false)) == fx
      case Reenter(_) => true
  {
  }

  /** The re-send numbers consults of one kind apart. */
  ghost predicate NumberedApart(again: seq<OffTurnRequest>, numbering: map<OffTurnRequest, Resent>) {
    forall i, j :: 0 <= i < j < |again| && ((again[i].Failure? && again[j].Failure?) || (again[i].Release? && again[j].Release?)) ==>
      Number(numbering, again[i]).change != Number(numbering, again[j]).change
  }

  lemma {:induction false} AgainDistinct(rs: seq<OffTurnRequest>, only: set<OffTurnRequest>)
    requires Distinct(rs)
    ensures Distinct(Again(rs, only))
  {
    if rs != [] {
      var rest := rs[1..];
      assert forall i :: 0 <= i < |rest| ==> rest[i] == rs[i + 1];
      AgainDistinct(rest, only);
      AgainSplits(rest, only);
      var kept := Again(rest, only);
      forall i | 0 <= i < |kept| ensures !SameRequest(rs[0], kept[i]) {
        assert kept[i] in rest;
      }
    }
  }

  lemma ImagesApart(limiterKey: string, r: OffTurnRequest, n: Resent, q: OffTurnRequest, m: Resent, nowMs: int)
    requires !SameRequest(r, q) && ((r.Failure? && q.Failure?) || (r.Release? && q.Release?) ==> n.change != m.change)
    requires ImageOf(EffectAgain(limiterKey, r, n), nowMs).Some? && ImageOf(EffectAgain(limiterKey, q, m), nowMs).Some?
    ensures !SameRequest(ImageOf(EffectAgain(limiterKey, r, n), nowMs).value, ImageOf(EffectAgain(limiterKey, q, m), nowMs).value)
  {
  }

  /**
   * After a re-send each request sent again is on the record as itself under its
   * new number, save an admit a later change superseded.
   */
  lemma {:induction false} ResentIsAwaited(b: AnswerBudgets, w: World, only: set<OffTurnRequest>, numbering: map<OffTurnRequest, Resent>,
                                           late: seq<TimerOp>, nowMs: int)
    requires w.call.state == Active && Distinct(w.call.awaited) && NumberedApart(Again(w.call.awaited, only), numbering)
    ensures
      var again, awaited := Again(w.call.awaited, only), Next(b, w, Resend(only, numbering, late, nowMs)).call.awaited;
      forall r :: r in again && !(r.Admit? && Number(numbering, r).superseded) ==>
        exists x :: x in awaited && IsAgain(r, Number(numbering, r), x, nowMs)
  {
    var again := Again(w.call.awaited, only);
    var fxs, kept := SentAgain(w.call.limiterKey, again, numbering), NotAgain(w.call.awaited, only);
    forall r | r in again && !(r.Admit? && Number(numbering, r).superseded)
      ensures exists x :: x in Recorded(kept, fxs, nowMs) && IsAgain(r, Number(numbering, r), x, nowMs)
    {
      AgainDistinct(w.call.awaited, only);
      var i :| 0 <= i < |again| && again[i] == r;
      AgainRecorded(w.call.limiterKey, kept, again, numbering, i, nowMs);
    }
  }

  lemma {:induction false} AgainRecorded(limiterKey: string, kept: seq<OffTurnRequest>, again: seq<OffTurnRequest>,
                                         numbering: map<OffTurnRequest, Resent>, i: nat, nowMs: int)
    requires i < |again| && Distinct(again) && NumberedApart(again, numbering)
    requires !(again[i].Admit? && Number(numbering, again[i]).superseded)
    ensures exists x :: x in Recorded(kept, SentAgain(limiterKey, again, numbering), nowMs) && IsAgain(again[i], Number(numbering, again[i]), x, nowMs)
  {
    var fxs := SentAgain(limiterKey, again, numbering);
    AgainImage(limiterKey, again[i], Number(numbering, again[i]), nowMs);
    forall j | i < j < |fxs| && ImageOf(fxs[j], nowMs).Some?
      ensures !SameRequest(ImageOf(fxs[i], nowMs).value, ImageOf(fxs[j], nowMs).value)
    {
      ImagesApart(limiterKey, again[i], Number(numbering, again[i]), again[j], Number(numbering, again[j]), nowMs);
    }
    RecordedLast(kept, fxs, i, nowMs);
  }

  /** Nothing is on the record after a re-send but what it left alone and what it sent. */
  lemma {:induction false} NothingElseIsAwaited(b: AnswerBudgets, w: World, only: set<OffTurnRequest>, numbering: map<OffTurnRequest, Resent>,
                                                late: seq<TimerOp>, nowMs: int, x: OffTurnRequest)
    requires w.call.state == Active && x in Next(b, w, Resend(only, numbering, late, nowMs)).call.awaited
    ensures || (x in w.call.awaited && x !in only)
            || exists r :: r in w.call.awaited && r in only && IsAgain(r, Number(numbering, r), x, nowMs)
  {
    var again, kept := Again(w.call.awaited, only), NotAgain(w.call.awaited, only);
    AgainSplits(w.call.awaited, only);
    if again == [] {
      assert x in w.call.awaited;
    } else {
      var fxs := SentAgain(w.call.limiterKey, again, numbering);
      RecordedFrom(kept, fxs, nowMs, x);
      if x !in kept {
        var fx :| fx in fxs && ImageOf(fx, nowMs) == Some(x);
        var i :| 0 <= i < |fxs| && fxs[i] == fx;
        AgainImage(w.call.limiterKey, again[i], Number(numbering, again[i]), nowMs);
        assert again[i] in again;
      }
    }
  }
}
