/**
 * What arming the turn's deadlines and screening an answer do to the ledger and
 * the record, one call at a time. Whole runs are in Turns.
 */
module AnswerLemmas {
  import opened Wrappers
  import opened Timers
  import opened CallModel
  import opened OffTurn
  import opened AnswerDeadline
  import Int64

  // ---- Arming -----------------------------------------------------------

  lemma {:induction false} DeadlinesOf(fxs: seq<OffTurnEffect>, b: AnswerBudgets, d: (TimerType, nat))
    ensures d in Deadlines(fxs, b) <==> exists fx :: fx in fxs && DeadlineOf(fx, b) == Some(d)
  {
    if fxs != [] {
      var front, last := fxs[..|fxs| - 1], fxs[|fxs| - 1];
      DeadlinesOf(front, b, d);
      assert fxs == front + [last];
      if d in Deadlines(fxs, b) && d !in Deadlines(front, b) {
        assert DeadlineOf(last, b) == Some(d) && last in fxs;
      }
    }
  }

  /** Arming keeps the ledger's form and only moves its counter forward. */
  lemma {:induction false} ArmEachValid(a: Armed, ds: seq<(TimerType, nat)>, nowMs: int)
    requires Valid(a.ledger)
    ensures Valid(ArmEach(a, ds, nowMs).ledger)
    ensures ArmEach(a, ds, nowMs).ledger.generation == a.ledger.generation + |ds|
  {
    if ds != [] {
      var front, d := ds[..|ds| - 1], ds[|ds| - 1];
      ArmEachValid(a, front, nowMs);
      ArmValid(ArmEach(a, front, nowMs).ledger, CallKey(d.0), FireAt(nowMs, d.1));
    }
  }

  /** Every deadline asked for is armed under a generation of this turn. */
  lemma {:induction false} ArmEachHolds(a: Armed, ds: seq<(TimerType, nat)>, nowMs: int, t: TimerType)
    requires exists d :: d in ds && SameKey(CallKey(d.0), CallKey(t))
    ensures exists e :: e in ArmEach(a, ds, nowMs).ledger.entries
                     && SameKey(e.key, CallKey(t)) && e.generation > a.ledger.generation
  {
    var front, last := ds[..|ds| - 1], ds[|ds| - 1];
    var before := ArmEach(a, front, nowMs);
    ArmEachCounts(a, front, nowMs);
    var armed := TimerEntry(CallKey(last.0), before.ledger.generation + 1, FireAt(nowMs, last.1));
    assert armed in ArmEach(a, ds, nowMs).ledger.entries;
    if !SameKey(CallKey(last.0), CallKey(t)) {
      var d :| d in ds && SameKey(CallKey(d.0), CallKey(t));
      assert d in front;
      ArmEachHolds(a, front, nowMs, t);
      var e :| e in before.ledger.entries && SameKey(e.key, CallKey(t)) && e.generation > a.ledger.generation;
      Partition(before.ledger.entries, Keyed(CallKey(last.0)));
      assert e in ArmEach(a, ds, nowMs).ledger.entries;
    }
  }

  lemma {:induction false} ArmEachCounts(a: Armed, ds: seq<(TimerType, nat)>, nowMs: int)
    ensures ArmEach(a, ds, nowMs).ledger.generation == a.ledger.generation + |ds|
  {
    if ds != [] { ArmEachCounts(a, ds[..|ds| - 1], nowMs); }
  }

  /** What the ledger holds after arming was there before, or is a deadline asked for. */
  lemma {:induction false} ArmEachFrom(a: Armed, ds: seq<(TimerType, nat)>, nowMs: int, e: TimerEntry)
    requires e in ArmEach(a, ds, nowMs).ledger.entries
    ensures e in a.ledger.entries
         || (a.ledger.generation < e.generation
             && exists d :: d in ds && e.key == CallKey(d.0) && e.fireAt == FireAt(nowMs, d.1))
  {
    if ds != [] {
      var front, last := ds[..|ds| - 1], ds[|ds| - 1];
      var before := ArmEach(a, front, nowMs);
      Partition(before.ledger.entries, Keyed(CallKey(last.0)));
      if e in before.ledger.entries {
        ArmEachFrom(a, front, nowMs, e);
        if e !in a.ledger.entries {
          var d :| d in front && e.key == CallKey(d.0) && e.fireAt == FireAt(nowMs, d.1);
          assert d in ds;
        }
      } else {
        ArmEachCounts(a, front, nowMs);
        assert last in ds;
      }
    }
  }

  /** Arming drops an entry only for a new instance of its own key. */
  lemma {:induction false} ArmEachKeeps(a: Armed, ds: seq<(TimerType, nat)>, nowMs: int, e: TimerEntry)
    requires e in a.ledger.entries
    requires forall d :: d in ds ==> !SameKey(e.key, CallKey(d.0))
    ensures e in ArmEach(a, ds, nowMs).ledger.entries
  {
    if ds != [] {
      var front, last := ds[..|ds| - 1], ds[|ds| - 1];
      assert last in ds;
      forall d | d in front ensures !SameKey(e.key, CallKey(d.0)) { assert d in ds; }
      ArmEachKeeps(a, front, nowMs, e);
      Partition(ArmEach(a, front, nowMs).ledger.entries, Keyed(CallKey(last.0)));
    }
  }

  /** A key the ledger held, it still holds. */
  lemma {:induction false} ArmEachHeld(a: Armed, ds: seq<(TimerType, nat)>, nowMs: int, key: TimerKey)
    requires Holds(a.ledger, key)
    ensures Holds(ArmEach(a, ds, nowMs).ledger, key)
  {
    var e :| e in a.ledger.entries && SameKey(e.key, key);
    if d :| d in ds && SameKey(e.key, CallKey(d.0)) {
      ArmEachHolds(a, ds, nowMs, d.0);
      var n :| n in ArmEach(a, ds, nowMs).ledger.entries && SameKey(n.key, CallKey(d.0));
      assert SameKey(n.key, key);
    } else {
      ArmEachKeeps(a, ds, nowMs, e);
    }
  }

  // ---- The timer screen -------------------------------------------------

  /**
   * Each fate of a fire exactly: delivered while its instance is held and its
   * scope lives, dropped for its scope only when held, superseded when its key is
   * held under another generation, disarmed when it is not held at all.
   */
  lemma {:induction false} FireFates(l: Ledger, scopeEnded: bool, key: TimerKey, generation: nat)
    requires Valid(l)
    ensures
      var fate, held := Delivering(l, scopeEnded, key, generation), HoldsInstance(l, (Identity(key), generation));
      && (fate == Delivered <==> held && !scopeEnded)
      && (fate == Delivery.ScopeEnded <==> held && scopeEnded)
      && (fate == Delivery.Superseded <==> Holds(l, key) && !held)
      && (fate == Disarmed <==> !Holds(l, key))
  {
    Partition(l.entries, Keyed(key));
    var held := Taken(l.entries, Keyed(key));
    if held != [] {
      assert held[0] in held;
      forall e | e in l.entries && SameKey(e.key, key) ensures e == held[0] {
        SameEntry(l, e, held[0]);
      }
    }
  }

  // ---- A request and its deadline ---------------------------------------

  /** The key of the deadline a request on the record awaits its answer by. */
  function DeadlineKey(r: OffTurnRequest): TimerKey {
    match r
    case ServiceHttp(id, _, _) => CallKey(ServiceHttpAnswer(id))
    case Admit(id, _, change) => CallKey(ServiceAdmitAnswer(id, change))
    case Failure(_, limiter) => CallKey(FailureAnswer(limiter.firstChange, ""))
    case Release(_, limiter) => CallKey(ReleaseAnswer(limiter.firstChange))
    case Refer(_, _) => CallKey(Core("refer-subscription-expiry"))
  }

  /** Whether a request on the record has a deadline under `b`. */
  predicate Bounded(r: OffTurnRequest, b: AnswerBudgets) {
    match r
    case ServiceHttp(_, _, _) => true
    case Admit(_, _, _) => true
    case Failure(_, _) => b.failure.Some?
    case Release(_, _) => b.release.Some?
    case Refer(_, _) => false
  }

  /** Each awaited request that has a deadline has its own in the ledger. */
  ghost predicate Covered(l: Ledger, rs: seq<OffTurnRequest>, b: AnswerBudgets) {
    forall r :: r in rs && Bounded(r, b) ==> Holds(l, DeadlineKey(r))
  }

  /** The effect that sends a request arms the deadline the record expects. */
  lemma ImageDeadline(fx: OffTurnEffect, nowMs: int, b: AnswerBudgets)
    requires ImageOf(fx, nowMs).Some?
    ensures DeadlineOf(fx, b).Some? <==> Bounded(ImageOf(fx, nowMs).value, b)
    ensures DeadlineOf(fx, b).Some? ==>
      SameKey(CallKey(DeadlineOf(fx, b).value.0), DeadlineKey(ImageOf(fx, nowMs).value))
  {
  }

  /** Landing the requests of a turn keeps every awaited request covered. */
  lemma {:induction false} LandingCovers(a: Armed, rs: seq<OffTurnRequest>, fxs: seq<OffTurnEffect>, b: AnswerBudgets, nowMs: int)
    requires Covered(a.ledger, rs, b)
    ensures Covered(ArmEach(a, Deadlines(fxs, b), nowMs).ledger, Recorded(rs, fxs, nowMs), b)
  {
    var ds := Deadlines(fxs, b);
    forall r | r in Recorded(rs, fxs, nowMs) && Bounded(r, b)
      ensures Holds(ArmEach(a, ds, nowMs).ledger, DeadlineKey(r))
    {
      RecordedFrom(rs, fxs, nowMs, r);
      if r in rs {
        ArmEachHeld(a, ds, nowMs, DeadlineKey(r));
      } else {
        var fx :| fx in fxs && ImageOf(fx, nowMs) == Some(r);
        ImageDeadline(fx, nowMs, b);
        var d := DeadlineOf(fx, b).value;
        DeadlinesOf(fxs, b, d);
        ArmEachHolds(a, ds, nowMs, d.0);
      }
    }
  }

  /**
   * The two indexes agree though their keys differ: a request an answer or an
   * expiry settles has its deadline closed by that answer.
   */
  lemma SettledIsClosed(event: CallEvent, r: OffTurnRequest)
    requires event.Internal? && Settles(event, r) && AnswerTo(event).Some?
    ensures Closes(DeadlineKey(r).timerType, AnswerTo(event).value)
  {
  }

  /** A request left on the record keeps its deadline: what closes it would settle it. */
  lemma ClosedIsSettled(event: CallEvent, r: OffTurnRequest)
    requires event.Internal? && AnswerTo(event).Some?
    requires Closes(DeadlineKey(r).timerType, AnswerTo(event).value)
    ensures Settles(event, r)
  {
  }

  /** The kind of deadline an event is about: the one it answers, or the one that fired. */
  function AboutDeadline(event: CallEvent): Option<TimerType> {
    if event.Timer? then (if IsAnswerDeadline(event.key.timerType) then Some(event.key.timerType) else None)
    else AnswerTo(event)
  }

  /** An event about a deadline settles exactly the requests that await their answer by one it closes. */
  lemma SettlesWhatItCloses(event: CallEvent, r: OffTurnRequest)
    requires AboutDeadline(event).Some?
    ensures Settles(event, r) <==> Closes(DeadlineKey(r).timerType, AboutDeadline(event).value)
  {
  }

  /** What an event about no deadline settles: a REFER's answer the REFER, a fold naming none every consult of its kind. */
  lemma SettlesWithoutDeadline(event: CallEvent, r: OffTurnRequest)
    requires AboutDeadline(event).None?
    ensures Settles(event, r) <==>
      && event.Internal?
      && (match event.topic
          case ReferTopic => r.Refer?
          case FailureTopic => r.Failure?
          case ReleaseTopic => r.Release?
          case ServiceHttpResult => r.ServiceHttp? && r.correlationId == ""
          case LimiterAdmitResult => r.Admit? && r.correlationId == ""
          case OtherTopic(_) => false)
  {
  }

  /** Which events carry an admit's report, by topic and outcome; one under another key is another call's. */
  lemma AnotherCallsReport(limiterKey: string, event: CallEvent)
    ensures OfAnotherCall(limiterKey, event) <==>
      && event.Internal? && event.payload.report.Some? && event.payload.report.value.key != limiterKey
      && (|| event.topic.LimiterAdmitResult?
          || (event.topic.FailureTopic?
              && (event.outcome == "failover" || event.outcome == "reject" || event.outcome == "redirect" || event.outcome == "terminate"))
          || (event.topic.ReleaseTopic? && (event.outcome == "reroute" || event.outcome == "release")))
  {
  }

  lemma {:induction false} ScreeningCovers(limiterKey: string, l: Ledger, rs: seq<OffTurnRequest>, event: CallEvent, b: AnswerBudgets)
    requires Covered(l, rs, b) && !event.Timer?
    ensures Covered(LedgerAfter(limiterKey, l, event), AwaitedAfter(limiterKey, rs, event), b)
  {
    UnsettledMembers(rs, event);
    if Verdict(limiterKey, l, event) == Awaited {
      var answer := AnswerTo(event).value;
      Partition(l.entries, Closing(answer));
      forall r | r in AwaitedAfter(limiterKey, rs, event) && Bounded(r, b)
        ensures Holds(LedgerAfter(limiterKey, l, event), DeadlineKey(r))
      {
        var e :| e in l.entries && SameKey(e.key, DeadlineKey(r));
        if Closes(e.key.timerType, answer) { ClosedIsSettled(event, r); }
        assert e in LedgerAfter(limiterKey, l, event).entries;
      }
    }
  }

  /** A delivered fire takes its entry and settles what awaits that deadline, or another of its id. */
  lemma {:induction false} ExpiryCovers(l: Ledger, rs: seq<OffTurnRequest>, key: TimerKey, generation: nat, b: AnswerBudgets)
    requires Covered(l, rs, b)
    ensures Covered(Retire(l, Keyed(key)), Unsettled(rs, Timer(key, generation)), b)
  {
    UnsettledMembers(rs, Timer(key, generation));
    Partition(l.entries, Keyed(key));
    forall r | r in Unsettled(rs, Timer(key, generation)) && Bounded(r, b)
      ensures Holds(Retire(l, Keyed(key)), DeadlineKey(r))
    {
      var e :| e in l.entries && SameKey(e.key, DeadlineKey(r));
      assert e in Retire(l, Keyed(key)).entries;
    }
  }

  // ---- The folds of consults --------------------------------------------

  /** The deadline a consult effect names once armed, if it is one. */
  function NamedDeadline(fx: OffTurnEffect): Option<TimerType> {
    match fx
    case FailureAsyncHttp(_, _, Some(change)) => Some(FailureAnswer(change, ""))
    case ReleaseAsyncHttp(_, _, Some(change)) => Some(ReleaseAnswer(change))
    case _ => None
  }

  /** The fold the router makes of a consult's effect: it names the deadline the effect names. */
  function FoldOf(fx: OffTurnEffect, outcome: string, payload: Payload): Option<CallEvent> {
    match fx
    case FailureAsyncHttp(_, _, deadline) => Some(Internal(FailureTopic, outcome, payload.(consultChange := deadline)))
    case ReleaseAsyncHttp(_, _, deadline) => Some(Internal(ReleaseTopic, outcome, payload.(consultChange := deadline)))
    case _ => None
  }

  /** A consult's fold names a deadline only where its kind is bounded. */
  predicate NamesAsArmed(event: CallEvent, b: AnswerBudgets) {
    event.Internal? && event.payload.consultChange.Some? ==>
      (event.topic.FailureTopic? ==> b.failure.Some?) && (event.topic.ReleaseTopic? ==> b.release.Some?)
  }

  /**
   * The fold of a landed consult closes the deadline armed for the consult, none
   * when there is none, and names one only where its kind is bounded.
   */
  lemma FoldNamesAsArmed(fx: OffTurnEffect, b: AnswerBudgets, outcome: string, payload: Payload)
    requires fx.FailureAsyncHttp? || fx.ReleaseAsyncHttp?
    ensures
      var fold := FoldOf(Naming(fx, b), outcome, payload);
      && fold.Some? && NamesAsArmed(fold.value, b)
      && AnswerTo(fold.value) == NamedDeadline(Naming(fx, b))
      && (AnswerTo(fold.value).Some? <==> DeadlineOf(fx, b).Some?)
      && (DeadlineOf(fx, b).Some? ==> Closes(DeadlineOf(fx, b).value.0, AnswerTo(fold.value).value))
  {
  }

  // ---- An answer no deadline awaits -------------------------------------

  /**
   * An `Unawaited` event takes nothing off the record, unless it names an
   * unbounded consult on it: exactly then the record loses that consult. No fold
   * the router makes does (NamesAsArmed).
   */
  lemma {:induction false} UnawaitedRemovesNothing(limiterKey: string, l: Ledger, rs: seq<OffTurnRequest>, event: CallEvent, b: AnswerBudgets)
    requires Covered(l, rs, b)
    requires Verdict(limiterKey, l, event) == Unawaited
    ensures LedgerAfter(limiterKey, l, event) == l
    ensures AwaitedAfter(limiterKey, rs, event) == rs
      <==> (OfAnotherCall(limiterKey, event)
            || forall r :: r in rs && !Bounded(r, b) && !r.Refer? ==>
                 !Closes(DeadlineKey(r).timerType, AnswerTo(event).value))
  {
    if !OfAnotherCall(limiterKey, event) {
      var answer := AnswerTo(event).value;
      Partition(l.entries, Closing(answer));
      forall r | r in rs && Bounded(r, b) ensures !Settles(event, r) {
        var e :| e in l.entries && SameKey(e.key, DeadlineKey(r));
        assert !Selects(Closing(answer), e) by { assert e !in Taken(l.entries, Closing(answer)); }
        if Settles(event, r) { SettledIsClosed(event, r); }
      }
      UnsettledMembers(rs, event);
      if forall r :: r in rs && !Bounded(r, b) && !r.Refer? ==> !Closes(DeadlineKey(r).timerType, answer) {
        forall r | r in rs ensures !Settles(event, r) {
          if Settles(event, r) { SettledIsClosed(event, r); }
        }
        UnsettledAll(rs, event);
      } else {
        var r :| r in rs && !Bounded(r, b) && !r.Refer? && Closes(DeadlineKey(r).timerType, answer);
        ClosedIsSettled(event, r);
        assert r !in Unsettled(rs, event);
      }
    }
  }

  /**
   * The condition is needed of arbitrary events: one naming a consult that has
   * no deadline, which no fold the router makes does, would drop it unread.
   */
  lemma UnawaitedMayDropAConsult()
    ensures
      var b := AnswerBudgets(3000, 150, None, None);
      var r := Failure(FailureRequest("b-1", ""), ConsultAdmits(4, true));
      var fold := Internal(FailureTopic, "terminate", Payload(None, Some(4), None, None, None));
      && Covered(Ledger([], 0), [r], b)
      && Verdict("c#k", Ledger([], 0), fold) == Unawaited
      && AwaitedAfter("c#k", [r], fold) == []
      && !NamesAsArmed(fold, b)
  {
  }

  // ---- Round trips ------------------------------------------------------

  /**
   * A request sent by a turn and answered is where it was: the answer is
   * awaited, its deadline leaves the ledger and its request the record, and
   * only the generation counter moved. `event` answers `fx` when it closes the
   * deadline `fx` armed; nothing of the call awaited that answer before.
   */
  lemma {:induction false} RoundTrip(limiterKey: string, a: Armed, rs: seq<OffTurnRequest>, fx: OffTurnEffect, b: AnswerBudgets,
                  nowMs: int, event: CallEvent)
    requires Covered(a.ledger, rs, b)
    requires DeadlineOf(fx, b).Some? && ImageOf(fx, nowMs).Some?
    requires event.Internal? && AnswerTo(event).Some? && !OfAnotherCall(limiterKey, event)
    requires Closes(DeadlineOf(fx, b).value.0, AnswerTo(event).value)
    requires forall e :: e in a.ledger.entries ==> !Closes(e.key.timerType, AnswerTo(event).value)
    ensures
      var landed := ArmEach(a, Deadlines([fx], b), nowMs).ledger;
      var recorded := Recorded(rs, [fx], nowMs);
      && Verdict(limiterKey, landed, event) == Awaited
      && LedgerAfter(limiterKey, landed, event) == Ledger(a.ledger.entries, a.ledger.generation + 1)
      && AwaitedAfter(limiterKey, recorded, event) == rs
  {
    var d, r := DeadlineOf(fx, b).value, ImageOf(fx, nowMs).value;
    OneEffect(a, rs, fx, b, nowMs);
    ArmedAndClosed(a.ledger, d, nowMs, AnswerTo(event).value);
    forall x | x in rs ensures !SameRequest(x, r) && !Settles(event, x) {
      if SameRequest(x, r) || Settles(event, x) { NotAwaited(a.ledger, rs, x, r, fx, b, nowMs, event); }
    }
    WithoutSameAll(rs, r);
    UnsettledAppend(rs, [r], event);
    UnsettledAll(rs, event);
    ImageDeadline(fx, nowMs, b);
    ClosedIsSettled(event, r);
    assert Unsettled([r], event) == [];
  }

  /** One deadline armed beside none its answer closes is the one the answer takes. */
  lemma {:induction false} ArmedAndClosed(l: Ledger, d: (TimerType, nat), nowMs: int, answer: TimerType)
    requires Closes(d.0, answer)
    requires forall e :: e in l.entries ==> !Closes(e.key.timerType, answer)
    ensures
      var armed := Arm(l, CallKey(d.0), FireAt(nowMs, d.1));
      && Taken(armed.entries, Closing(answer)) == [TimerEntry(CallKey(d.0), l.generation + 1, FireAt(nowMs, d.1))]
      && Kept(armed.entries, Closing(answer)) == l.entries
  {
    var entry := TimerEntry(CallKey(d.0), l.generation + 1, FireAt(nowMs, d.1));
    KeptAll(l.entries, Keyed(CallKey(d.0)));
    KeptAppend(l.entries, [entry], Closing(answer));
    KeptAll(l.entries, Closing(answer));
    TakenNone(l.entries, Closing(answer));
  }

  lemma OneEffect(a: Armed, rs: seq<OffTurnRequest>, fx: OffTurnEffect, b: AnswerBudgets, nowMs: int)
    requires DeadlineOf(fx, b).Some? && ImageOf(fx, nowMs).Some?
    ensures Deadlines([fx], b) == [DeadlineOf(fx, b).value]
    ensures ArmEach(a, [DeadlineOf(fx, b).value], nowMs) == ArmDeadline(a, DeadlineOf(fx, b).value, nowMs)
    ensures Recorded(rs, [fx], nowMs) == WithoutSame(rs, ImageOf(fx, nowMs).value) + [ImageOf(fx, nowMs).value]
  {
  }

  lemma NotAwaited(l: Ledger, rs: seq<OffTurnRequest>, x: OffTurnRequest, r: OffTurnRequest, fx: OffTurnEffect,
                   b: AnswerBudgets, nowMs: int, event: CallEvent)
    requires Covered(l, rs, b) && x in rs && ImageOf(fx, nowMs) == Some(r) && DeadlineOf(fx, b).Some?
    requires event.Internal? && AnswerTo(event).Some?
    requires Closes(DeadlineOf(fx, b).value.0, AnswerTo(event).value)
    requires SameRequest(x, r) || Settles(event, x)
    ensures exists e :: e in l.entries && Closes(e.key.timerType, AnswerTo(event).value)
  {
  }

  lemma {:induction false} WithoutSameAll(rs: seq<OffTurnRequest>, r: OffTurnRequest)
    requires forall x :: x in rs ==> !SameRequest(x, r)
    ensures WithoutSame(rs, r) == rs
  {
    if rs != [] { WithoutSameAll(rs[1..], r); }
  }

  /**
   * Whatever else the turn sends, the answer to each of its bounded requests is
   * awaited, and screening it leaves no deadline it closes and no request it
   * answers.
   */
  lemma {:induction false} AnswerOfTurnAwaited(limiterKey: string, a: Armed, rs: seq<OffTurnRequest>, fxs: seq<OffTurnEffect>,
                            fx: OffTurnEffect, b: AnswerBudgets, nowMs: int, event: CallEvent)
    requires fx in fxs && DeadlineOf(fx, b).Some?
    requires event.Internal? && AnswerTo(event).Some? && !OfAnotherCall(limiterKey, event)
    requires Closes(DeadlineOf(fx, b).value.0, AnswerTo(event).value)
    ensures
      var landed := ArmEach(a, Deadlines(fxs, b), nowMs).ledger;
      && Verdict(limiterKey, landed, event) == Awaited
      && (forall e :: e in LedgerAfter(limiterKey, landed, event).entries <==>
            e in landed.entries && !Closes(e.key.timerType, AnswerTo(event).value))
      && (forall r :: r in AwaitedAfter(limiterKey, Recorded(rs, fxs, nowMs), event) <==>
            r in Recorded(rs, fxs, nowMs) && !Settles(event, r))
  {
    var d, answer := DeadlineOf(fx, b).value, AnswerTo(event).value;
    var landed := ArmEach(a, Deadlines(fxs, b), nowMs).ledger;
    DeadlinesOf(fxs, b, d);
    ArmEachHolds(a, Deadlines(fxs, b), nowMs, d.0);
    var e :| e in landed.entries && SameKey(e.key, CallKey(d.0));
    Partition(landed.entries, Closing(answer));
    assert e in Taken(landed.entries, Closing(answer));
    UnsettledMembers(Recorded(rs, fxs, nowMs), event);
  }

  /** A service's answer that comes back through `Reenter` finds its own timer armed. */
  lemma {:induction false} ReenteredIsAwaited(limiterKey: string, a: Armed, fxs: seq<OffTurnEffect>, b: AnswerBudgets, nowMs: int, event: CallEvent)
    requires Reenter(event) in fxs && ServiceAnswered(event).Some? && !OfAnotherCall(limiterKey, event)
    ensures Verdict(limiterKey, ArmEach(a, Deadlines(fxs, b), nowMs).ledger, event) == Awaited
  {
    AnswerOfTurnAwaited(limiterKey, a, [], fxs, Reenter(event), b, nowMs, event);
  }

  /**
   * A consult's effect names a deadline exactly when one was armed for it: the
   * one it names is in the ledger under a generation of this turn, and a
   * consult naming none added none of its kind.
   */
  lemma {:induction false} ConsultNamesItsDeadline(a: Armed, fxs: seq<OffTurnEffect>, b: AnswerBudgets, nowMs: int, fx: OffTurnEffect)
    requires fx in fxs && (fx.FailureAsyncHttp? || fx.ReleaseAsyncHttp?)
    ensures
      var l := ArmEach(a, Deadlines(fxs, b), nowMs).ledger;
      var named := NamedDeadline(Naming(fx, b));
      && (named.Some? <==> DeadlineOf(fx, b).Some?)
      && (named.Some? ==> exists e :: e in l.entries && e.generation > a.ledger.generation && SameKey(e.key, CallKey(named.value)))
      && (named.None? ==> forall e :: e in l.entries && e.generation > a.ledger.generation && e !in a.ledger.entries ==>
            !(fx.FailureAsyncHttp? && e.key.timerType.FailureAnswer?) && !(fx.ReleaseAsyncHttp? && e.key.timerType.ReleaseAnswer?))
  {
    if DeadlineOf(fx, b).Some? {
      var d := DeadlineOf(fx, b).value;
      DeadlinesOf(fxs, b, d);
      ArmEachHolds(a, Deadlines(fxs, b), nowMs, d.0);
    } else {
      UnboundedAddsNone(a, fxs, b, nowMs, fx);
    }
  }

  /** A kind of consult with no budget arms no deadline of that kind. */
  lemma {:induction false} UnboundedAddsNone(a: Armed, fxs: seq<OffTurnEffect>, b: AnswerBudgets, nowMs: int, fx: OffTurnEffect)
    requires (fx.FailureAsyncHttp? || fx.ReleaseAsyncHttp?) && DeadlineOf(fx, b).None?
    ensures forall e :: e in ArmEach(a, Deadlines(fxs, b), nowMs).ledger.entries && e !in a.ledger.entries ==>
      !(fx.FailureAsyncHttp? && e.key.timerType.FailureAnswer?) && !(fx.ReleaseAsyncHttp? && e.key.timerType.ReleaseAnswer?)
  {
    var ds := Deadlines(fxs, b);
    forall e | e in ArmEach(a, ds, nowMs).ledger.entries && e !in a.ledger.entries
      ensures !(fx.FailureAsyncHttp? && e.key.timerType.FailureAnswer?) && !(fx.ReleaseAsyncHttp? && e.key.timerType.ReleaseAnswer?)
    {
      ArmEachFrom(a, ds, nowMs, e);
      var d :| d in ds && e.key == CallKey(d.0);
      DeadlinesOf(fxs, b, d);
    }
  }

  /**
   * What each expiry tells the rules: a lost HTTP answer is an error of its id,
   * a lost admit is unavailable under its id, change and this call's key, a lost
   * failure consult is a rejection of its failed leg; a release deadline is read
   * as the fire it is.
   */
  lemma ExpiryTells(limiterKey: string, key: TimerKey)
    ensures
      match key.timerType
      case ServiceHttpAnswer(id) =>
        Expiry(limiterKey, key) == Expired(Internal(ServiceHttpResult, "error", Payload(Some(id), None, None, None, Some("no_answer"))))
      case ServiceAdmitAnswer(id, change) =>
        Expiry(limiterKey, key)
          == Expired(Internal(LimiterAdmitResult, "unavailable",
                              Payload(Some(id), None, Some(AdmitReport(limiterKey, change, "unavailable")), None, None)))
      case FailureAnswer(_, failedLeg) =>
        Expiry(limiterKey, key) == Expired(Internal(FailureTopic, "reject", Payload(None, None, None, Some(failedLeg), None)))
      case _ => Expiry(limiterKey, key) == Other
  {
  }

  /** An expiry read as an answer names the deadline that expired. */
  lemma ExpiryIsItsAnswer(limiterKey: string, key: TimerKey)
    requires IsAnswerDeadline(key.timerType)
    ensures key.timerType.ReleaseAnswer? <==> Expiry(limiterKey, key) == Other
    ensures Expiry(limiterKey, key).Expired? && !key.timerType.FailureAnswer? ==>
      && AnswerTo(Expiry(limiterKey, key).event) == Some(key.timerType)
      && !OfAnotherCall(limiterKey, Expiry(limiterKey, key).event)
    ensures key.timerType.FailureAnswer? ==>
      Expiry(limiterKey, key).event.payload.failedLegId == Some(key.timerType.unanswered)
  {
  }

  // ---- The budget of a failover chain -----------------------------------

  /** One round of a failover chain: the consult, then its route's admit. */
  datatype Round = Round(consult: nat, admit: nat)

  function Elapsed(chain: seq<Round>): nat {
    if chain == [] then 0 else Elapsed(chain[..|chain| - 1]) + chain[|chain| - 1].consult + chain[|chain| - 1].admit
  }

  lemma {:induction false} ElapsedBound(chain: seq<Round>, bound: nat)
    requires forall r :: r in chain ==> r.consult + r.admit <= bound
    ensures Elapsed(chain) <= |chain| * bound
  {
    if chain != [] {
      var front := chain[..|chain| - 1];
      assert chain[|chain| - 1] in chain;
      ElapsedBound(front, bound);
      assert |chain| * bound == |front| * bound + bound;
    }
  }

  /**
   * What takes `elapsed` from `nowMs` ends the margin before `at`, which the
   * clock's range alone may cut short; and within that range it never ends after
   * `at`.
   */
  predicate InTime(nowMs: int, elapsed: nat, at: int) {
    && (nowMs + elapsed + MARGIN <= at || at == Int64.MAX || at == nowMs + Int64.MAX)
    && (0 <= nowMs && nowMs + elapsed <= Int64.MAX ==> nowMs + elapsed <= at)
  }

  /** A request is given up its budget and two seconds after it was sent, as far as the clock reaches. */
  lemma GivenUpAt(nowMs: int, budget: nat)
    requires 0 <= nowMs <= Int64.MAX
    ensures FireAt(nowMs, budget) == Int64.Clamp(nowMs + budget + 2000)
  {
  }

  /** The budgets are no longer than needed: some chain within its bounds takes all of it. */
  lemma {:induction false} BudgetIsTight(decision: nat, admit: nat) returns (chain: seq<Round>)
    requires decision > 0
    ensures |chain| == 6 && FailureBudget(decision, admit) == Some(Elapsed(chain))
    ensures ReleaseBudget(decision, admit) == Some(Elapsed(chain[..1]))
    ensures forall r :: r in chain ==> r.consult == decision && r.admit == admit + 100
  {
    chain := RoundsOf(decision, admit + 100, 6);
    var first := RoundsOf(decision, admit + 100, 1);
    assert chain[..1] == [chain[0]] && first == [first[0]] && chain[0] in chain && first[0] in first;
  }

  /** A chain of `n` like rounds. */
  lemma {:induction false} RoundsOf(consult: nat, admit: nat, n: nat) returns (chain: seq<Round>)
    ensures |chain| == n && (forall r :: r in chain ==> r == Round(consult, admit)) && Elapsed(chain) == (consult + admit) * n
  {
    chain := [];
    if n > 0 {
      var front := RoundsOf(consult, admit, n - 1);
      chain := front + [Round(consult, admit)];
      assert chain[..n - 1] == front;
      OneMore(consult + admit, n - 1);
    }
  }

  lemma OneMore(round: nat, n: nat)
    ensures round * (n + 1) == round * n + round
  {
  }

  lemma RoundsFit(rounds: nat, round: nat)
    requires rounds <= FAILURE_CHAIN
    ensures rounds * round <= round * FAILURE_CHAIN
  {
  }

  /** What ends within its budget ends in time for the deadline armed under that budget. */
  lemma WithinBudgetIsInTime(nowMs: int, elapsed: nat, budget: nat)
    requires elapsed <= budget && Int64.MIN <= nowMs <= Int64.MAX
    ensures InTime(nowMs, elapsed, FireAt(nowMs, budget))
  {
  }

  /**
   * A chain that stays inside its rounds and each bound is answered the margin
   * before the deadline its consult armed; so is a release's one round.
   */
  lemma {:induction false} ChainAnswersInTime(chain: seq<Round>, decision: nat, admit: nat, nowMs: int)
    requires |chain| <= FAILURE_CHAIN && decision > 0
    requires forall r :: r in chain ==> r.consult <= decision && r.admit <= admit + ADMIT_SLACK
    requires Int64.MIN <= nowMs <= Int64.MAX
    ensures FailureBudget(decision, admit).Some? && InTime(nowMs, Elapsed(chain), FireAt(nowMs, FailureBudget(decision, admit).value))
    ensures ReleaseBudget(decision, admit).Some?
    ensures |chain| <= 1 ==> InTime(nowMs, Elapsed(chain), FireAt(nowMs, ReleaseBudget(decision, admit).value))
  {
    var round := decision + admit + ADMIT_SLACK;
    ElapsedBound(chain, round);
    RoundsFit(|chain|, round);
    WithinBudgetIsInTime(nowMs, Elapsed(chain), FailureBudget(decision, admit).value);
    if |chain| <= 1 {
      assert |chain| * round <= round;
      WithinBudgetIsInTime(nowMs, Elapsed(chain), ReleaseBudget(decision, admit).value);
    }
  }
}
