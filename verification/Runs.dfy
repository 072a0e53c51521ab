/**
 * The off-turn answer protocol over whole runs: each armed deadline gives the
 * rules at most one event and is never lost, an awaited request is always
 * guarded by a live timer, and a late answer reaches no rule.
 */
module Runs {
  import opened Wrappers
  import opened Timers
  import opened CallModel
  import opened OffTurn
  import opened AnswerDeadline
  import opened AnswerLemmas
  import opened Turns

  // ---- The events a step gives the rules --------------------------------

  /** The deadline instances whose answer or expiry the step gives the rules. */
  ghost function Given(w: World, s: Step): set<Instance> {
    if !s.Deliver? || w.call.state == Terminated then {}
    else if s.event.Timer? then
      if Reaches(w.call, s.event, s.scopeEnded) && IsAnswerDeadline(s.event.key.timerType)
      then {(Identity(s.event.key), s.event.generation)} else {}
    else
      var closed := Closed(w.call.limiterKey, w.call.ledger, s.event);
      set e | e in closed :: InstanceOf(e)
  }

  /** The requests a step sends, or answers it re-enters. */
  function Sends(w: World, s: Step): seq<OffTurnEffect> {
    match s
    case Expire(_) => []
    case Deliver(event, _, rules, frame) => Working(w.call, event, rules, frame).effects
    case Resend(only, numbering, _, _) => SentAgain(w.call.limiterKey, Again(w.call.awaited, only), numbering)
  }

  /** An answer is `Awaited` exactly when the rules are given the event of some deadline. */
  lemma {:induction false} AwaitedIsGiven(w: World, event: CallEvent, scopeEnded: bool, rules: Rules, frame: Rules)
    requires !event.Timer? && w.call.state != Terminated
    ensures Verdict(w.call.limiterKey, w.call.ledger, event) == Awaited <==> Given(w, Deliver(event, scopeEnded, rules, frame)) != {}
  {
    var closed := Closed(w.call.limiterKey, w.call.ledger, event);
    if closed != [] {
      assert InstanceOf(closed[0]) in Given(w, Deliver(event, scopeEnded, rules, frame));
    }
  }

  /** A delivered fire names the instance the ledger holds. */
  lemma {:induction false} DeliveredIsHeld(l: Ledger, scopeEnded: bool, key: TimerKey, generation: nat)
    requires Valid(l) && Delivering(l, scopeEnded, key, generation) == Delivered
    ensures HoldsInstance(l, (Identity(key), generation))
    ensures !HoldsInstance(Retire(l, Keyed(key)), (Identity(key), generation))
  {
    Partition(l.entries, Keyed(key));
    var held := Taken(l.entries, Keyed(key));
    assert held[0] in held;
  }

  /** What a step gives the rules was in the ledger, and no longer is once read. */
  lemma {:induction false} GivenIsTaken(b: AnswerBudgets, w: World, s: Step, i: Instance)
    requires Invariant(b, w) && i in Given(w, s)
    ensures HoldsInstance(w.call.ledger, i) && !HoldsInstance(Read(w.call, s.event).ledger, i)
  {
    var l := w.call.ledger;
    if s.event.Timer? {
      DeliveredIsHeld(l, s.scopeEnded, s.event.key, s.event.generation);
    } else {
      var sel := Closing(AnswerTo(s.event).value);
      Partition(l.entries, sel);
      var e :| e in Closed(w.call.limiterKey, l, s.event) && InstanceOf(e) == i;
      forall f | f in Kept(l.entries, sel) ensures InstanceOf(f) != i {
        if SameKey(f.key, e.key) { SelectedTogether(sel, f, e); }
      }
    }
  }

  lemma HeldIsNumbered(l: Ledger, i: Instance)
    requires Valid(l) && HoldsInstance(l, i)
    ensures i.1 <= l.generation
  {
  }

  /** An instance off the ledger never comes back: generations are not reused. */
  lemma GoneForGood(l: Ledger, l': Ledger, i: Instance)
    requires Grows(l, l') && !HoldsInstance(l, i) && i.1 <= l.generation
    ensures !HoldsInstance(l', i)
  {
  }

  lemma {:induction false} TurnGrows(b: AnswerBudgets, w: World, s: Step)
    requires Invariant(b, w) && Admissible(s) && s.Deliver? && w.call.state != Terminated
    requires Reaches(w.call, s.event, s.scopeEnded)
    ensures Grows(Read(w.call, s.event).ledger, Next(b, w, s).call.ledger)
    ensures Read(w.call, s.event).ledger.generation == w.call.ledger.generation
  {
    var screened := TimerScreened(w, s.event, s.scopeEnded);
    if s.event.Timer? {
      FireFollows(w, s.event, s.scopeEnded);
      FireKeeps(b, w, s.event);
      TurnKeeps(b, Read(w.call, s.event), [], Working(w.call, s.event, s.rules, s.frame), w.driver, screened.inFlight + screened.lost);
    } else {
      AnswerKeeps(b, w, s.event);
      CloseFollows(w.call.limiterKey, w.call.ledger, s.event, w.driver, w.inFlight + w.lost);
      TurnKeeps(b, Read(w.call, s.event), LastCancelled(Closed(w.call.limiterKey, w.call.ledger, s.event)),
                Working(w.call, s.event, s.rules, s.frame), w.driver, w.inFlight + w.lost);
    }
  }

  /** Once a step gave the rules an instance's event, the ledger is rid of it. */
  lemma {:induction false} GivenIsGone(b: AnswerBudgets, w: World, s: Step, i: Instance)
    requires Invariant(b, w) && Admissible(s) && i in Given(w, s)
    ensures !HoldsInstance(Next(b, w, s).call.ledger, i) && i.1 <= Next(b, w, s).call.ledger.generation
  {
    GivenIsTaken(b, w, s, i);
    HeldIsNumbered(w.call.ledger, i);
    TurnGrows(b, w, s);
    GoneForGood(Read(w.call, s.event).ledger, Next(b, w, s).call.ledger, i);
  }

  lemma {:induction false} ExecSplits(b: AnswerBudgets, w: World, first: seq<Step>, second: seq<Step>)
    ensures Exec(b, w, first + second) == Exec(b, Exec(b, w, first), second)
  {
    if second == [] {
      assert first + second == first;
    } else {
      var front := second[..|second| - 1];
      assert (first + second)[..|first + second| - 1] == first + front;
      ExecSplits(b, w, first, front);
    }
  }

  // ---- Main results -----------------------------------------------------

  /** The steps of a run before position `i`. */
  ghost function At(b: AnswerBudgets, w: World, run: seq<Step>, i: nat): World
    requires i <= |run|
  {
    Exec(b, w, run[..i])
  }

  lemma InitialInvariant(b: AnswerBudgets, w: World)
    requires Initial(w)
    ensures Invariant(b, w)
  {
  }

  /**
   * Over every run, whatever is repeated, reordered or late, each armed deadline
   * gives the rules at most one event: its answer or its expiry. The run is
   * `past`, `first`, `between`, `second`.
   */
  lemma {:induction false} AtMostOneEvent(b: AnswerBudgets, w: World, past: seq<Step>, first: Step, between: seq<Step>, second: Step, i: Instance)
    requires Initial(w) && AllAdmissible(past) && Admissible(first) && AllAdmissible(between)
    requires i in Given(Exec(b, w, past), first)
    ensures i !in Given(Exec(b, w, past + [first] + between), second)
  {
    InitialInvariant(b, w);
    ExecKeeps(b, w, past);
    var before := Exec(b, w, past);
    var after := Next(b, before, first);
    GivenIsGone(b, before, first, i);
    NextKeeps(b, before, first);
    ExecKeeps(b, after, between);
    GoneForGood(after.call.ledger, Exec(b, after, between).call.ledger, i);
    assert (past + [first])[..|past|] == past;
    ExecSplits(b, w, past + [first], between);
    if i in Given(Exec(b, after, between), second) {
      GivenIsTaken(b, Exec(b, after, between), second, i);
    }
  }

  /**
   * In every world a run reaches, each awaited request that has a deadline has
   * it in the ledger, and that deadline will come: the driver holds it under its
   * generation, or its fire is on the way.
   */
  lemma {:induction false} AwaitedIsGuarded(b: AnswerBudgets, w: World, run: seq<Step>, r: OffTurnRequest)
    requires Initial(w) && AllAdmissible(run)
    requires r in Exec(b, w, run).call.awaited && Bounded(r, b)
    ensures
      var now := Exec(b, w, run);
      exists e :: e in now.call.ledger.entries && SameKey(e.key, DeadlineKey(r))
               && (InDriver(now.driver, e) || InstanceOf(e) in now.inFlight)
  {
    InitialInvariant(b, w);
    ExecKeeps(b, w, run);
    var now := Exec(b, w, run);
    var e :| e in now.call.ledger.entries && SameKey(e.key, DeadlineKey(r));
    assert InstanceOf(e).0.scope == CallScope && IsAnswerDeadline(InstanceOf(e).0.timerType);
  }

  /**
   * In every world a run reaches, an event no deadline awaits, whatever it
   * names, takes nothing off the ledger, and takes a request off the record
   * exactly when it names an unbounded consult on it.
   */
  lemma {:induction false} UnawaitedThroughout(b: AnswerBudgets, w: World, run: seq<Step>, event: CallEvent)
    requires Initial(w) && AllAdmissible(run)
    requires Verdict(Exec(b, w, run).call.limiterKey, Exec(b, w, run).call.ledger, event) == Unawaited
    ensures
      var call := Exec(b, w, run).call;
      && Read(call, event).ledger == call.ledger
      && (Read(call, event).awaited == call.awaited
          <==> (OfAnotherCall(call.limiterKey, event)
                || forall r :: r in call.awaited && !Bounded(r, b) && !r.Refer? ==>
                     !Closes(DeadlineKey(r).timerType, AnswerTo(event).value)))
  {
    InitialInvariant(b, w);
    ExecKeeps(b, w, run);
    var call := Exec(b, w, run).call;
    UnawaitedRemovesNothing(call.limiterKey, call.ledger, call.awaited, event, b);
  }

  /**
   * In every world a run reaches, an answer no deadline awaits removes nothing:
   * the call is as it was, for every event the router makes under the budgets
   * its deadlines were armed by.
   */
  lemma {:induction false} UnawaitedTakesNothing(b: AnswerBudgets, w: World, run: seq<Step>, event: CallEvent)
    requires Initial(w) && AllAdmissible(run) && NamesAsArmed(event, b)
    requires Verdict(Exec(b, w, run).call.limiterKey, Exec(b, w, run).call.ledger, event) == Unawaited
    ensures Read(Exec(b, w, run).call, event) == Exec(b, w, run).call
  {
    UnawaitedThroughout(b, w, run, event);
  }

  /** The driver holds the instance, or its fire is on the way. */
  ghost predicate MayFire(w: World, i: Instance) {
    (i.0 in w.driver && w.driver[i.0] == i.1) || i in w.inFlight
  }

  /**
   * A timer the driver holds, or whose fire is on the way, and whose instance
   * the ledger lacks changes nothing of the call when it fires, then or after
   * any further run. The run is `past`, then `rest`.
   */
  lemma {:induction false} DriverOnlyIsScreenedOut(b: AnswerBudgets, w: World, past: seq<Step>, rest: seq<Step>, fire: CallEvent,
                                scopeEnded: bool, rules: Rules, frame: Rules)
    requires Initial(w) && AllAdmissible(past) && AllAdmissible(rest) && fire.Timer?
    requires MayFire(Exec(b, w, past), (Identity(fire.key), fire.generation))
    requires !HoldsInstance(Exec(b, w, past).call.ledger, (Identity(fire.key), fire.generation))
    ensures
      var now := Exec(b, w, past + rest);
      var next := Next(b, now, Deliver(fire, scopeEnded, rules, frame));
      next.call == now.call && next.driver == now.driver
  {
    InitialInvariant(b, w);
    ExecKeeps(b, w, past);
    var before := Exec(b, w, past);
    ExecKeeps(b, before, rest);
    ExecSplits(b, w, past, rest);
    StaleFire(b, Exec(b, before, rest), before.call.ledger, fire, scopeEnded, rules, frame);
  }

  /** An old instance no longer in the ledger is stale: its fire leaves the call alone. */
  lemma {:induction false} StaleFire(b: AnswerBudgets, now: World, l: Ledger, fire: CallEvent, scopeEnded: bool, rules: Rules, frame: Rules)
    requires Invariant(b, now) && Grows(l, now.call.ledger) && fire.Timer? && fire.generation <= l.generation
    requires !HoldsInstance(l, (Identity(fire.key), fire.generation))
    ensures
      var next := Next(b, now, Deliver(fire, scopeEnded, rules, frame));
      next.call == now.call && next.driver == now.driver
  {
    GoneForGood(l, now.call.ledger, (Identity(fire.key), fire.generation));
    if Delivering(now.call.ledger, scopeEnded, fire.key, fire.generation) == Delivered {
      DeliveredIsHeld(now.call.ledger, scopeEnded, fire.key, fire.generation);
    }
  }

  // ---- Late answers -----------------------------------------------------

  /** No entry of the ledger is one `answer` closes. */
  ghost predicate NoneCloses(l: Ledger, answer: TimerType) {
    forall e :: e in l.entries ==> !Closes(e.key.timerType, answer)
  }

  /** The step sends nothing whose answer `answer` would be. */
  ghost predicate SendsNoneOf(b: AnswerBudgets, w: World, s: Step, answer: TimerType) {
    forall fx :: fx in Sends(w, s) && DeadlineOf(fx, b).Some? ==> !Closes(DeadlineOf(fx, b).value.0, answer)
  }

  lemma {:induction false} TurnArmsNone(b: AnswerBudgets, c: CallRecord, commands: seq<DriverCommand>, r: Rules, answer: TimerType)
    requires AnswersOnCall(c.ledger) && NoneCloses(c.ledger, answer)
    requires AllLeaveAnswers(r.ops) && AllLeaveAnswers(r.late)
    requires forall fx :: fx in r.effects && DeadlineOf(fx, b).Some? ==> !Closes(DeadlineOf(fx, b).value.0, answer)
    ensures NoneCloses(Turn(b, c, commands, r).0.ledger, answer)
  {
    var a := Armed(c.ledger, commands);
    var ruled := ApplyAll(a, r.ops);
    OpsKeepAnswers(a, r.ops);
    if r.state != Terminated {
      var ds := Deadlines(r.effects, b);
      var armed := ArmEach(ruled, ds, r.nowMs);
      forall e | e in armed.ledger.entries
        ensures !Closes(e.key.timerType, answer)
        ensures IsAnswerDeadline(e.key.timerType) ==> e.key.scope == CallScope
      {
        ArmEachFrom(ruled, ds, r.nowMs, e);
        if e !in ruled.ledger.entries {
          var d :| d in ds && e.key == CallKey(d.0);
          DeadlinesOf(r.effects, b, d);
        }
      }
      OpsKeepAnswers(armed, r.late);
    }
  }

  lemma {:induction false} NextArmsNone(b: AnswerBudgets, w: World, s: Step, answer: TimerType)
    requires Invariant(b, w) && Admissible(s) && NoneCloses(w.call.ledger, answer) && SendsNoneOf(b, w, s, answer)
    ensures NoneCloses(Next(b, w, s).call.ledger, answer)
  {
    match s
    case Expire(_) =>
    case Deliver(event, scopeEnded, rules, frame) =>
      if w.call.state != Terminated && Reaches(w.call, event, scopeEnded) {
        ReadCloses(b, w, event, answer);
        TurnArmsNone(b, Read(w.call, event), LastCancelled(Closed(w.call.limiterKey, w.call.ledger, event)),
                     Working(w.call, event, rules, frame), answer);
      }
    case Resend(only, numbering, late, nowMs) =>
      var again := Again(w.call.awaited, only);
      if w.call.state == Active && again != [] {
        var retired := RetireAnswers(Armed(w.call.ledger, []), again);
        RetireAnswersFollows(Armed(w.call.ledger, []), again, w.driver, w.inFlight + w.lost);
        RetireAnswersLeaves(Armed(w.call.ledger, []), again);
        TurnArmsNone(b, w.call.(ledger := retired.ledger, awaited := NotAgain(w.call.awaited, only)), retired.commands,
                     Rules([], Active, SentAgain(w.call.limiterKey, again, numbering), late, nowMs), answer);
      }
  }

  lemma {:induction false} ReadCloses(b: AnswerBudgets, w: World, event: CallEvent, answer: TimerType)
    requires Invariant(b, w) && NoneCloses(w.call.ledger, answer)
    ensures NoneCloses(Read(w.call, event).ledger, answer) && AnswersOnCall(Read(w.call, event).ledger)
  {
    if event.Timer? {
      Partition(w.call.ledger.entries, Keyed(event.key));
    } else if AnswerTo(event).Some? {
      Partition(w.call.ledger.entries, Closing(AnswerTo(event).value));
    }
  }

  lemma {:induction false} ExecArmsNone(b: AnswerBudgets, w: World, run: seq<Step>, answer: TimerType)
    requires Invariant(b, w) && AllAdmissible(run) && NoneCloses(w.call.ledger, answer)
    requires forall i :: 0 <= i < |run| ==> SendsNoneOf(b, At(b, w, run, i), run[i], answer)
    ensures NoneCloses(Exec(b, w, run).call.ledger, answer)
  {
    if run != [] {
      var front := run[..|run| - 1];
      assert AllAdmissible(front);
      forall i | 0 <= i < |front| ensures SendsNoneOf(b, At(b, w, front, i), front[i], answer) {
        assert front[..i] == run[..i];
      }
      ExecArmsNone(b, w, front, answer);
      ExecKeeps(b, w, front);
      NextArmsNone(b, Exec(b, w, front), run[|run| - 1], answer);
    }
  }

  /** The same deadline under another change number: only an admit has one. */
  ghost predicate OnlyOneOf(l: Ledger, key: TimerKey) {
    forall e :: e in l.entries && Closes(e.key.timerType, key.timerType) ==> SameKey(e.key, key)
  }

  lemma OnlyAdmitsRepeat(l: Ledger, key: TimerKey)
    requires AnswersOnCall(l) && IsAnswerDeadline(key.timerType) && !key.timerType.ServiceAdmitAnswer? && key.scope == CallScope
    ensures OnlyOneOf(l, key)
  {
  }

  /** No rule reads the event: it is unawaited, and the step is the same whatever the rules would make of it. */
  ghost predicate ReachesNoRule(b: AnswerBudgets, w: World, event: CallEvent) {
    && Verdict(w.call.limiterKey, w.call.ledger, event) == Unawaited
    && forall scopeEnded, rules, other, frame ::
         Next(b, w, Deliver(event, scopeEnded, rules, frame)) == Next(b, w, Deliver(event, scopeEnded, other, frame))
  }

  /** The steps of `rest` from `w` send nothing whose answer `answer` would be. */
  ghost predicate NeverSends(b: AnswerBudgets, w: World, rest: seq<Step>, answer: TimerType) {
    forall k :: 0 <= k < |rest| ==> SendsNoneOf(b, At(b, w, rest, k), rest[k], answer)
  }

  /**
   * Once a deadline expired, its answer reaches no rule however late it comes,
   * unless the request was sent again in between (under another change number
   * still pending, for an admit). The run is `past`, the expiry, then `rest`.
   */
  lemma {:induction false} LateAnswerReachesNoRule(b: AnswerBudgets, w: World, past: seq<Step>, expiry: Step, rest: seq<Step>, event: CallEvent)
    requires Initial(w) && AllAdmissible(past) && Admissible(expiry) && AllAdmissible(rest)
    requires event.Internal? && AnswerTo(event).Some?
    requires ExpiresFor(b, Exec(b, w, past), expiry, AnswerTo(event).value)
    requires NeverSends(b, Next(b, Exec(b, w, past), expiry), rest, AnswerTo(event).value)
    ensures ReachesNoRule(b, Exec(b, w, past + [expiry] + rest), event)
  {
    InitialInvariant(b, w);
    ExecKeeps(b, w, past);
    ExpiryLeavesNone(b, Exec(b, w, past), expiry, AnswerTo(event).value);
    ClosedStaysClosed(b, w, past, expiry, rest, event);
  }

  /**
   * An answer the rules were given reaches none when it is repeated, however
   * often and however late, unless something it answers was sent in between.
   * The run is `past`, the step that reads `answer`, then `rest`; `repeat` is
   * any answer to the same request.
   */
  lemma {:induction false} RepeatedAnswerReachesNoRule(b: AnswerBudgets, w: World, past: seq<Step>, reading: Step, rest: seq<Step>, repeat: CallEvent)
    requires Initial(w) && AllAdmissible(past) && Admissible(reading) && AllAdmissible(rest)
    requires repeat.Internal? && AnswerTo(repeat).Some?
    requires AnswersFor(b, Exec(b, w, past), reading, AnswerTo(repeat).value)
    requires NeverSends(b, Next(b, Exec(b, w, past), reading), rest, AnswerTo(repeat).value)
    ensures ReachesNoRule(b, Exec(b, w, past + [reading] + rest), repeat)
  {
    InitialInvariant(b, w);
    ExecKeeps(b, w, past);
    AnswerLeavesNone(b, Exec(b, w, past), reading, AnswerTo(repeat).value);
    ClosedStaysClosed(b, w, past, reading, rest, repeat);
  }

  /** The step reads an awaited answer to the request `answer` answers, and sends nothing it would answer. */
  ghost predicate AnswersFor(b: AnswerBudgets, w: World, s: Step, answer: TimerType) {
    && s.Deliver? && s.event.Internal? && w.call.state != Terminated
    && Verdict(w.call.limiterKey, w.call.ledger, s.event) == Awaited
    && AnswerTo(s.event).Some? && Closes(AnswerTo(s.event).value, answer)
    && SendsNoneOf(b, w, s, answer)
  }

  lemma {:induction false} AnswerLeavesNone(b: AnswerBudgets, w: World, s: Step, answer: TimerType)
    requires Invariant(b, w) && Admissible(s) && AnswersFor(b, w, s, answer)
    ensures NoneCloses(Next(b, w, s).call.ledger, answer)
  {
    AnswerReadLeavesNone(b, w, s.event, answer);
    TurnArmsNone(b, Read(w.call, s.event), LastCancelled(Closed(w.call.limiterKey, w.call.ledger, s.event)),
                 Working(w.call, s.event, s.rules, s.frame), answer);
  }

  lemma {:induction false} AnswerReadLeavesNone(b: AnswerBudgets, w: World, event: CallEvent, answer: TimerType)
    requires Invariant(b, w) && event.Internal? && AnswerTo(event).Some? && Closes(AnswerTo(event).value, answer)
    requires Verdict(w.call.limiterKey, w.call.ledger, event) == Awaited
    ensures NoneCloses(Read(w.call, event).ledger, answer) && AnswersOnCall(Read(w.call, event).ledger)
  {
    Partition(w.call.ledger.entries, Closing(AnswerTo(event).value));
  }

  /** With no deadline left that the answer closes, and none sent for, it reaches no rule. */
  lemma {:induction false} ClosedStaysClosed(b: AnswerBudgets, w: World, past: seq<Step>, s: Step, rest: seq<Step>, event: CallEvent)
    requires Initial(w) && AllAdmissible(past) && Admissible(s) && AllAdmissible(rest)
    requires event.Internal? && AnswerTo(event).Some?
    requires NoneCloses(Next(b, Exec(b, w, past), s).call.ledger, AnswerTo(event).value)
    requires NeverSends(b, Next(b, Exec(b, w, past), s), rest, AnswerTo(event).value)
    ensures ReachesNoRule(b, Exec(b, w, past + [s] + rest), event)
  {
    InitialInvariant(b, w);
    ExecKeeps(b, w, past);
    var before := Exec(b, w, past);
    NextKeeps(b, before, s);
    ExecArmsNone(b, Next(b, before, s), rest, AnswerTo(event).value);
    assert (past + [s])[..|past|] == past;
    ExecSplits(b, w, past + [s], rest);
    LateVerdict(Exec(b, Next(b, before, s), rest).call, event);
  }

  /** The step is the expiry of the one deadline `answer` closes, and sends nothing it would answer. */
  ghost predicate ExpiresFor(b: AnswerBudgets, w: World, s: Step, answer: TimerType) {
    && s.Deliver? && s.event.Timer? && (Identity(s.event.key), s.event.generation) in Given(w, s)
    && Closes(s.event.key.timerType, answer) && OnlyOneOf(w.call.ledger, s.event.key)
    && SendsNoneOf(b, w, s, answer)
  }

  lemma {:induction false} ExpiryLeavesNone(b: AnswerBudgets, w: World, s: Step, answer: TimerType)
    requires Invariant(b, w) && Admissible(s) && ExpiresFor(b, w, s, answer)
    ensures NoneCloses(Next(b, w, s).call.ledger, answer)
  {
    ExpiryReadLeavesNone(b, w, s.event, answer);
    TurnArmsNone(b, Read(w.call, s.event), [], Working(w.call, s.event, s.rules, s.frame), answer);
  }

  lemma {:induction false} ExpiryReadLeavesNone(b: AnswerBudgets, w: World, event: CallEvent, answer: TimerType)
    requires Invariant(b, w) && event.Timer? && Closes(event.key.timerType, answer) && OnlyOneOf(w.call.ledger, event.key)
    ensures NoneCloses(Read(w.call, event).ledger, answer) && AnswersOnCall(Read(w.call, event).ledger)
  {
    Partition(w.call.ledger.entries, Keyed(event.key));
  }

  /** An answer of this call is unawaited exactly when no pending deadline is one it closes. */
  lemma {:induction false} LateVerdict(c: CallRecord, event: CallEvent)
    requires event.Internal? && AnswerTo(event).Some?
    ensures Verdict(c.limiterKey, c.ledger, event) == Unawaited <==>
            OfAnotherCall(c.limiterKey, event) || NoneCloses(c.ledger, AnswerTo(event).value)
  {
    var sel := Closing(AnswerTo(event).value);
    Partition(c.ledger.entries, sel);
    if NoneCloses(c.ledger, AnswerTo(event).value) {
      TakenNone(c.ledger.entries, sel);
    } else {
      var e :| e in c.ledger.entries && Closes(e.key.timerType, AnswerTo(event).value);
      assert e in Taken(c.ledger.entries, sel);
    }
  }

  // ---- No deadline is lost ----------------------------------------------

  lemma {:induction false} ArmEachOnCall(a: Armed, ds: seq<(TimerType, nat)>, nowMs: int)
    requires AnswersOnCall(a.ledger)
    ensures AnswersOnCall(ArmEach(a, ds, nowMs).ledger)
  {
    forall e | e in ArmEach(a, ds, nowMs).ledger.entries && IsAnswerDeadline(e.key.timerType)
      ensures e.key.scope == CallScope
    {
      ArmEachFrom(a, ds, nowMs, e);
    }
  }

  /** An entry the turn's landing drops is replaced under its own key. */
  lemma {:induction false} TurnAccounts(b: AnswerBudgets, c: CallRecord, commands: seq<DriverCommand>, r: Rules, d: Driver,
                     excused: set<Instance>, e: TimerEntry)
    requires Valid(c.ledger) && AnswersOnCall(c.ledger) && Follows(c.ledger, RunAll(d, commands), excused)
    requires AllLeaveAnswers(r.ops) && AllLeaveAnswers(r.late) && r.state != Terminated
    requires e in c.ledger.entries && IsAnswerDeadline(e.key.timerType)
    ensures
      var l := Turn(b, c, commands, r).0.ledger;
      e in l.entries || exists n :: n in l.entries && SameKey(n.key, e.key) && n.generation > e.generation
  {
    var a := Armed(c.ledger, commands);
    var ruled, ds := ApplyAll(a, r.ops), Deadlines(r.effects, b);
    OpsFollow(a, r.ops, d, excused);
    OpsKeepAnswers(a, r.ops);
    var armed := ArmEach(ruled, ds, r.nowMs);
    ArmEachOnCall(ruled, ds, r.nowMs);
    OpsKeepAnswers(armed, r.late);
    if x :| x in ds && SameKey(e.key, CallKey(x.0)) {
      ArmEachHolds(ruled, ds, r.nowMs, x.0);
      var n :| n in armed.ledger.entries && SameKey(n.key, CallKey(x.0)) && n.generation > ruled.ledger.generation;
      assert n in ApplyAll(armed, r.late).ledger.entries;
    } else {
      ArmEachKeeps(ruled, ds, r.nowMs, e);
    }
  }

  /** What a delivered event does not give the rules stays, or is armed again. */
  lemma {:induction false} DeliveryAccounts(b: AnswerBudgets, w: World, s: Step, e: TimerEntry)
    requires Invariant(b, w) && Admissible(s) && s.Deliver? && w.call.state != Terminated && Reaches(w.call, s.event, s.scopeEnded)
    requires e in w.call.ledger.entries && IsAnswerDeadline(e.key.timerType) && InstanceOf(e) !in Given(w, s)
    requires Working(w.call, s.event, s.rules, s.frame).state != Terminated
    ensures
      var l := Next(b, w, s).call.ledger;
      e in l.entries || exists n :: n in l.entries && SameKey(n.key, e.key) && n.generation > e.generation
  {
    NotGivenIsKept(b, w, s, e);
    var screened := TimerScreened(w, s.event, s.scopeEnded);
    if s.event.Timer? {
      FireFollows(w, s.event, s.scopeEnded);
      FireKeeps(b, w, s.event);
    } else {
      AnswerKeeps(b, w, s.event);
      CloseFollows(w.call.limiterKey, w.call.ledger, s.event, w.driver, w.inFlight + w.lost);
    }
    TurnAccounts(b, Read(w.call, s.event), LastCancelled(Closed(w.call.limiterKey, w.call.ledger, s.event)),
                 Working(w.call, s.event, s.rules, s.frame), w.driver, screened.inFlight + screened.lost, e);
  }

  /**
   * No armed deadline goes missing: a step that takes one off the ledger of a
   * call that lives on gave the rules its event, armed its key again under a
   * later generation, or sent its request again.
   */
  lemma {:induction false} NoDeadlineIsLost(b: AnswerBudgets, w: World, s: Step, e: TimerEntry)
    requires Invariant(b, w) && Admissible(s)
    requires e in w.call.ledger.entries && IsAnswerDeadline(e.key.timerType)
    requires Next(b, w, s).call.state != Terminated
    ensures
      var l := Next(b, w, s).call.ledger;
      || e in l.entries
      || InstanceOf(e) in Given(w, s)
      || (exists n :: n in l.entries && SameKey(n.key, e.key) && n.generation > e.generation)
      || (s.Resend? && !Spared(e, Again(w.call.awaited, s.only)))
  {
    match s
    case Expire(_) =>
    case Deliver(event, scopeEnded, rules, frame) =>
      if w.call.state != Terminated && Reaches(w.call, event, scopeEnded) && InstanceOf(e) !in Given(w, s) {
        DeliveryAccounts(b, w, s, e);
      }
    case Resend(only, numbering, late, nowMs) =>
      var again := Again(w.call.awaited, only);
      if w.call.state == Active && again != [] && Spared(e, again) {
        var retired := RetireAnswers(Armed(w.call.ledger, []), again);
        RetireAnswersFollows(Armed(w.call.ledger, []), again, w.driver, w.inFlight + w.lost);
        RetireAnswersLeaves(Armed(w.call.ledger, []), again);
        TurnAccounts(b, w.call.(ledger := retired.ledger, awaited := NotAgain(w.call.awaited, only)), retired.commands,
                     Rules([], Active, SentAgain(w.call.limiterKey, again, numbering), late, nowMs),
                     w.driver, w.inFlight + w.lost, e);
      }
  }

  /** What a step does not give the rules, its screening leaves in the ledger. */
  lemma {:induction false} NotGivenIsKept(b: AnswerBudgets, w: World, s: Step, e: TimerEntry)
    requires Invariant(b, w) && s.Deliver? && w.call.state != Terminated && Reaches(w.call, s.event, s.scopeEnded)
    requires e in w.call.ledger.entries && IsAnswerDeadline(e.key.timerType) && InstanceOf(e) !in Given(w, s)
    ensures e in Read(w.call, s.event).ledger.entries
  {
    var l := w.call.ledger;
    if s.event.Timer? {
      Partition(l.entries, Keyed(s.event.key));
      var held := Taken(l.entries, Keyed(s.event.key));
      assert held[0] in held;
      if SameKey(e.key, s.event.key) { SameEntry(l, e, held[0]); }
    } else if AnswerTo(s.event).Some? {
      Partition(l.entries, Closing(AnswerTo(s.event).value));
    }
  }
}
